/** Queues that hold frames of a known list: which frames they hold, and that their top is the
    earliest one wherever the comparator agrees with the list. */
module IndexedQueue {
  import opened Options
  import opened PriorityQueue

  /** The queue holds exactly the elements with the given indices, once each. */
  ghost predicate Holds<T(!new)>(q: multiset<T>, sent: seq<T>, held: set<nat>) {
    && (forall i | i in held :: i < |sent| && q[sent[i]] == 1)
    && (forall x | x in q :: exists i :: i in held && sent[i] == x)
  }

  /** The comparator says of any two of them which comes later in the list. */
  ghost predicate Agrees<T(!new)>(less: (T, T) -> bool, sent: seq<T>, held: set<nat>) {
    && (forall i | i in held :: i < |sent|)
    && forall i, j | i in held && j in held && i != j ::
         sent[i] != sent[j] && (less(sent[i], sent[j]) <==> i > j)
  }

  lemma HeldIsOrdered<T(!new)>(less: (T, T) -> bool, q: multiset<T>, sent: seq<T>, held: set<nat>)
    requires Holds(q, sent, held) && Agrees(less, sent, held)
    ensures StrictWeak(less, q)
  {
    forall x | x in q ensures q[x] == 1 {
      var i :| i in held && sent[i] == x;
    }
    forall x, y | x in q && y in q && x != y ensures !(less(x, y) && less(y, x)) {
      var i :| i in held && sent[i] == x;
      var j :| j in held && sent[j] == y;
    }
    forall x, y, z | x in q && y in q && z in q && x != y && y != z && x != z
      ensures (less(x, y) && less(y, z) ==> less(x, z)) && (!less(x, y) && !less(y, z) ==> !less(x, z))
    {
      var i :| i in held && sent[i] == x;
      var j :| j in held && sent[j] == y;
      var k :| k in held && sent[k] == z;
    }
  }

  /** The top is the held element with the least index. */
  lemma TopIsLeast<T(!new)>(less: (T, T) -> bool, q: multiset<T>, sent: seq<T>, held: set<nat>, t: T) returns (i: nat)
    requires Holds(q, sent, held) && Agrees(less, sent, held) && TopOf(less, q, Some(t))
    ensures i in held && t == sent[i] && forall j | j in held :: i <= j
  {
    hide StrictWeak;
    HeldIsOrdered(less, q, sent, held);
    i :| i in held && sent[i] == t;
    forall j | j in held ensures i <= j {
      assert sent[j] in q;
    }
  }

  lemma NothingHeld<T(!new)>(less: (T, T) -> bool, q: multiset<T>, sent: seq<T>, held: set<nat>)
    requires TopOf(less, q, None) && Holds(q, sent, held)
    ensures held == {}
  {
    forall i | 0 <= i < |sent| ensures i !in held { assert q[sent[i]] == 0; }
  }

  lemma HoldsRemove<T(!new)>(less: (T, T) -> bool, q: multiset<T>, sent: seq<T>, held: set<nat>, i: nat)
    requires Holds(q, sent, held) && Agrees(less, sent, held) && i in held
    ensures Holds(q - multiset{sent[i]}, sent, held - {i}) && Agrees(less, sent, held - {i})
  {
    var r := q - multiset{sent[i]};
    forall x | x in r ensures exists j :: j in held - {i} && sent[j] == x {
      var j :| j in held && sent[j] == x;
      assert j != i;
    }
  }

  lemma HoldsAdd<T(!new)>(less: (T, T) -> bool, q: multiset<T>, sent: seq<T>, held: set<nat>, i: nat)
    requires Holds(q, sent, held) && Agrees(less, sent, held + {i}) && i !in held
    ensures Holds(q + multiset{sent[i]}, sent, held + {i})
  {
    var (r, more) := (q + multiset{sent[i]}, held + {i});
    assert i in more;
    assert sent[i] !in q by { AbsentElement(less, q, sent, held, i); }
    forall j | j in more ensures r[sent[j]] == 1 {
      if j != i { assert j in held; }
    }
    forall x | x in r ensures exists j :: j in more && sent[j] == x {
      if x in q {
        var j :| j in held && sent[j] == x;
        assert j in more;
      }
    }
  }

  lemma AbsentElement<T(!new)>(less: (T, T) -> bool, q: multiset<T>, sent: seq<T>, held: set<nat>, i: nat)
    requires Holds(q, sent, held) && Agrees(less, sent, held + {i}) && i !in held
    ensures i in held + {i} && sent[i] !in q
  {
    assert i in held + {i};
    forall j | j in held ensures sent[j] != sent[i] { assert j in held + {i}; }
  }

  lemma {:induction false} HoldsCount<T(!new)>(less: (T, T) -> bool, q: multiset<T>, sent: seq<T>, held: set<nat>)
    requires Holds(q, sent, held) && Agrees(less, sent, held)
    ensures |q| == |held|
    decreases |held|
  {
    if held == {} {
      assert q == multiset{};
    } else {
      var i :| i in held;
      HoldsRemove(less, q, sent, held, i);
      HoldsCount(less, q - multiset{sent[i]}, sent, held - {i});
    }
  }

  lemma Fewer<T>(a: set<T>, b: set<T>)
    requires a <= b
    ensures |a| <= |b|
  {
    var c := b - a;
    assert b == a + c;
  }

  // ---- arrivals in any order --------------------------------------------------------------

  /** Every element of the list arrives exactly once, in any order. */
  ghost predicate Arrival<T>(sent: seq<T>, arr: seq<nat>) {
    && |arr| == |sent| && (forall k | 0 <= k < |arr| :: arr[k] < |sent|)
    && (forall j, k | 0 <= j < k < |arr| :: arr[j] != arr[k])
    && (forall m: nat | m < |sent| :: m in arr)
  }

  function Arrivals<T>(sent: seq<T>, arr: seq<nat>): (items: seq<T>)
    requires forall k | 0 <= k < |arr| :: arr[k] < |sent|
    ensures |items| == |arr|
  {
    seq(|arr|, k requires 0 <= k < |arr| => sent[arr[k]])
  }

  /** The indices that have arrived after k arrivals. */
  function Seen(arr: seq<nat>, k: nat): set<nat>
    requires k <= |arr|
  {
    set j | j in arr[..k]
  }

  lemma SeenAt(arr: seq<nat>, k: nat, p: nat)
    requires k <= |arr| && p < |arr| && forall i, j | 0 <= i < j < |arr| :: arr[i] != arr[j]
    ensures arr[p] in Seen(arr, k) <==> p < k
  {
    if p < k { assert arr[..k][p] == arr[p]; }
  }

  lemma SeenNext(arr: seq<nat>, k: nat)
    requires k < |arr|
    ensures Seen(arr, k + 1) == Seen(arr, k) + {arr[k]}
  {
    assert arr[..k + 1] == arr[..k] + [arr[k]];
  }

  lemma PositionOf(arr: seq<nat>, m: nat) returns (p: nat)
    requires m in arr
    ensures p < |arr| && arr[p] == m
  {
    p :| p < |arr| && arr[p] == m;
  }
}
