/** A priority queue whose comparator need not be an order.  Its top is an element; it is one
    that no other is greater than only where the comparator orders the elements.  Which element
    it is otherwise is left open, so what is proved about its users holds for any heap. */
module PriorityQueue {
  import opened Options

  /** `less` is a strict weak order on what the queue holds.  A heap never compares an entry
      with itself, so only entries held twice must be irreflexive. */
  ghost predicate StrictWeak<T(!new)>(less: (T, T) -> bool, q: multiset<T>) {
    && (forall x | x in q && q[x] > 1 :: !less(x, x))
    && (forall x, y | x in q && y in q && x != y :: !(less(x, y) && less(y, x)))
    && (forall x, y, z | x in q && y in q && z in q && x != y && y != z && x != z ::
          (less(x, y) && less(y, z) ==> less(x, z)) && (!less(x, y) && !less(y, z) ==> !less(x, z)))
  }

  ghost predicate Maximal<T(!new)>(less: (T, T) -> bool, q: multiset<T>, t: T) {
    forall y | y in q && y != t :: !less(t, y)
  }

  /** What `empty` and `top` may report. */
  ghost predicate TopOf<T(!new)>(less: (T, T) -> bool, q: multiset<T>, t: Option<T>) {
    match t
    case None => q == multiset{}
    case Some(x) => x in q && (StrictWeak(less, q) ==> Maximal(less, q, x))
  }

  lemma TopIsIn<T(!new)>(less: (T, T) -> bool, q: multiset<T>, t: T)
    requires TopOf(less, q, Some(t))
    ensures t in q
  {
  }

  class Queue<T(!new, ==)> {
    const less: (T, T) -> bool
    var heap: seq<T>

    ghost function Elements(): multiset<T> reads this { multiset(heap) }

    constructor (less: (T, T) -> bool)
      ensures this.less == less && Elements() == multiset{}
    {
      this.less := less;
      heap := [];
    }

    method Push(x: T)
      modifies this`heap
      ensures Elements() == old(Elements()) + multiset{x}
    {
      heap := heap + [x];
    }

    method Top() returns (t: Option<T>)
      ensures TopOf(less, Elements(), t)
    {
      hide StrictWeak;
      if heap == [] { return None; }
      var best := 0;
      for i := 1 to |heap|
        invariant best < i && (StrictWeak(less, Elements()) ==> Best(best, i))
      {
        if less(heap[best], heap[i]) {
          if StrictWeak(less, Elements()) { NewBest(best, i); }
          best := i;
        }
      }
      return Some(heap[best]);
    }

    /** No entry before the n-th is greater than the one at position i. */
    ghost predicate Best(i: nat, n: nat)
      requires i < n <= |heap|
      reads this
    {
      forall j | 0 <= j < n && heap[j] != heap[i] :: !less(heap[i], heap[j])
    }

    lemma NewBest(best: nat, i: nat)
      requires StrictWeak(less, Elements()) && best < i < |heap| && less(heap[best], heap[i]) && Best(best, i)
      ensures Best(i, i + 1)
    {
      if heap[best] == heap[i] { OccursTwice(heap, best, i); }
      forall j | 0 <= j < i && heap[j] != heap[i] ensures !less(heap[i], heap[j]) {
        assert heap[j] in Elements() && heap[i] in Elements() && heap[best] in Elements();
      }
    }

    method Pop(x: T)
      requires x in Elements()
      modifies this`heap
      ensures Elements() == old(Elements()) - multiset{x}
    {
      var i := 0;
      while i + 1 < |heap| && heap[i] != x
        invariant i < |heap| && x !in heap[..i]
      {
        i := i + 1;
      }
      assert heap == heap[..i] + [heap[i]] + heap[i + 1..];
      heap := heap[..i] + heap[i + 1..];
    }
  }

  lemma OccursTwice<T>(h: seq<T>, i: nat, j: nat)
    requires i < j < |h| && h[i] == h[j]
    ensures multiset(h)[h[i]] >= 2
  {
    var (pre, post) := (h[..j], h[j..]);
    assert h == pre + post && pre[i] == h[i] && post[0] == h[i];
    assert multiset(h) == multiset(pre) + multiset(post);
    assert h[i] in multiset(pre) && h[i] in multiset(post);
  }
}
