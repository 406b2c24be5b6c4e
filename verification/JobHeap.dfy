/**
 The pending jobs of the in-memory queue: a binary heap in a slice, with the sift operations of
 Go's `container/heap` on top of `jobHeap`'s Less, Swap, Push and Pop.
 */
module JobHeap {

  /** What the heap reads of a job; none of it changes while the job is in the heap. */
  datatype Entry = Entry(id: nat, priority: int, createdAt: int)

  /** Higher priority first; at equal priority, the earlier created. */
  predicate Less(a: Entry, b: Entry) {
    if a.priority != b.priority then a.priority > b.priority else a.createdAt < b.createdAt
  }

  function Parent(i: int): (p: int)
    requires 0 < i
    ensures 0 <= p < i
  {
    (i - 1) / 2
  }

  predicate InOrder(h: seq<Entry>, i: int)
    requires 0 < i < |h|
  {
    !Less(h[i], h[Parent(i)])
  }

  predicate IsHeap(h: seq<Entry>) {
    forall i :: 0 < i < |h| ==> InOrder(h, i)
  }

  /** Nothing in a heap comes before its first element. */
  lemma {:induction false} FirstIsLeast(h: seq<Entry>, i: nat)
    requires IsHeap(h) && i < |h|
    ensures !Less(h[i], h[0])
  {
    if i > 0 {
      assert InOrder(h, i);
      FirstIsLeast(h, Parent(i));
    }
  }

  function Swap(h: seq<Entry>, i: nat, j: nat): (r: seq<Entry>)
    requires i < |h| && j < |h|
    ensures |r| == |h| && r[i] == h[j] && r[j] == h[i]
    ensures forall k :: 0 <= k < |h| && k != i && k != j ==> r[k] == h[k]
    ensures multiset(r) == multiset(h)
  {
    h[i := h[j]][j := h[i]]
  }

  /** In heap order but for `k` against its parent, with the grandparent relation around `k` intact. */
  predicate HeapButUp(h: seq<Entry>, k: int) {
    && (forall i :: 0 < i < |h| && i != k ==> InOrder(h, i))
    && (forall i :: 0 < i < |h| && Parent(i) == k && k > 0 ==> !Less(h[i], h[Parent(k)]))
  }

  /** In heap order but for `k` against its children, with the grandparent relation around `k` intact. */
  predicate HeapButDown(h: seq<Entry>, n: int, k: int)
    requires n <= |h|
  {
    && (forall i :: 0 < i < n && Parent(i) != k ==> InOrder(h, i))
    && (forall i :: 0 < i < n && Parent(i) == k && k > 0 ==> !Less(h[i], h[Parent(k)]))
  }

  method Up(h0: seq<Entry>, j0: nat) returns (h: seq<Entry>)
    requires j0 < |h0| && HeapButUp(h0, j0)
    ensures IsHeap(h) && multiset(h) == multiset(h0)
  {
    h := h0;
    var j := j0;
    while true
      invariant 0 <= j < |h| && HeapButUp(h, j) && multiset(h) == multiset(h0)
      decreases j
    {
      if j == 0 {
        break;
      }
      var i := Parent(j);
      if !Less(h[j], h[i]) {
        break;
      }
      SwapUp(h, j);
      h := Swap(h, i, j);
      j := i;
    }
  }

  lemma SwapUp(h: seq<Entry>, j: int)
    requires 0 < j < |h| && HeapButUp(h, j) && Less(h[j], h[Parent(j)])
    ensures HeapButUp(Swap(h, Parent(j), j), Parent(j))
  {
    var p := Parent(j);
    var r := Swap(h, p, j);
    forall i | 0 < i < |r| && i != p ensures InOrder(r, i) {
      if i != j { assert InOrder(h, i); }
    }
    forall i | 0 < i < |r| && Parent(i) == p && p > 0 ensures !Less(r[i], r[Parent(p)]) {
      assert InOrder(h, p);
      if i != j { assert InOrder(h, i); }
    }
  }

  /** The child of `i` that comes first, among the first `n` elements. */
  function LeastChild(h: seq<Entry>, n: nat, i: nat): (j: nat)
    requires 2 * i + 1 < n <= |h|
    ensures 0 < j < n && Parent(j) == i
    ensures forall k :: 0 < k < n && Parent(k) == i ==> !Less(h[k], h[j])
  {
    var j1 := 2 * i + 1;
    var j2 := j1 + 1;
    assert forall k :: 0 < k && Parent(k) == i ==> k == j1 || k == j2;
    if j2 < n && Less(h[j2], h[j1]) then j2 else j1
  }

  lemma DownDone(h: seq<Entry>, n: nat, i: nat)
    requires n <= |h| && HeapButDown(h, n, i)
    requires 2 * i + 1 < n ==> !Less(h[LeastChild(h, n, i)], h[i])
    ensures IsHeap(h[..n])
  {
    forall k | 0 < k < n ensures InOrder(h[..n], k) {
      if Parent(k) != i { assert InOrder(h, k); }
    }
  }

  /** `down` from the root, over the first `n` elements. */
  method Down(h0: seq<Entry>, n: nat) returns (h: seq<Entry>)
    requires n <= |h0| && HeapButDown(h0, n, 0)
    ensures |h| == |h0| && IsHeap(h[..n]) && h[n..] == h0[n..]
    ensures multiset(h) == multiset(h0)
  {
    hide HeapButDown;
    h := h0;
    var i := 0;
    while true
      invariant 0 <= i && |h| == |h0| && h[n..] == h0[n..]
      invariant HeapButDown(h, n, i) && multiset(h) == multiset(h0)
      decreases n - i
    {
      if 2 * i + 1 >= n {
        break;
      }
      var j := LeastChild(h, n, i);
      if !Less(h[j], h[i]) {
        break;
      }
      SwapDown(h, n, i, j);
      h := Swap(h, i, j);
      i := j;
    }
    DownDone(h, n, i);
  }

  lemma SwapDown(h: seq<Entry>, n: int, i: int, j: int)
    requires 0 <= i < j < n <= |h| && Parent(j) == i && HeapButDown(h, n, i) && Less(h[j], h[i])
    requires forall k :: 0 < k < n && Parent(k) == i ==> !Less(h[k], h[j])
    ensures HeapButDown(Swap(h, i, j), n, j)
  {
    var r := Swap(h, i, j);
    forall k | 0 < k < n && Parent(k) != j ensures InOrder(r, k) {
      if Parent(k) != i { assert InOrder(h, k); }
    }
    forall k | 0 < k < n && Parent(k) == j ensures !Less(r[k], r[Parent(j)]) {
      assert InOrder(h, k);
    }
  }

  class Heap {
    var h: seq<Entry>

    predicate Valid()
      reads this
    {
      IsHeap(h)
    }

    constructor ()
      ensures Valid() && h == []
    {
      h := [];
    }

    method Push(x: Entry)
      requires Valid()
      modifies this
      ensures Valid() && multiset(h) == old(multiset(h)) + multiset{x}
    {
      var pushed := h + [x];
      forall i | 0 < i < |pushed| && i != |h| ensures InOrder(pushed, i) {
        assert InOrder(h, i);
      }
      h := Up(pushed, |h|);
    }

    /** `heap.Pop`: the last element takes the root's place and sinks. */
    method Pop() returns (x: Entry)
      requires Valid() && h != []
      modifies this
      ensures Valid() && old(multiset(h)) == multiset(h) + multiset{x}
      ensures x == old(h[0])
      ensures forall y :: y in h ==>
                y.priority < x.priority || (y.priority == x.priority && y.createdAt >= x.createdAt)
    {
      var n := |h| - 1;
      var s := Swap(h, 0, n);
      forall i | 0 < i < n && Parent(i) != 0 ensures InOrder(s, i) {
        assert InOrder(h, i);
      }
      var d := Down(s, n);
      assert d[n] == d[n..][0] == s[n..][0];
      x := d[n];
      forall y | y in d[..n] ensures !Less(y, x) {
        assert y in multiset(d);
        assert y in old(h);
        var k :| 0 <= k < |h| && h[k] == y;
        FirstIsLeast(h, k);
      }
      assert d == d[..n] + [x];
      h := d[..n];
    }

    /** Popping until empty yields everything, in order. */
    method Drain() returns (out: seq<Entry>)
      requires Valid()
      modifies this
      ensures h == [] && multiset(out) == old(multiset(h))
      ensures forall i, j :: 0 <= i < j < |out| ==>
                || out[i].priority > out[j].priority
                || (out[i].priority == out[j].priority && out[i].createdAt <= out[j].createdAt)
    {
      out := [];
      while h != []
        invariant Valid() && multiset(out) + multiset(h) == old(multiset(h))
        invariant forall i, j :: 0 <= i < j < |out| ==> !Less(out[j], out[i])
        invariant forall i, y :: 0 <= i < |out| && y in h ==> !Less(y, out[i])
        decreases |h|
      {
        ghost var before := h;
        var x := Pop();
        assert forall y :: y in h ==> !Less(y, x);
        assert |multiset(before)| == |before| && |multiset(h)| == |h|;
        assert x in multiset(before);
        assert x in before;
        forall y | y in h ensures y in before { assert y in multiset(h); assert y in multiset(before); }
        out := out + [x];
      }
    }
  }
}
