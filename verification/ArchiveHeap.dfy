/** The bounded heap of page candidates and the scan that fills it. */
module ArchiveHeap {
  import opened Archives

  // ---- heap order ----------------------------------------------------------------------

  function Parent(k: nat): nat
    requires k > 0
  {
    (k - 1) / 2
  }

  /** The heap's comparison: the older archive sorts first. */
  predicate Less(h: seq<Archive>, i: nat, j: nat)
    requires i < |h| && j < |h|
  {
    Newer(h[j], h[i])
  }

  /** No archive is older than its parent, among the first n. */
  ghost predicate Ordered(h: seq<Archive>, n: nat)
    requires n <= |h|
  {
    forall k | 0 < k < n :: !Less(h, k, Parent(k))
  }

  /** Heap order everywhere but above position j, whose children still respect its parent. */
  ghost predicate OrderedBut(h: seq<Archive>, n: nat, j: nat)
    requires n <= |h|
  {
    && (forall k | 0 < k < n && k != j :: !Less(h, k, Parent(k)))
    && (forall k | 0 < k < n && Parent(k) == j && j > 0 :: !Less(h, k, Parent(j)))
  }

  /** Heap order everywhere but below position i, whose children still respect its parent. */
  ghost predicate OrderedBelowBut(h: seq<Archive>, n: nat, i: nat)
    requires n <= |h|
  {
    && (forall k | 0 < k < n && Parent(k) != i :: !Less(h, k, Parent(k)))
    && (forall k | 0 < k < n && Parent(k) == i && i > 0 :: !Less(h, k, Parent(i)))
  }

  function Swapped(h: seq<Archive>, i: nat, j: nat): (r: seq<Archive>)
    requires i < |h| && j < |h|
    ensures |r| == |h| && multiset(r) == multiset(h)
  {
    h[i := h[j]][j := h[i]]
  }

  /** The root of a heap is an oldest archive. */
  lemma {:induction false} RootIsOldest(h: seq<Archive>, k: nat)
    requires k < |h| && Ordered(h, |h|)
    ensures !Newer(h[0], h[k])
    decreases k
  {
    if k == 0 {
      NewerIrreflexive(h[0]);
    } else {
      RootIsOldest(h, Parent(k));
      NotNewerTransitive(h[0], h[Parent(k)], h[k]);
    }
  }

  lemma SiftUpStep(h: seq<Archive>, n: nat, j: nat)
    requires 0 < j < n <= |h| && OrderedBut(h, n, j) && Less(h, j, Parent(j))
    ensures OrderedBut(Swapped(h, Parent(j), j), n, Parent(j))
  {
    var i := Parent(j);
    var g := Swapped(h, i, j);
    forall k | 0 < k < n && k != i ensures !Less(g, k, Parent(k)) {
      if k == j {
        NewerAsymmetric(h[i], h[j]);
      } else if Parent(k) == i {
        NewerAsymmetric(h[i], h[j]);
        NotNewerTransitive(h[j], h[i], h[k]);
      }
    }
    forall k | 0 < k < n && Parent(k) == i && i > 0 ensures !Less(g, k, Parent(i)) {
      if k != j {
        NotNewerTransitive(h[Parent(i)], h[i], h[k]);
      }
    }
  }

  lemma SiftDownStep(h: seq<Archive>, n: nat, i: nat, j: nat)
    requires n <= |h| && 0 < j < n && Parent(j) == i && OrderedBelowBut(h, n, i)
    requires Less(h, j, i)
    requires forall k | 0 < k < n && Parent(k) == i :: !Less(h, k, j)
    ensures OrderedBelowBut(Swapped(h, i, j), n, j)
  {
    var g := Swapped(h, i, j);
    forall k | 0 < k < n && Parent(k) != j ensures !Less(g, k, Parent(k)) {
      if k == j {
        NewerAsymmetric(h[i], h[j]);
      } else if k == i {
        assert !Less(h, j, Parent(i));
      }
    }
  }

  /** The heap slice of ListPage. */
  class Candidates {
    var items: seq<Archive>

    constructor ()
      ensures items == []
    {
      items := [];
    }

    method Up(start: nat)
      requires start < |items| && OrderedBut(items, |items|, start)
      modifies this
      ensures Ordered(items, |items|) && |items| == old(|items|)
      ensures multiset(items) == multiset(old(items))
    {
      var j: nat := start;
      while j != 0 && Less(items, j, Parent(j))
        invariant j < |items| && |items| == old(|items|)
        invariant OrderedBut(items, |items|, j)
        invariant multiset(items) == multiset(old(items))
        decreases j
      {
        SiftUpStep(items, |items|, j);
        items := Swapped(items, Parent(j), j);
        j := Parent(j);
      }
    }

    method Down(n: nat)
      requires n <= |items| && OrderedBelowBut(items, n, 0)
      modifies this
      ensures |items| == old(|items|) && Ordered(items, n)
      ensures multiset(items[..n]) == multiset(old(items[..n]))
      ensures items[n..] == old(items[n..])
    {
      var i := 0;
      while 2 * i + 1 < n
        invariant Sifting(old(items), items, n, i)
        decreases n - i
      {
        var j := 2 * i + 1;
        if j + 1 < n && Less(items, j + 1, j) {
          j := j + 1;
        }
        SmallerChild(items, n, i, j);
        if !Less(items, j, i) {
          InPlace(items, n, i, j);
          return;
        }
        SiftOnce(old(items), items, n, i, j);
        items := Swapped(items, i, j);
        i := j;
      }
    }

    /** heap.Push: append, then sift up. */
    method Push(v: Archive)
      requires Ordered(items, |items|)
      modifies this
      ensures Ordered(items, |items|)
      ensures multiset(items) == multiset(old(items)) + multiset{v}
    {
      var n := |items|;
      items := items + [v];
      assert forall k | 0 < k < n :: !Less(items[..n], k, Parent(k));
      Up(n);
    }

    /** heap.Pop: swap the root out, sift down, cut it off. */
    method Pop() returns (v: Archive)
      requires items != [] && Ordered(items, |items|)
      modifies this
      ensures Ordered(items, |items|)
      ensures multiset(old(items)) == multiset(items) + multiset{v}
      ensures forall a | a in items :: !Newer(v, a)
    {
      var n := |items| - 1;
      ghost var before := items;
      items := Swapped(items, 0, n);
      PopOrder(before, items);
      ghost var swapped := items;
      Down(n);
      v := items[n];
      PopContents(before, swapped, items);
      items := items[..n];
    }
  }

  /** The heap `h` while place `i` of its first `n` is being sifted down, from `was`. */
  ghost predicate Sifting(was: seq<Archive>, h: seq<Archive>, n: nat, i: nat) {
    && n <= |h| == |was| && OrderedBelowBut(h, n, i)
    && multiset(h[..n]) == multiset(was[..n]) && h[n..] == was[n..]
  }

  lemma SiftOnce(was: seq<Archive>, h: seq<Archive>, n: nat, i: nat, j: nat)
    requires Sifting(was, h, n, i) && 0 < j < n && Parent(j) == i && Less(h, j, i)
    requires forall k | 0 < k < n && Parent(k) == i :: !Less(h, k, j)
    ensures Sifting(was, Swapped(h, i, j), n, j)
  {
    SiftDownStep(h, n, i, j);
    SwapInFront(h, n, i, j);
  }

  /** A swap among the first n keeps what they are and leaves the rest. */
  lemma SwapInFront(h: seq<Archive>, n: nat, i: nat, j: nat)
    requires i < j < n <= |h|
    ensures multiset(Swapped(h, i, j)[..n]) == multiset(h[..n]) && Swapped(h, i, j)[n..] == h[n..]
  {
    assert Swapped(h, i, j)[..n] == Swapped(h[..n], i, j);
  }

  /** No child of `i` is older: the place is found. */
  lemma InPlace(h: seq<Archive>, n: nat, i: nat, j: nat)
    requires n <= |h| && i < n && 0 < j < n && OrderedBelowBut(h, n, i) && !Less(h, j, i)
    requires forall k | 0 < k < n && Parent(k) == i :: !Less(h, k, j)
    ensures Ordered(h, n)
  {
    forall k | 0 < k < n && Parent(k) == i ensures !Less(h, k, i) {
      NotNewerTransitive(h[i], h[j], h[k]);
    }
  }

  /** Cutting the last place off the sifted slice takes exactly the oldest archive. */
  lemma PopContents(before: seq<Archive>, swapped: seq<Archive>, sifted: seq<Archive>)
    requires before != [] && Ordered(before, |before|)
    requires swapped == Swapped(before, 0, |before| - 1) && |sifted| == |before|
    requires multiset(sifted[..|before| - 1]) == multiset(swapped[..|before| - 1])
    requires sifted[|before| - 1..] == swapped[|before| - 1..]
    ensures sifted[|before| - 1] == before[0]
    ensures multiset(before) == multiset(sifted[..|before| - 1]) + multiset{before[0]}
    ensures forall a | a in sifted[..|before| - 1] :: !Newer(before[0], a)
  {
    var n := |before| - 1;
    assert swapped == swapped[..n] + [before[0]];
    assert sifted[n] == sifted[n..][0] == swapped[n..][0];
    forall a | a in sifted[..n] ensures !Newer(before[0], a) {
      assert a in multiset(sifted[..n]);
      assert a in multiset(before);
      var k :| 0 <= k < |before| && before[k] == a;
      RootIsOldest(before, k);
    }
  }

  lemma SmallerChild(h: seq<Archive>, n: nat, i: nat, j: nat)
    requires n <= |h| && 2 * i + 1 < n
    requires j == if 2 * i + 2 < n && Less(h, 2 * i + 2, 2 * i + 1) then 2 * i + 2 else 2 * i + 1
    ensures Parent(j) == i
    ensures forall k | 0 < k < n && Parent(k) == i :: !Less(h, k, j)
  {
    forall k | 0 < k < n && Parent(k) == i ensures !Less(h, k, j) {
      assert k == 2 * i + 1 || k == 2 * i + 2;
      NewerIrreflexive(h[j]);
      if j == 2 * i + 2 && k == 2 * i + 1 {
        NewerAsymmetric(h[k], h[j]);
      }
    }
  }

  lemma PopOrder(before: seq<Archive>, after: seq<Archive>)
    requires before != [] && Ordered(before, |before|) && after == Swapped(before, 0, |before| - 1)
    ensures OrderedBelowBut(after, |before| - 1, 0)
  {
    forall k | 0 < k < |before| - 1 && Parent(k) != 0 ensures !Less(after, k, Parent(k)) {
      assert !Less(before, k, Parent(k));
    }
  }

  // ---- sorting the survivors -------------------------------------------------------------

  /** One archive to its place among sorted ones. */
  method Insert(sorted: seq<Archive>, v: Archive) returns (r: seq<Archive>)
    requires Descending(sorted) && forall a | a in sorted :: Newer(a, v) || Newer(v, a)
    ensures Descending(r) && multiset(r) == multiset(sorted) + multiset{v}
  {
    var p := |sorted|;
    while p > 0 && Newer(v, sorted[p - 1])
      invariant 0 <= p <= |sorted|
      invariant forall k | p <= k < |sorted| :: Newer(v, sorted[k])
    {
      p := p - 1;
    }
    Placed(sorted, p, v);
    r := sorted[..p] + [v] + sorted[p..];
  }

  lemma AllNewer(sorted: seq<Archive>, p: nat, v: Archive)
    requires Descending(sorted) && 0 < p <= |sorted| && Newer(sorted[p - 1], v)
    ensures forall k | 0 <= k < p :: Newer(sorted[k], v)
  {
    forall k | 0 <= k < p ensures Newer(sorted[k], v) {
      if k < p - 1 {
        NewerTransitive(sorted[k], sorted[p - 1], v);
      }
    }
  }

  lemma PlacedDescends(front: seq<Archive>, v: Archive, back: seq<Archive>)
    requires Descending(front) && Descending(back)
    requires forall a | a in front :: Newer(a, v)
    requires forall k | 0 <= k < |back| :: Newer(v, back[k])
    requires Precedes(front, back)
    ensures Descending(front + [v] + back)
  {
    ConcatDescends(front, [v]);
    ConcatDescends(front + [v], back);
  }

  lemma Placed(sorted: seq<Archive>, p: nat, v: Archive)
    requires Descending(sorted) && p <= |sorted|
    requires p > 0 ==> Newer(sorted[p - 1], v)
    requires forall k | p <= k < |sorted| :: Newer(v, sorted[k])
    ensures var r := sorted[..p] + [v] + sorted[p..];
            Descending(r) && multiset(r) == multiset(sorted) + multiset{v}
  {
    if p > 0 {
      AllNewer(sorted, p, v);
    }
    PlacedDescends(sorted[..p], v, sorted[p..]);
    assert sorted == sorted[..p] + sorted[p..];
  }

  /** sort.Slice by archiveNewer, on archives with distinct names. */
  method SortNewestFirst(items: seq<Archive>, ghost s: set<Archive>) returns (r: seq<Archive>)
    requires Keyed(s) && multiset(items) == multiset(s)
    ensures r == Ranked(s)
  {
    r := [];
    var i := 0;
    while i < |items|
      invariant i <= |items|
      invariant multiset(r) == multiset(items[..i])
      invariant Descending(r)
    {
      Comparable(r, items, i, s);
      assert items[..i + 1] == items[..i] + [items[i]];
      r := Insert(r, items[i]);
      i := i + 1;
    }
    assert items[..i] == items;
    forall a ensures a in r <==> a in s {
      assert a in r <==> a in multiset(r);
    }
    RankedIsTheOne(r, s);
  }

  lemma Comparable(r: seq<Archive>, items: seq<Archive>, i: nat, s: set<Archive>)
    requires Keyed(s) && i < |items| && multiset(items) == multiset(s) && multiset(r) == multiset(items[..i])
    ensures forall a | a in r :: Newer(a, items[i]) || Newer(items[i], a)
  {
    MultisetParts(items, i, s);
    forall a | a in r ensures Newer(a, items[i]) || Newer(items[i], a) {
      assert a in multiset(r);
      NewerTotal(a, items[i]);
    }
  }

  lemma MultisetParts(items: seq<Archive>, i: nat, s: set<Archive>)
    requires i < |items| && multiset(items) == multiset(s)
    ensures items[i] in s
    ensures forall a | a in multiset(items[..i]) :: a in s && a != items[i]
  {
    assert items == items[..i] + [items[i]] + items[i + 1..];
    assert items[i] in multiset(items);
    forall a | a in multiset(items[..i]) ensures a in s && a != items[i] {
      assert a in multiset(items);
      assert multiset(items)[a] <= 1;
    }
  }
}
