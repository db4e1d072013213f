/** Sums over finite maps, independent of the order in which they are taken. */
module Sums {
  ghost function Sum<K>(m: map<K, int>): int
    decreases |m|
  {
    if m == map[] then 0
    else
      var k :| k in m;
      assert |m - {k}| < |m| by {
        assert (m - {k}).Keys == m.Keys - {k};
        assert |m| == |m.Keys|;
        assert |m - {k}| == |(m - {k}).Keys|;
      }
      m[k] + Sum(m - {k})
  }

  lemma SizeWithout<K>(m: map<K, int>, k: K)
    requires k in m
    ensures |m - {k}| < |m|
  {
    assert (m - {k}).Keys == m.Keys - {k};
    assert |m| == |m.Keys|;
    assert |m - {k}| == |(m - {k}).Keys|;
  }

  /** Any key may be taken out first. */
  lemma {:induction false} SumTake<K>(m: map<K, int>, k: K)
    requires k in m
    ensures Sum(m) == m[k] + Sum(m - {k})
    decreases |m|
  {
    var j :| j in m && Sum(m) == m[j] + Sum(m - {j});
    if j != k {
      SizeWithout(m, j);
      SizeWithout(m, k);
      SumTake(m - {j}, k);
      SumTake(m - {k}, j);
      assert m - {j} - {k} == m - {k} - {j};
    }
  }

  lemma SumPut<K>(m: map<K, int>, k: K, v: int)
    ensures Sum(m[k := v]) == Sum(m - {k}) + v
    ensures k in m ==> Sum(m[k := v]) == Sum(m) - m[k] + v
    ensures k !in m ==> Sum(m[k := v]) == Sum(m) + v
  {
    var m' := m[k := v];
    SumTake(m', k);
    assert m' - {k} == m - {k};
    if k in m {
      SumTake(m, k);
    } else {
      assert m - {k} == m;
    }
  }

  lemma {:induction false} SumNonNegative<K>(m: map<K, int>)
    requires forall k | k in m :: m[k] >= 0
    ensures Sum(m) >= 0
    ensures forall k | k in m :: Sum(m) >= m[k]
    decreases |m|
  {
    forall k | k in m ensures Sum(m) >= m[k] {
      SumTake(m, k);
      SizeWithout(m, k);
      SumNonNegative(m - {k});
    }
    if m != map[] {
      var k :| k in m;
      assert Sum(m) >= m[k];
    }
  }

  /** The part of `m` whose keys belong to group `g`. */
  ghost function Part<K, G>(m: map<K, int>, group: map<K, G>, g: G): map<K, int>
    requires m.Keys <= group.Keys
  {
    map k | k in m && group[k] == g :: m[k]
  }

  ghost function PartSums<K, G>(m: map<K, int>, group: map<K, G>, gs: set<G>): map<G, int>
    requires m.Keys <= group.Keys
  {
    map g | g in gs :: Sum(Part(m, group, g))
  }

  /** Taking `k` out changes the sum of its own group only. */
  lemma PartWithout<K, G>(m: map<K, int>, group: map<K, G>, k: K, g: G)
    requires m.Keys <= group.Keys && k in m
    ensures Sum(Part(m, group, g)) == Sum(Part(m - {k}, group, g)) + if g == group[k] then m[k] else 0
  {
    if g == group[k] {
      SumTake(Part(m, group, g), k);
      assert Part(m, group, g) - {k} == Part(m - {k}, group, g);
    } else {
      assert Part(m, group, g) == Part(m - {k}, group, g);
    }
  }

  /** A new entry adds to the whole and to its own group. */
  lemma PartPut<K, G>(m: map<K, int>, group: map<K, G>, k: K, v: int, g: G)
    requires m.Keys <= group.Keys && k in group && k !in m
    ensures Sum(m[k := v]) == Sum(m) + v
    ensures Sum(Part(m[k := v], group, g)) == Sum(Part(m, group, g)) + if g == group[k] then v else 0
  {
    SumPut(m, k, v);
    PartWithout(m[k := v], group, k, g);
    assert m[k := v] - {k} == m;
  }

  lemma NoParts<K, G>(m: map<K, int>, group: map<K, G>, gs: set<G>)
    requires m == map[]
    ensures Sum(PartSums(m, group, gs)) == 0
  {
    var sums := PartSums(m, group, gs);
    forall g | g in gs ensures sums[g] == 0 {
      assert Part(m, group, g) == map[];
    }
    SumZero(sums);
  }

  lemma PartSumsWithout<K, G>(m: map<K, int>, group: map<K, G>, gs: set<G>, k: K)
    requires m.Keys <= group.Keys && k in m && group[k] in gs
    ensures var before := PartSums(m - {k}, group, gs);
            PartSums(m, group, gs) == before[group[k] := before[group[k]] + m[k]]
  {
    forall h | h in gs
      ensures Sum(Part(m, group, h)) == Sum(Part(m - {k}, group, h)) + if h == group[k] then m[k] else 0
    {
      PartWithout(m, group, k, h);
    }
  }

  /** One more entry adds the same to the sum of the group sums and to the whole. */
  lemma OneMorePart<K, G>(m: map<K, int>, group: map<K, G>, gs: set<G>, k: K)
    requires m.Keys <= group.Keys && k in m && group[k] in gs
    ensures Sum(PartSums(m, group, gs)) == Sum(PartSums(m - {k}, group, gs)) + m[k]
  {
    PartSumsWithout(m, group, gs, k);
    var before := PartSums(m - {k}, group, gs);
    SumPut(before, group[k], before[group[k]] + m[k]);
  }

  /** The group sums add up to the sum of everything. */
  lemma {:induction false} SumOfParts<K, G>(m: map<K, int>, group: map<K, G>, gs: set<G>)
    requires m.Keys <= group.Keys
    requires forall k | k in m :: group[k] in gs
    ensures Sum(PartSums(m, group, gs)) == Sum(m)
    decreases |m|
  {
    if m == map[] {
      NoParts(m, group, gs);
    } else {
      var k :| k in m;
      SizeWithout(m, k);
      SumOfParts(m - {k}, group, gs);
      SumTake(m, k);
      OneMorePart(m, group, gs, k);
    }
  }

  lemma {:induction false} SumZero<K>(m: map<K, int>)
    requires forall k | k in m :: m[k] == 0
    ensures Sum(m) == 0
    decreases |m|
  {
    if m != map[] {
      var k :| k in m;
      SumTake(m, k);
      SizeWithout(m, k);
      SumZero(m - {k});
    }
  }

  // ---- adding two maps ---------------------------------------------------------------

  ghost function Added<K>(a: map<K, int>, b: map<K, int>): map<K, int> {
    map k | k in a.Keys + b.Keys :: (if k in a then a[k] else 0) + (if k in b then b[k] else 0)
  }

  lemma AddedWithout<K>(a: map<K, int>, b: map<K, int>, k: K)
    requires k in b
    ensures Added(a, b - {k})[k := Added(a, b)[k]] == Added(a, b)
    ensures k in Added(a, b - {k}) <==> k in a
    ensures k in a ==> Added(a, b - {k})[k] == a[k]
  {
  }

  lemma {:induction false} SumAdded<K>(a: map<K, int>, b: map<K, int>)
    ensures Sum(Added(a, b)) == Sum(a) + Sum(b)
    decreases |b|
  {
    if b == map[] {
      assert Added(a, b) == a;
    } else {
      var k :| k in b;
      SizeWithout(b, k);
      SumTake(b, k);
      SumAdded(a, b - {k});
      AddedWithout(a, b, k);
      SumPut(Added(a, b - {k}), k, Added(a, b)[k]);
    }
  }
}
