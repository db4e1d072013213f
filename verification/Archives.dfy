/** The order of backup archives and what a page of the listing must hold. */
module Archives {
  import opened Wrappers

  /** One archive of the local directory: name, modification time and size. */
  datatype Archive = Archive(name: string, time: int, size: nat)

  /** Go's byte order on names. */
  predicate NameLess(a: string, b: string)
    decreases |a|
  {
    if b == "" then false
    else if a == "" then true
    else a[0] < b[0] || (a[0] == b[0] && NameLess(a[1..], b[1..]))
  }

  /** archiveNewer: later modification first, then greater name. */
  predicate Newer(a: Archive, b: Archive) {
    if a.time == b.time then NameLess(b.name, a.name) else a.time > b.time
  }

  /** Two names agree up to place `k`, where `a` ends or has the smaller character. */
  ghost predicate DiffersAt(a: string, b: string, k: nat) {
    k <= |a| && k < |b| && a[..k] == b[..k] && (k == |a| || a[k] < b[k])
  }

  /** The order on names is the lexicographic one. */
  lemma {:induction false} NameLessExactly(a: string, b: string)
    ensures NameLess(a, b) <==> exists k: nat :: DiffersAt(a, b, k)
    decreases |a|
  {
    if b != "" && (a == "" || a[0] < b[0]) {
      assert DiffersAt(a, b, 0);
    } else if b != "" && a[0] == b[0] {
      NameLessExactly(a[1..], b[1..]);
      if NameLess(a[1..], b[1..]) {
        var k: nat :| DiffersAt(a[1..], b[1..], k);
        LaterDifference(a, b, k);
      } else if exists k: nat :: DiffersAt(a, b, k) {
        var k: nat :| DiffersAt(a, b, k);
        EarlierDifference(a, b, k);
      }
    }
  }

  lemma LaterDifference(a: string, b: string, k: nat)
    requires a != "" && b != "" && a[0] == b[0] && DiffersAt(a[1..], b[1..], k)
    ensures DiffersAt(a, b, k + 1)
  {
    assert a[..k + 1] == [a[0]] + a[1..][..k];
    assert b[..k + 1] == [b[0]] + b[1..][..k];
  }

  lemma EarlierDifference(a: string, b: string, k: nat)
    requires a != "" && b != "" && a[0] == b[0] && DiffersAt(a, b, k)
    ensures k > 0 && DiffersAt(a[1..], b[1..], k - 1)
  {
    assert a[1..][..k - 1] == a[..k][1..];
    assert b[1..][..k - 1] == b[..k][1..];
  }

  /** The later modification comes first; at the same time the lexicographically greater name. */
  lemma NewerExactly(a: Archive, b: Archive)
    ensures Newer(a, b) <==> a.time > b.time || (a.time == b.time && exists k: nat :: DiffersAt(b.name, a.name, k))
  {
    NameLessExactly(b.name, a.name);
  }

  lemma {:induction false} NameIrreflexive(a: string)
    ensures !NameLess(a, a)
    decreases |a|
  {
    if a != "" {
      NameIrreflexive(a[1..]);
    }
  }

  lemma {:induction false} NameTotal(a: string, b: string)
    ensures a == b || NameLess(a, b) || NameLess(b, a)
    decreases |a|
  {
    if a != "" && b != "" && a[0] == b[0] {
      NameTotal(a[1..], b[1..]);
      assert a == [a[0]] + a[1..] && b == [b[0]] + b[1..];
    }
  }

  lemma {:induction false} NameTransitive(a: string, b: string, c: string)
    requires NameLess(a, b) && NameLess(b, c)
    ensures NameLess(a, c)
    decreases |a|
  {
    if a != "" && a[0] == b[0] && b[0] == c[0] {
      NameTransitive(a[1..], b[1..], c[1..]);
    }
  }

  lemma NewerTransitive(a: Archive, b: Archive, c: Archive)
    requires Newer(a, b) && Newer(b, c)
    ensures Newer(a, c)
  {
    if a.time == b.time && b.time == c.time {
      NameTransitive(c.name, b.name, a.name);
    }
  }

  lemma NewerIrreflexive(a: Archive)
    ensures !Newer(a, a)
  {
    NameIrreflexive(a.name);
  }

  lemma NewerTotal(a: Archive, b: Archive)
    requires a.name != b.name
    ensures Newer(a, b) || Newer(b, a)
  {
    NameTotal(a.name, b.name);
  }

  lemma NewerAsymmetric(a: Archive, b: Archive)
    requires Newer(a, b)
    ensures !Newer(b, a)
  {
    if Newer(b, a) {
      NewerTransitive(a, b, a);
      NewerIrreflexive(a);
    }
  }

  /** Not-newer is transitive too, so a heap may be ordered by it. */
  lemma NotNewerTransitive(a: Archive, b: Archive, c: Archive)
    requires !Newer(a, b) && !Newer(b, c)
    ensures !Newer(a, c)
  {
    NameTotal(b.name, c.name);
    if Newer(a, c) && Newer(c, b) {
      NewerTransitive(a, c, b);
    }
  }

  // ---- sort everything ---------------------------------------------------------------

  /** Names identify the archives of one directory. */
  ghost predicate Keyed(s: set<Archive>) {
    forall a, b | a in s && b in s && a.name == b.name :: a == b
  }

  ghost predicate IsNewest(a: Archive, s: set<Archive>) {
    a in s && forall b | b in s && b != a :: Newer(a, b)
  }

  lemma {:induction false} NewestExists(s: set<Archive>)
    requires Keyed(s) && s != {}
    ensures exists a :: IsNewest(a, s)
    decreases |s|
  {
    var x :| x in s;
    var rest := s - {x};
    if rest == {} {
      assert s == {x};
      assert IsNewest(x, s);
    } else {
      NewestExists(rest);
      var m :| IsNewest(m, rest);
      NewerTotal(x, m);
      if Newer(x, m) {
        forall b | b in s && b != x ensures Newer(x, b) {
          if b != m {
            NewerTransitive(x, m, b);
          }
        }
        assert IsNewest(x, s);
      } else {
        assert IsNewest(m, s);
      }
    }
  }

  /** All archives of `s`, newest first. */
  ghost function Ranked(s: set<Archive>): (r: seq<Archive>)
    requires Keyed(s)
    ensures |r| == |s| && (forall a :: a in r <==> a in s)
    decreases |s|
  {
    if s == {} then []
    else
      NewestExists(s);
      var m :| IsNewest(m, s);
      [m] + Ranked(s - {m})
  }

  ghost predicate Descending(r: seq<Archive>) {
    forall i, j | 0 <= i < j < |r| :: Newer(r[i], r[j])
  }

  lemma {:induction false} RankedDescends(s: set<Archive>)
    requires Keyed(s)
    ensures Descending(Ranked(s))
    decreases |s|
  {
    if s != {} {
      NewestExists(s);
      var m :| IsNewest(m, s) && Ranked(s) == [m] + Ranked(s - {m});
      RankedDescends(s - {m});
      NewestFirst(m, s, Ranked(s - {m}));
    }
  }

  lemma NewestFirst(m: Archive, s: set<Archive>, rest: seq<Archive>)
    requires IsNewest(m, s) && Descending(rest) && forall x | x in rest :: x in s - {m}
    ensures Descending([m] + rest)
  {
    forall i, j | 0 <= i < j < |[m] + rest| ensures Newer(([m] + rest)[i], ([m] + rest)[j]) {
      assert rest[j - 1] in rest;
    }
  }

  /** Two descending sequences of the same archives are the same. */
  lemma {:induction false} DescendingUnique(a: seq<Archive>, b: seq<Archive>)
    requires Descending(a) && Descending(b)
    requires forall x :: x in a <==> x in b
    ensures a == b
    decreases |a|
  {
    assert b != [] ==> b[0] in a;
    if a != [] {
      assert a[0] in b && b[0] in a;
      var i :| 0 <= i < |b| && b[i] == a[0];
      var j :| 0 <= j < |a| && a[j] == b[0];
      if i > 0 {
        assert Newer(b[0], b[i]);
        assert j > 0 ==> Newer(a[0], a[j]);
        NewerAsymmetric(b[0], b[i]);
      }
      assert a[0] == b[0];
      forall x ensures x in a[1..] <==> x in b[1..] {
        TailMembers(a, x);
        TailMembers(b, x);
      }
      assert Descending(a[1..]) && Descending(b[1..]);
      DescendingUnique(a[1..], b[1..]);
    }
  }

  lemma TailMembers(a: seq<Archive>, x: Archive)
    requires a != [] && Descending(a)
    ensures x in a[1..] <==> x in a && x != a[0]
  {
    if x in a[1..] {
      var i :| 0 <= i < |a[1..]| && a[1..][i] == x;
      assert Newer(a[0], a[i + 1]);
      NewerIrreflexive(a[0]);
    }
    if x in a && x != a[0] {
      var i :| 0 <= i < |a| && a[i] == x;
      assert a[1..][i - 1] == x;
    }
  }

  lemma RankedIsTheOne(r: seq<Archive>, s: set<Archive>)
    requires Keyed(s) && Descending(r) && forall a :: a in r <==> a in s
    ensures r == Ranked(s)
  {
    RankedDescends(s);
    DescendingUnique(r, Ranked(s));
  }

  // ---- the newest n ------------------------------------------------------------------

  function Min(a: nat, b: nat): nat {
    if a < b then a else b
  }

  /** `t` holds the newest `n` of `s`, or all of it. */
  ghost predicate IsTop(t: set<Archive>, s: set<Archive>, n: nat) {
    && t <= s
    && |t| == Min(n, |s|)
    && forall x, y | x in s - t && y in t :: Newer(y, x)
  }

  /** Keeping the newest n of what was seen is one push and one eviction per archive. */
  lemma TopStep(t: set<Archive>, s: set<Archive>, n: nat, v: Archive, t': set<Archive>)
    requires IsTop(t, s, n) && v !in s
    requires if |t| < n then t' == t + {v}
             else exists o :: o in t + {v} && t' == t + {v} - {o} && forall y | y in t' :: Newer(y, o)
    ensures IsTop(t', s + {v}, n)
  {
    if |t| < n {
      SubsetSizeEqual(t, s);
    } else {
      var o :| o in t + {v} && t' == t + {v} - {o} && forall y | y in t' :: Newer(y, o);
      assert |t + {v}| == |t| + 1;
      forall x, y | x in s + {v} - t' && y in t' ensures Newer(y, x) {
        if x != o && y == v {
          assert x in s - t && o in t;
          NewerTransitive(v, o, x);
        }
      }
      SubsetSize(t, s);
    }
  }

  lemma {:induction false} SubsetSize(t: set<Archive>, s: set<Archive>)
    requires t <= s
    ensures |t| <= |s|
    decreases |t|
  {
    if t != {} {
      var x :| x in t;
      SubsetSize(t - {x}, s - {x});
    }
  }

  lemma SubsetSizeEqual(t: set<Archive>, s: set<Archive>)
    requires t <= s && |t| == |s|
    ensures t == s
  {
    if t != s {
      assert !(s <= t);
      var x :| x in s && x !in t;
      SubsetSize(t, s - {x});
    }
  }

  /** The newest n, ranked, are the first n of everything ranked. */
  lemma TopIsPrefix(t: set<Archive>, s: set<Archive>, n: nat)
    requires Keyed(s) && IsTop(t, s, n)
    ensures Keyed(t) && Ranked(t) == Ranked(s)[..|t|]
  {
    SubsetSize(t, s);
    var joined := Ranked(t) + Ranked(s - t);
    RankedDescends(t);
    RankedDescends(s - t);
    forall i, j | 0 <= i < j < |joined| ensures Newer(joined[i], joined[j]) {
      if i < |t| && j >= |t| {
        assert joined[i] in t && joined[j] in s - t;
      }
    }
    RankedIsTheOne(joined, s);
  }

  // ---- pages ---------------------------------------------------------------------------

  /** The place a page ended: time and name of its last archive. */
  datatype Cursor = Cursor(time: int, name: string)

  datatype Page = Page(items: seq<Archive>, next: Option<Cursor>)

  function At(c: Cursor): Archive {
    Archive(c.name, c.time, 0)
  }

  /** Archives strictly older than the cursor. */
  ghost function Eligible(dir: set<Archive>, after: Option<Cursor>): set<Archive> {
    if after.None? then dir else set a | a in dir && Newer(At(after.value), a)
  }

  /** The page that sorting everything would give. */
  ghost function PageOf(dir: set<Archive>, limit: nat, after: Option<Cursor>): Page
    requires Keyed(dir) && limit > 0
  {
    var all := Ranked(Eligible(dir, after));
    if |all| <= limit then Page(all, None)
    else Page(all[..limit], Some(Cursor(all[limit - 1].time, all[limit - 1].name)))
  }

  /** The times on a page never increase, and nothing left for a later page is younger than its last archive. */
  lemma PageTimes(dir: set<Archive>, limit: nat, after: Option<Cursor>)
    requires Keyed(dir) && limit > 0
    ensures var p := PageOf(dir, limit, after);
            && (forall i, j | 0 <= i < j < |p.items| :: p.items[i].time >= p.items[j].time)
            && (p.next.Some? ==>
                  && p.items != [] && p.next.value.time == p.items[|p.items| - 1].time
                  && p.next.value.name == p.items[|p.items| - 1].name
                  && forall a | a in Eligible(dir, after) && a !in p.items :: a.time <= p.next.value.time)
  {
    var p := PageOf(dir, limit, after);
    PageFacts(dir, limit, after);
    forall i, j | 0 <= i < j < |p.items| ensures p.items[i].time >= p.items[j].time {
      NewerExactly(p.items[i], p.items[j]);
    }
    if p.next.Some? {
      forall a | a in Eligible(dir, after) && a !in p.items ensures a.time <= p.next.value.time {
        assert a in Eligible(dir, p.next);
        NewerExactly(At(p.next.value), a);
      }
    }
  }

  /** Following the cursors, one directory state per request. */
  ghost function Walk(dirs: seq<set<Archive>>, limit: nat, after: Option<Cursor>): seq<Archive>
    requires limit > 0 && forall d | d in dirs :: Keyed(d)
    decreases |dirs|
  {
    if dirs == [] then []
    else
      var page := PageOf(dirs[0], limit, after);
      if page.next.None? then page.items else page.items + Walk(dirs[1..], limit, page.next)
  }

  /** The walk reached a page without a next cursor. */
  ghost predicate Finished(dirs: seq<set<Archive>>, limit: nat, after: Option<Cursor>)
    requires limit > 0 && forall d | d in dirs :: Keyed(d)
    decreases |dirs|
  {
    dirs != [] &&
    var page := PageOf(dirs[0], limit, after);
    page.next.None? || Finished(dirs[1..], limit, page.next)
  }

  /** What is cut off a descending list comes after its last place. */
  lemma CutOffIsOlder(all: seq<Archive>, limit: nat, a: Archive)
    requires Descending(all) && 0 < limit < |all| && a in all
    ensures a in all[..limit] || Newer(all[limit - 1], a)
  {
    var i :| 0 <= i < |all| && all[i] == a;
    if i < limit {
      assert all[..limit][i] == a;
    }
  }

  lemma KeptIsNewer(all: seq<Archive>, limit: nat, a: Archive, b: Archive)
    requires Descending(all) && 0 < limit < |all| && a in all[..limit] && Newer(all[limit - 1], b)
    ensures Newer(a, b)
  {
    var i :| 0 <= i < limit && all[i] == a;
    if i < limit - 1 {
      NewerTransitive(a, all[limit - 1], b);
    }
  }

  /** A place is as old as its last archive, whatever the size. */
  lemma SamePlace(c: Archive, b: Archive)
    ensures Newer(At(Cursor(c.time, c.name)), b) <==> Newer(c, b)
  {
  }

  lemma PageFacts(dir: set<Archive>, limit: nat, after: Option<Cursor>)
    requires Keyed(dir) && limit > 0
    ensures var p := PageOf(dir, limit, after);
            && Descending(p.items)
            && (forall a | a in p.items :: a in Eligible(dir, after))
            && (p.next.None? ==> forall a | a in Eligible(dir, after) :: a in p.items)
            && (p.next.Some? ==>
                  && |p.items| == limit
                  && (forall a | a in Eligible(dir, after) :: a in p.items || a in Eligible(dir, p.next))
                  && (forall a, b | a in p.items && Newer(At(p.next.value), b) :: Newer(a, b)))
  {
    var s := Eligible(dir, after);
    var all := Ranked(s);
    RankedDescends(s);
    if |all| > limit {
      var last := all[limit - 1];
      forall a | a in s ensures a in all[..limit] || a in Eligible(dir, Some(Cursor(last.time, last.name))) {
        CutOffIsOlder(all, limit, a);
        SamePlace(last, a);
      }
      forall a, b | a in all[..limit] && Newer(At(Cursor(last.time, last.name)), b) ensures Newer(a, b) {
        SamePlace(last, b);
        KeptIsNewer(all, limit, a, b);
      }
    }
  }

  /** Everything a walk lists is older than where it started. */
  lemma {:induction false} WalkIsOlder(dirs: seq<set<Archive>>, limit: nat, after: Option<Cursor>, a: Archive)
    requires limit > 0 && (forall d | d in dirs :: Keyed(d)) && a in Walk(dirs, limit, after)
    ensures after.Some? ==> Newer(At(after.value), a)
    ensures exists d :: d in dirs && a in d
    decreases |dirs|
  {
    var page := PageOf(dirs[0], limit, after);
    PageFacts(dirs[0], limit, after);
    if a in page.items {
      assert dirs[0] in dirs;
    } else {
      WalkIsOlder(dirs[1..], limit, page.next, a);
      var d :| d in dirs[1..] && a in d;
      assert d in dirs;
      if after.Some? {
        var last := page.items[limit - 1];
        assert last in page.items;
        assert Newer(last, a);
        NewerTransitive(At(after.value), last, a);
      }
    }
  }

  /** Everything in `a` comes before everything in `b`. */
  ghost predicate Precedes(a: seq<Archive>, b: seq<Archive>) {
    forall i, j | 0 <= i < |a| && 0 <= j < |b| :: Newer(a[i], b[j])
  }

  lemma ConcatDescends(a: seq<Archive>, b: seq<Archive>)
    requires Descending(a) && Descending(b) && Precedes(a, b)
    ensures Descending(a + b)
  {
  }

  /** Everything the rest of a walk lists comes after the page before it. */
  lemma RestIsOlder(dir: set<Archive>, dirs: seq<set<Archive>>, limit: nat, after: Option<Cursor>)
    requires limit > 0 && Keyed(dir) && (forall d | d in dirs :: Keyed(d)) && PageOf(dir, limit, after).next.Some?
    ensures Precedes(PageOf(dir, limit, after).items, Walk(dirs, limit, PageOf(dir, limit, after).next))
  {
    var page := PageOf(dir, limit, after);
    var rest := Walk(dirs, limit, page.next);
    PageFacts(dir, limit, after);
    forall i, j | 0 <= i < |page.items| && 0 <= j < |rest| ensures Newer(page.items[i], rest[j]) {
      WalkIsOlder(dirs, limit, page.next, rest[j]);
    }
  }

  lemma PageDescends(dir: set<Archive>, limit: nat, after: Option<Cursor>)
    requires Keyed(dir) && limit > 0
    ensures Descending(PageOf(dir, limit, after).items)
  {
    RankedDescends(Eligible(dir, after));
  }

  /** Pages never repeat an archive nor step back, whatever the directory does in between. */
  lemma {:induction false} WalkDescends(dirs: seq<set<Archive>>, limit: nat, after: Option<Cursor>)
    requires limit > 0 && forall d | d in dirs :: Keyed(d)
    ensures Descending(Walk(dirs, limit, after))
    decreases |dirs|
  {
    if dirs != [] {
      var page := PageOf(dirs[0], limit, after);
      PageDescends(dirs[0], limit, after);
      if page.next.Some? {
        WalkDescends(dirs[1..], limit, page.next);
        RestIsOlder(dirs[0], dirs[1..], limit, after);
        ConcatDescends(page.items, Walk(dirs[1..], limit, page.next));
      }
    }
  }

  lemma {:induction false} WalkFinds(dirs: seq<set<Archive>>, limit: nat, after: Option<Cursor>, a: Archive)
    requires limit > 0 && (forall d | d in dirs :: Keyed(d)) && Finished(dirs, limit, after)
    requires forall d | d in dirs :: a in d
    requires after.Some? ==> Newer(At(after.value), a)
    ensures a in Walk(dirs, limit, after)
    decreases |dirs|
  {
    var page := PageOf(dirs[0], limit, after);
    PageFacts(dirs[0], limit, after);
    assert dirs[0] in dirs;
    assert a in Eligible(dirs[0], after);
    if a !in page.items {
      WalkFinds(dirs[1..], limit, page.next, a);
    }
  }

  lemma DescendingOnce(walk: seq<Archive>, a: Archive)
    requires Descending(walk)
    ensures forall i, j | 0 <= i < j < |walk| :: walk[i] != a || walk[j] != a
  {
    NewerIrreflexive(a);
  }

  /**
   Following the cursors to the end visits every archive that is there all the
   time, exactly once, even if others are deleted or newer ones appear.
   */
  lemma WalkVisitsAll(dirs: seq<set<Archive>>, limit: nat, after: Option<Cursor>, a: Archive)
    requires limit > 0 && (forall d | d in dirs :: Keyed(d)) && Finished(dirs, limit, after)
    requires forall d | d in dirs :: a in d
    requires after.Some? ==> Newer(At(after.value), a)
    ensures exists i :: 0 <= i < |Walk(dirs, limit, after)| && Walk(dirs, limit, after)[i] == a
    ensures forall i, j | 0 <= i < j < |Walk(dirs, limit, after)| ::
              Walk(dirs, limit, after)[i] != a || Walk(dirs, limit, after)[j] != a
  {
    WalkFinds(dirs, limit, after, a);
    WalkDescends(dirs, limit, after);
    DescendingOnce(Walk(dirs, limit, after), a);
  }
}
