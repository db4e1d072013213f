/** The paged archive listing: one scan of the directory with a bounded heap. */
module ArchiveListing {
  import opened Wrappers
  import opened Archives
  import opened ArchiveHeap

  /** A directory entry; a file that vanished meanwhile has no stat. */
  datatype Entry = Entry(name: string, regular: bool, stat: Option<(int, nat)>)

  /** What opening and reading the archive directory gives. */
  datatype Directory =
    | Missing
    | Unreadable
    | Listing(entries: seq<Entry>, broken: bool)

  /** The cursor text of a request: its length, and what decoding it gives. */
  datatype CursorText = NoCursor | Text(length: nat, decoded: Option<Cursor>)

  datatype Failure = BadCursor | ReadFailed

  const BATCH := 64
  const MAX_CURSOR := 512
  const MAX_NAME := 80
  /** Go's zero instant, which no cursor may carry. */
  const ZERO_TIME := 0

  predicate HasDoubleDot(s: string) {
    exists i | 0 < i < |s| :: s[i] == '.' && s[i - 1] == '.'
  }

  predicate ValidArchiveName(name: string) {
    && |name| >= 4 && name[|name| - 4..] == ".wgg"
    && '/' !in name && '\\' !in name
    && !HasDoubleDot(name)
    && |name| <= MAX_NAME
    && "wg-guard-" <= name
  }

  function PageSize(limit: int): (r: nat)
    ensures r in {25, 50, 100}
    ensures if limit in {25, 50, 100} then r == limit else r == 25
  {
    if limit != 25 && limit != 50 && limit != 100 then 25 else limit
  }

  predicate Accepted(c: CursorText) {
    c.Text? ==>
      && c.length <= MAX_CURSOR
      && c.decoded.Some?
      && c.decoded.value.time != ZERO_TIME
      && ValidArchiveName(c.decoded.value.name)
  }

  function Start(c: CursorText): (after: Option<Cursor>)
    ensures c.NoCursor? ==> after.None?
    ensures c.Text? ==> after == c.decoded
  {
    if c.Text? then c.decoded else None
  }

  /** A name the backup service gives, and some it never does. */
  lemma KnownNames()
    ensures ValidArchiveName("wg-guard-1.wgg")
    ensures !ValidArchiveName("wg-guard-1.tar") && !ValidArchiveName("other-1.wgg")
    ensures !ValidArchiveName("wg-guard-/1.wgg") && !ValidArchiveName("wg-guard-..wgg")
  {
    var s := "wg-guard-1.wgg";
    assert s[..9] == "wg-guard-";
    assert "wg-guard-..wgg"[9] == '.' && "wg-guard-..wgg"[10] == '.';
    assert '/' in "wg-guard-/1.wgg" by {
      assert "wg-guard-/1.wgg"[9] == '/';
    }
    assert "other-1.wgg"[0] != 'w';
  }

  // ---- what a directory holds ----------------------------------------------------------

  predicate IsArchive(e: Entry) {
    ValidArchiveName(e.name) && e.regular && e.stat.Some?
  }

  function AsArchive(e: Entry): Archive
    requires IsArchive(e)
  {
    Archive(e.name, e.stat.value.0, e.stat.value.1)
  }

  ghost function Files(entries: seq<Entry>): set<Archive> {
    set i | 0 <= i < |entries| && IsArchive(entries[i]) :: AsArchive(entries[i])
  }

  /** The listed archives: the regular files with an archive name that could be read. */
  lemma FilesExactly(entries: seq<Entry>, a: Archive)
    ensures a in Files(entries) <==>
              exists i :: 0 <= i < |entries| && entries[i] == Entry(a.name, true, Some((a.time, a.size)))
                          && ValidArchiveName(a.name)
  {
    if a in Files(entries) {
      var i :| 0 <= i < |entries| && IsArchive(entries[i]) && AsArchive(entries[i]) == a;
      assert entries[i] == Entry(a.name, true, Some((a.time, a.size)));
    }
    if i :| 0 <= i < |entries| && entries[i] == Entry(a.name, true, Some((a.time, a.size))) && ValidArchiveName(a.name) {
      assert IsArchive(entries[i]) && AsArchive(entries[i]) == a;
    }
  }

  /** A directory names each of its entries once. */
  ghost predicate NamesDistinct(entries: seq<Entry>) {
    forall i, j | 0 <= i < j < |entries| :: entries[i].name != entries[j].name
  }

  lemma FilesKeyed(entries: seq<Entry>)
    requires NamesDistinct(entries)
    ensures Keyed(Files(entries))
  {
  }

  /** What one more entry adds to the archives a page may hold. */
  lemma EntryStep(entries: seq<Entry>, n: nat, after: Option<Cursor>)
    requires n < |entries| && NamesDistinct(entries)
    ensures var e := entries[n];
            var before := Eligible(Files(entries[..n]), after);
            var now := Eligible(Files(entries[..n + 1]), after);
            if IsArchive(e) && (after.Some? ==> Newer(At(after.value), AsArchive(e)))
            then AsArchive(e) !in before && now == before + {AsArchive(e)}
            else now == before
  {
    var e := entries[n];
    var some := entries[..n];
    var more := entries[..n + 1];
    forall a ensures a in Files(more) <==> a in Files(some) || (IsArchive(e) && a == AsArchive(e)) {
      if a in Files(some) {
        var i :| 0 <= i < n && IsArchive(some[i]) && a == AsArchive(some[i]);
        assert more[i] == some[i];
      }
      if a in Files(more) {
        var i :| 0 <= i <= n && IsArchive(more[i]) && a == AsArchive(more[i]);
        assert i < n ==> some[i] == more[i];
      }
      if IsArchive(e) && a == AsArchive(e) {
        assert more[n] == e;
      }
    }
    forall i | 0 <= i < n ensures some[i].name != e.name {
      assert some[i] == entries[i];
    }
  }

  // ---- the scan ------------------------------------------------------------------------

  /** The heap holds the newest `keep` of everything eligible so far. */
  ghost predicate Holds(items: seq<Archive>, top: set<Archive>, seen: set<Archive>, keep: nat) {
    && Ordered(items, |items|)
    && multiset(items) == multiset(top)
    && IsTop(top, seen, keep)
  }

  /** After the first `n` entries. */
  ghost predicate HoldsUpTo(items: seq<Archive>, top: set<Archive>, entries: seq<Entry>, n: nat, after: Option<Cursor>, keep: nat)
    requires n <= |entries|
  {
    Holds(items, top, Eligible(Files(entries[..n]), after), keep)
  }

  lemma HeapSize(items: seq<Archive>, top: set<Archive>)
    requires multiset(items) == multiset(top)
    ensures |items| == |top|
  {
    assert |multiset(items)| == |items|;
    assert |multiset(top)| == |top|;
  }

  /** One candidate: pushed, and the oldest evicted when there are too many. */
  method Offer(heap: Candidates, v: Archive, keep: nat, ghost top: set<Archive>, ghost seen: set<Archive>)
    returns (ghost top': set<Archive>)
    requires Holds(heap.items, top, seen, keep) && Keyed(seen + {v}) && v !in seen
    modifies heap
    ensures Holds(heap.items, top', seen + {v}, keep)
  {
    HeapSize(heap.items, top);
    heap.Push(v);
    top' := top + {v};
    assert multiset(heap.items) == multiset(top');
    if |heap.items| > keep {
      var o := heap.Pop();
      Evicted(heap.items, o, top', seen + {v});
      top' := top' - {o};
    }
    TopStep(top, seen, keep, v, top');
  }

  lemma Evicted(items: seq<Archive>, o: Archive, all: set<Archive>, s: set<Archive>)
    requires multiset(all) == multiset(items) + multiset{o} && all <= s && Keyed(s)
    requires forall a | a in items :: !Newer(o, a)
    ensures o in all && multiset(items) == multiset(all - {o})
    ensures forall a | a in all - {o} :: Newer(a, o)
  {
    assert o in multiset(all);
    assert multiset(all - {o}) == multiset(all) - multiset{o};
    forall a | a in all - {o} ensures Newer(a, o) {
      assert multiset(all)[a] == 1;
      assert a in multiset(items);
      NewerTotal(a, o);
    }
  }

  /** One entry of a batch: skipped, or offered to the heap. */
  method Consider(heap: Candidates, ghost entries: seq<Entry>, ghost pos: nat, e: Entry, keep: nat,
                  after: Option<Cursor>, ghost top: set<Archive>)
    returns (ghost top': set<Archive>)
    requires NamesDistinct(entries) && pos < |entries| && entries[pos] == e
    requires HoldsUpTo(heap.items, top, entries, pos, after, keep)
    modifies heap
    ensures HoldsUpTo(heap.items, top', entries, pos + 1, after, keep)
  {
    EntryStep(entries, pos, after);
    top' := top;
    if !IsArchive(e) {
      return;
    }
    var item := AsArchive(e);
    if after.Some? && !Newer(At(after.value), item) {
      return;
    }
    FilesKeyed(entries[..pos + 1]);
    top' := Offer(heap, item, keep, top, Eligible(Files(entries[..pos]), after));
  }

  /** One ReadDir batch. */
  method ReadBatch(heap: Candidates, entries: seq<Entry>, start: nat, end: nat, keep: nat,
                   after: Option<Cursor>, ghost top: set<Archive>)
    returns (ghost top': set<Archive>)
    requires NamesDistinct(entries) && start <= end <= |entries|
    requires HoldsUpTo(heap.items, top, entries, start, after, keep)
    modifies heap
    ensures HoldsUpTo(heap.items, top', entries, end, after, keep)
  {
    top' := top;
    var pos := start;
    while pos < end
      invariant start <= pos <= end
      invariant HoldsUpTo(heap.items, top', entries, pos, after, keep)
    {
      top' := Consider(heap, entries, pos, entries[pos], keep, after, top');
      pos := pos + 1;
    }
  }

  /** The read loop over the whole directory. */
  method Scan(entries: seq<Entry>, keep: nat, after: Option<Cursor>)
    returns (items: seq<Archive>, ghost top: set<Archive>)
    requires NamesDistinct(entries)
    ensures multiset(items) == multiset(top)
    ensures IsTop(top, Eligible(Files(entries), after), keep)
  {
    var heap := new Candidates();
    top := {};
    var pos := 0;
    assert Eligible(Files(entries[..0]), after) == {};
    while pos < |entries|
      invariant 0 <= pos <= |entries|
      invariant fresh(heap)
      invariant HoldsUpTo(heap.items, top, entries, pos, after, keep)
    {
      var end := if pos + BATCH < |entries| then pos + BATCH else |entries|;
      top := ReadBatch(heap, entries, pos, end, keep, after, top);
      pos := end;
    }
    assert entries[..pos] == entries;
    items := heap.items;
  }

  function CutTo(items: seq<Archive>, size: nat): Page
    requires size > 0
  {
    if |items| <= size then Page(items, None)
    else Page(items[..size], Some(Cursor(items[size - 1].time, items[size - 1].name)))
  }

  /** A page of everything is the page of any longer prefix of it. */
  lemma CutOfPrefix(all: seq<Archive>, items: seq<Archive>, size: nat)
    requires size > 0 && items == all[..Min(size + 1, |all|)]
    ensures CutTo(items, size) == CutTo(all, size)
  {
    if |all| > size {
      assert items[..size] == all[..size];
    }
  }

  lemma CutOfTop(top: set<Archive>, dir: set<Archive>, size: nat, after: Option<Cursor>)
    requires size > 0 && Keyed(dir) && IsTop(top, Eligible(dir, after), size + 1)
    ensures Keyed(top) && CutTo(Ranked(top), size) == PageOf(dir, size, after)
  {
    var s := Eligible(dir, after);
    TopIsPrefix(top, s, size + 1);
    CutOfPrefix(Ranked(s), Ranked(top), size);
  }

  /** What ListPage answers for an accepted cursor. */
  ghost predicate Answers(dir: Directory, limit: int, cursor: CursorText, r: Result<Page, Failure>)
    requires dir.Listing? ==> Keyed(Files(dir.entries))
  {
    match dir
    case Missing => r == Ok(Page([], None))
    case Unreadable => r == Err(ReadFailed)
    case Listing(entries, broken) =>
      r == if broken then Err(ReadFailed) else Ok(PageOf(Files(entries), PageSize(limit), Start(cursor)))
  }

  /**
   ListPage: the page that sorting the whole directory would give, from one
   pass that keeps limit+1 candidates.
   */
  method ListPage(dir: Directory, limit: int, cursor: CursorText) returns (r: Result<Page, Failure>)
    requires dir.Listing? ==> NamesDistinct(dir.entries)
    ensures r == Err(BadCursor) <==> !Accepted(cursor)
    ensures dir.Listing? ==> Keyed(Files(dir.entries))
    ensures Accepted(cursor) ==> Answers(dir, limit, cursor, r)
  {
    var size := PageSize(limit);
    if dir.Listing? {
      FilesKeyed(dir.entries);
    }
    if !Accepted(cursor) {
      return Err(BadCursor);
    }
    if dir.Missing? {
      return Ok(Page([], None));
    }
    if dir.Unreadable? {
      return Err(ReadFailed);
    }
    var items, top := Scan(dir.entries, size + 1, Start(cursor));
    if dir.broken {
      return Err(ReadFailed);
    }
    CutOfTop(top, Files(dir.entries), size, Start(cursor));
    items := SortNewestFirst(items, top);
    r := Ok(CutTo(items, size));
  }

  /** A cursor that a page hands out is taken back, unless its text is too long or its time is zero. */
  lemma NextCursorAccepted(entries: seq<Entry>, limit: int, after: Option<Cursor>, length: nat)
    requires NamesDistinct(entries) && Keyed(Files(entries))
    ensures var next := PageOf(Files(entries), PageSize(limit), after).next;
            next.Some? ==>
              (Accepted(Text(length, next)) <==> length <= MAX_CURSOR && next.value.time != ZERO_TIME)
  {
    var s := Eligible(Files(entries), after);
    var n := PageSize(limit);
    if |s| > n {
      assert Ranked(s)[n - 1] in s;
    }
  }
}
