/** The schedule table and the pass that runs what is due. */
module Scheduler {
  import opened Schedule
  import opened Wrappers

  type ID = nat

  datatype Error = Invalid(why: Invalid) | NotFound | ArchiveBusy | Cancelled | StoreFailed

  type Rows = map<ID, Schedule>

  /** One attempt of a pass: the row it served, when it ended, and the table around its one write. */
  datatype Attempt = Attempt(id: ID, schedule: Schedule, at: Instant, status: Status, before: Rows, after: Rows)

  /** The table before and after an archive was made: what others did meanwhile. */
  datatype Wait = Wait(before: Rows, after: Rows)

  /** How the archive of one turn ends: made, failed, given up to another one, or to a stopping process. */
  datatype Verdict = Made | Broken | Contended | Stopped

  const LIMIT := 8

  /** `row` after an attempt that served it as `sc` and ended at `at`. */
  function Served(row: Schedule, sc: Schedule, at: Instant, status: Status): Schedule
    requires Valid(sc)
  {
    row.(lastRun := Some(at), lastStatus := status, next := Advanced(sc, at))
  }

  /** The update after an attempt: it misses a row that was edited, disabled or advanced meanwhile. */
  function AdvancedRows(rows: Rows, id: ID, sc: Schedule, at: Instant, status: Status): Rows
    requires Valid(sc)
  {
    if id in rows && rows[id].enabled && rows[id].next == sc.next && rows[id].updated == sc.updated then
      rows[id := Served(rows[id], sc, at, status)]
    else rows
  }

  /**
   The update of an attempt notes the run in the row it served, and nowhere else:
   a row disabled, edited or advanced in the meantime stays as it is.
   */
  lemma AdvancedRowsExactly(rows: Rows, id: ID, sc: Schedule, at: Instant, status: Status)
    requires Valid(sc)
    ensures AdvancedRows(rows, id, sc, at, status).Keys == rows.Keys
    ensures forall o | o in rows && o != id :: AdvancedRows(rows, id, sc, at, status)[o] == rows[o]
    ensures id in rows ==>
      var row, now := rows[id], AdvancedRows(rows, id, sc, at, status)[id];
      if !row.enabled || row.next != sc.next || row.updated != sc.updated then now == row
      else
        && now.lastRun == Some(at) && now.lastStatus == status && now.next == Advanced(sc, at)
        && now == row.(lastRun := now.lastRun, lastStatus := now.lastStatus, next := now.next)
  {
  }

  /** A finished attempt at `sc`, whose next run is later than its end. */
  ghost predicate Finished(a: Attempt, id: ID, sc: Schedule) {
    && a.id == id && a.schedule == sc && Valid(sc)
    && !a.status.Never? && Advanced(sc, a.at) > a.at
  }

  /** Its update was made. */
  ghost predicate Recorded(a: Attempt) {
    Valid(a.schedule) && a.after == AdvancedRows(a.before, a.id, a.schedule, a.at, a.status)
  }

  ghost predicate AllFinished(attempts: seq<Attempt>, due: seq<ID>, rows: Rows) {
    && |attempts| <= |due|
    && forall i | 0 <= i < |attempts| :: due[i] in rows && Finished(attempts[i], due[i], rows[due[i]])
  }

  ghost predicate AllRecorded(attempts: seq<Attempt>) {
    forall i | 0 <= i < |attempts| :: Recorded(attempts[i])
  }

  /** All changes of the table during a pass, from the end: others' while an archive is made, then the attempt's own. */
  ghost predicate IsPass(start: Rows, attempts: seq<Attempt>, waits: seq<Wait>, end: Rows)
    decreases |attempts| + |waits|
  {
    var n := |waits|;
    if |attempts| < n then
      |attempts| == n - 1 && end == waits[n - 1].after && IsPass(start, attempts, waits[..n - 1], waits[n - 1].before)
    else if n == 0 then
      attempts == [] && end == start
    else
      |attempts| == n && end == attempts[n - 1].after && IsPass(start, attempts[..n - 1], waits, attempts[n - 1].before)
  }

  /**
   How a pass over `due` ends: every schedule attempted, or a busy or cancelled
   archive after the attempts, or an update that failed at the last of them.
   Apart from a failed one, every attempt made its update, and nothing else is
   written by the pass.
   */
  ghost predicate IsOutcome(start: Rows, due: seq<ID>, selected: Rows, e: Option<Error>,
                            attempts: seq<Attempt>, waits: seq<Wait>, end: Rows)
  {
    && IsPass(start, attempts, waits, end) && AllFinished(attempts, due, selected)
    && match e
       case None => |attempts| == |due| && |waits| == |attempts| && AllRecorded(attempts)
       case Some(StoreFailed) =>
         var last := |attempts| - 1;
         && |attempts| == |waits| > 0 && AllRecorded(attempts[..last])
         && attempts[last].after == attempts[last].before
       case Some(error) =>
         && (error.ArchiveBusy? || error.Cancelled?)
         && |waits| == |attempts| + 1 <= |due| && AllRecorded(attempts)
  }

  /**
   A pass in which archive `i` ended as `verdicts[i]`: every schedule before the
   one that was given up is attempted, with the status of its archive.
   */
  ghost predicate Follows(e: Option<Error>, attempts: seq<Attempt>, verdicts: seq<Verdict>) {
    && |attempts| <= |verdicts|
    && (forall i | 0 <= i < |attempts| ::
          if verdicts[i].Made? then attempts[i].status.Succeeded?
          else verdicts[i].Broken? && attempts[i].status.Failed?)
    && (e == Some(ArchiveBusy) ==> |attempts| < |verdicts| && verdicts[|attempts|].Contended?)
    && (e == Some(Cancelled) ==> |attempts| < |verdicts| && verdicts[|attempts|].Stopped?)
  }

  predicate Due(sc: Schedule, now: Instant) {
    sc.enabled && sc.next <= now
  }

  /** The answer of the due query: the soonest due rows, at most eight. */
  ghost predicate IsDueList(rows: map<ID, Schedule>, now: Instant, ids: seq<ID>) {
    && |ids| <= LIMIT
    && (forall i | 0 <= i < |ids| :: ids[i] in rows && Due(rows[ids[i]], now))
    && (forall i, j | 0 <= i < j < |ids| :: ids[i] != ids[j] && rows[ids[i]].next <= rows[ids[j]].next)
    && (forall id | id in rows && Due(rows[id], now) && id !in ids ::
          |ids| == LIMIT && rows[ids[LIMIT - 1]].next <= rows[id].next)
  }

  /** nextWallClock: up to eight days from today, at the time of day. */
  method NextWallClock(from: Instant, weekday: int, tod: string) returns (r: Instant)
    requires ValidTime(tod)
    ensures r == Search(from, weekday, FirstCandidate(from, tod), 0)
  {
    var candidate := FirstCandidate(from, tod);
    for i := 0 to STEPS
      invariant Search(from, weekday, FirstCandidate(from, tod), 0) == Search(from, weekday, candidate, i)
    {
      if candidate > from && (weekday < 0 || Weekday(candidate) == weekday) {
        return candidate;
      }
      candidate := candidate + DAY;
    }
    r := from + DAY;
  }

  method ComputeNext(sc: Schedule, from: Instant) returns (r: Instant)
    requires Valid(sc)
    ensures r == NextRun(sc, from) && r > from
  {
    NextRunIsLater(sc, from);
    match sc.kind
    case Interval => r := from + sc.intervalHours * HOUR;
    case Daily => r := NextWallClock(from, -1, sc.timeOfDay);
    case Weekly => r := NextWallClock(from, sc.weekday, sc.timeOfDay);
  }

  class Schedules {
    var rows: map<ID, Schedule>
    var now: Instant
    // whether every statement on the database succeeds
    const reliable: bool

    ghost predicate Kept()
      reads this
    {
      forall id | id in rows :: Valid(rows[id])
    }

    constructor (start: Instant, reliable: bool)
      ensures Kept() && rows == map[] && this.reliable == reliable
    {
      rows, now := map[], start;
      this.reliable := reliable;
    }

    method Create(id: ID, sc: Schedule) returns (r: Result<Schedule, Error>)
      requires Kept() && id !in rows
      modifies this`rows
      ensures Kept()
      ensures r.Err? <==> !Valid(sc)
      ensures r.Ok? ==>
                && rows == old(rows)[id := r.value]
                && r.value == sc.(updated := now, lastRun := None, lastStatus := Never, next := NextRun(sc, now))
                && r.value.next > now
      ensures r.Err? ==> rows == old(rows)
    {
      if Validate(sc).Some? {
        return Err(Error.Invalid(Validate(sc).value));
      }
      var next := ComputeNext(sc, now);
      var row := sc.(updated := now, lastRun := None, lastStatus := Never, next := next);
      rows := rows[id := row];
      r := Ok(row);
    }

    method Update(id: ID, edit: Schedule) returns (r: Result<Schedule, Error>)
      requires Kept()
      modifies this`rows
      ensures Kept()
      ensures r.Err? <==> !Valid(edit) || id !in rows
      ensures r.Ok? ==>
                && id in old(rows) && rows == old(rows)[id := r.value]
                && r.value == edit.(updated := now, lastRun := old(rows)[id].lastRun,
                                    lastStatus := old(rows)[id].lastStatus, next := NextRun(edit, now))
                && r.value.next > now
      ensures r.Err? ==> rows == old(rows)
    {
      if Validate(edit).Some? {
        return Err(Error.Invalid(Validate(edit).value));
      }
      if id !in rows {
        return Err(NotFound);
      }
      var next := ComputeNext(edit, now);
      var row := edit.(updated := now, lastRun := rows[id].lastRun, lastStatus := rows[id].lastStatus, next := next);
      rows := rows[id := row];
      r := Ok(row);
    }

    /** Any edits of the table and any passing of time while an archive is made. */
    method Meanwhile()
      requires Kept()
      modifies this
      ensures Kept() && now >= old(now)
    {
    }

    /** The due row with the least next run outside `taken`. */
    method Soonest(taken: seq<ID>) returns (r: Option<ID>)
      ensures match r
              case None => forall id | id in rows && Due(rows[id], now) :: id in taken
              case Some(id) =>
                && id in rows && Due(rows[id], now) && id !in taken
                && forall o | o in rows && Due(rows[o], now) && o !in taken :: rows[id].next <= rows[o].next
    {
      r := None;
      var rest := rows.Keys;
      while rest != {}
        invariant rest <= rows.Keys
        invariant r.None? ==> forall id | id in rows && id !in rest && Due(rows[id], now) :: id in taken
        invariant r.Some? ==>
                    && r.value in rows && Due(rows[r.value], now) && r.value !in taken
                    && forall o | o in rows && o !in rest && Due(rows[o], now) && o !in taken ::
                         rows[r.value].next <= rows[o].next
        decreases |rest|
      {
        var id :| id in rest;
        if Due(rows[id], now) && id !in taken && (r.None? || rows[id].next < rows[r.value].next) {
          r := Some(id);
        }
        rest := rest - {id};
      }
    }

    /** The due query. */
    method SelectDue() returns (ids: seq<ID>)
      ensures IsDueList(rows, now, ids)
    {
      ids := [];
      while |ids| < LIMIT
        invariant |ids| <= LIMIT
        invariant forall i | 0 <= i < |ids| :: ids[i] in rows && Due(rows[ids[i]], now)
        invariant forall i, j | 0 <= i < j < |ids| :: ids[i] != ids[j] && rows[ids[i]].next <= rows[ids[j]].next
        invariant forall id, i | id in rows && Due(rows[id], now) && id !in ids && 0 <= i < |ids| ::
                    rows[ids[i]].next <= rows[id].next
        decreases LIMIT - |ids|
      {
        var s := Soonest(ids);
        if s.None? {
          return;
        }
        ids := ids + [s.value];
      }
    }

    /** Advance one attempted schedule, unless it was edited, disabled or advanced meanwhile. */
    method Advance(id: ID, sc: Schedule, status: Status) returns (stored: bool)
      requires Kept() && Valid(sc)
      modifies this`rows
      ensures Kept() && Advanced(sc, now) > now
      ensures rows == if stored then AdvancedRows(old(rows), id, sc, now, status) else old(rows)
      ensures reliable ==> stored
    {
      var next := ComputeNext(sc, sc.next);
      if !(next > now) {
        next := ComputeNext(sc, now);
      }
      stored := *;
      if reliable {
        stored := true;
      }
      if stored && id in rows && rows[id].enabled && rows[id].next == sc.next && rows[id].updated == sc.updated {
        rows := rows[id := rows[id].(lastRun := Some(now), lastStatus := status, next := next)];
      }
    }

    /** One turn of the pass: the archive, and unless that was given up the update. */
    method Serve(id: ID, sc: Schedule, verdict: Verdict) returns (e: Option<Error>, ghost w: Wait, ghost a: Option<Attempt>)
      requires Kept() && Valid(sc)
      modifies this
      ensures Kept() && w.before == old(rows) && now >= old(now)
      ensures a.Some? ==> a.value.at == now
      ensures a.None? ==> e == Some(if verdict.Stopped? then Cancelled else ArchiveBusy) && rows == w.after
      ensures a.None? <==> verdict.Stopped? || verdict.Contended?
      ensures a.Some? ==> a.value.status == if verdict.Made? then Succeeded else Failed
      ensures a.Some? ==> Finished(a.value, id, sc) && a.value.before == w.after && a.value.after == rows
      ensures a.Some? ==> if e.None? then Recorded(a.value) else e == Some(StoreFailed) && rows == w.after && !reliable
    {
      ghost var earlier := rows;
      Meanwhile();
      w, a := Wait(earlier, rows), None;
      if verdict.Stopped? {
        return Some(Cancelled), w, a;
      }
      if verdict.Contended? {
        return Some(ArchiveBusy), w, a;
      }
      var status := if verdict.Broken? then Failed else Succeeded;
      var stored := Advance(id, sc, status);
      a := Some(Attempt(id, sc, now, status, w.after, rows));
      e := if stored then None else Some(StoreFailed);
    }

    /** One turn, as the next step of a pass under way or its end. */
    method Turn(id: ID, sc: Schedule, verdict: Verdict, ghost start: Rows, ghost due: seq<ID>, ghost selected: Rows,
                ghost verdicts: seq<Verdict>, ghost attempts: seq<Attempt>, ghost waits: seq<Wait>)
      returns (e: Option<Error>, ghost attempts': seq<Attempt>, ghost waits': seq<Wait>)
      requires Kept() && Valid(sc) && |attempts| < |due| <= |verdicts| && verdicts[|attempts|] == verdict
      requires due[|attempts|] == id && id in selected && selected[id] == sc
      requires UnderWay(start, due, selected, attempts, waits, rows) && Follows(None, attempts, verdicts)
      modifies this
      ensures Kept() && old(now) <= now && Follows(e, attempts', verdicts)
      ensures if e.None? then UnderWay(start, due, selected, attempts', waits', rows)
              else IsOutcome(start, due, selected, e, attempts', waits', rows)
      ensures attempts' == attempts || (|attempts'| == |attempts| + 1 && attempts' == attempts + [attempts'[|attempts|]]
                                        && attempts'[|attempts|].at == now)
      ensures attempts' == attempts <==> e.Some? && !e.value.StoreFailed?
      ensures reliable ==> e != Some(StoreFailed)
    {
      ghost var w, a;
      e, w, a := Serve(id, sc, verdict);
      VerdictTurn(attempts, verdicts, e, a);
      waits' := waits + [w];
      attempts' := if a.Some? then attempts + [a.value] else attempts;
      if a.None? {
        TurnStopped(start, due, selected, attempts, waits, w, e.value);
      } else if e.None? {
        TurnStored(start, due, selected, attempts, waits, w, a.value, rows);
      } else {
        TurnFailed(start, due, selected, attempts, waits, w, a.value, rows);
      }
    }

    /** The loop of a pass over the rows it selected. */
    method ServeAll(due: seq<ID>, selected: Rows, verdicts: seq<Verdict>)
      returns (ran: nat, e: Option<Error>, ghost attempts: seq<Attempt>, ghost waits: seq<Wait>)
      requires Kept() && forall i | 0 <= i < |due| :: due[i] in selected && Valid(selected[due[i]])
      requires |due| <= |verdicts|
      modifies this
      ensures Kept() && ran == |attempts| && Follows(e, attempts, verdicts)
      ensures IsOutcome(old(rows), due, selected, e, attempts, waits, rows)
      ensures forall a | a in attempts :: old(now) <= a.at <= now
      ensures reliable ==> e != Some(StoreFailed)
    {
      attempts, waits := [], [];
      ran, e := 0, None;
      for i := 0 to |due|
        invariant Kept() && e.None? && ran == i == |attempts| && Follows(None, attempts, verdicts)
        invariant UnderWay(old(rows), due, selected, attempts, waits, rows)
        invariant old(now) <= now && forall a | a in attempts :: old(now) <= a.at <= now
      {
        e, attempts, waits := Turn(due[i], selected[due[i]], verdicts[i], old(rows), due, selected, verdicts, attempts, waits);
        if e.None? || e.value.StoreFailed? {
          ran := ran + 1;
        }
        if e.Some? {
          return;
        }
      }
    }

    /**
     RunDue: each schedule selected as due is attempted at most once, and every
     finished attempt makes one update, to a next run after the moment it ended.
     A busy or cancelled archive ends the pass: nothing is written after it, so
     its schedule is not advanced.  So does a failed update.  Archive `i` of the pass
     ends as `verdicts[i]`.
     */
    method RunDue(verdicts: seq<Verdict>) returns (ran: nat, e: Option<Error>,
                             ghost due: seq<ID>, ghost attempts: seq<Attempt>, ghost waits: seq<Wait>)
      requires Kept() && |verdicts| == LIMIT
      modifies this
      ensures Kept() && ran == |attempts| && Follows(e, attempts, verdicts)
      ensures IsDueList(old(rows), old(now), due)
      ensures IsOutcome(old(rows), due, old(rows), e, attempts, waits, rows)
      ensures forall a | a in attempts :: old(now) <= a.at <= now
      ensures reliable ==> e != Some(StoreFailed)
    {
      var ids := SelectDue();
      due := ids;
      var selected := rows;
      ran, e, attempts, waits := ServeAll(ids, selected, verdicts);
    }
  }

  /** A pass between two turns. */
  ghost predicate UnderWay(start: Rows, due: seq<ID>, selected: Rows, attempts: seq<Attempt>, waits: seq<Wait>, end: Rows) {
    && |waits| == |attempts| && IsPass(start, attempts, waits, end)
    && AllFinished(attempts, due, selected) && AllRecorded(attempts)
  }

  lemma PassGrows(start: Rows, attempts: seq<Attempt>, waits: seq<Wait>, w: Wait, a: Option<Attempt>, end: Rows)
    requires |waits| == |attempts| && IsPass(start, attempts, waits, w.before)
    requires a.None? ==> end == w.after
    requires a.Some? ==> a.value.before == w.after && end == a.value.after
    ensures IsPass(start, if a.Some? then attempts + [a.value] else attempts, waits + [w], end)
  {
    assert (waits + [w])[..|waits|] == waits;
    assert IsPass(start, attempts, waits + [w], w.after);
    if a.Some? {
      assert (attempts + [a.value])[..|attempts|] == attempts;
    }
  }

  /** A turn that ended as its archive did. */
  lemma VerdictTurn(attempts: seq<Attempt>, verdicts: seq<Verdict>, e: Option<Error>, a: Option<Attempt>)
    requires Follows(None, attempts, verdicts) && |attempts| < |verdicts|
    requires var v := verdicts[|attempts|];
             if a.None? then (v.Stopped? && e == Some(Cancelled)) || (v.Contended? && e == Some(ArchiveBusy))
             else
               && (e.None? || e == Some(StoreFailed))
               && if v.Made? then a.value.status.Succeeded? else v.Broken? && a.value.status.Failed?
    ensures Follows(e, if a.Some? then attempts + [a.value] else attempts, verdicts)
  {
  }

  /** An attempt whose update was stored keeps the pass under way. */
  lemma TurnStored(start: Rows, due: seq<ID>, selected: Rows, attempts: seq<Attempt>, waits: seq<Wait>,
                   w: Wait, a: Attempt, end: Rows)
    requires |attempts| < |due| && UnderWay(start, due, selected, attempts, waits, w.before)
    requires due[|attempts|] in selected && Finished(a, due[|attempts|], selected[due[|attempts|]])
    requires a.before == w.after && a.after == end && Recorded(a)
    ensures UnderWay(start, due, selected, attempts + [a], waits + [w], end)
  {
    PassGrows(start, attempts, waits, w, Some(a), end);
  }

  /** One whose update failed ends it. */
  lemma TurnFailed(start: Rows, due: seq<ID>, selected: Rows, attempts: seq<Attempt>, waits: seq<Wait>,
                   w: Wait, a: Attempt, end: Rows)
    requires |attempts| < |due| && UnderWay(start, due, selected, attempts, waits, w.before)
    requires due[|attempts|] in selected && Finished(a, due[|attempts|], selected[due[|attempts|]])
    requires a.before == w.after && a.after == end && end == w.after
    ensures IsOutcome(start, due, selected, Some(StoreFailed), attempts + [a], waits + [w], end)
  {
    PassGrows(start, attempts, waits, w, Some(a), end);
    assert (attempts + [a])[..|attempts|] == attempts;
  }

  /** And so does a busy or cancelled archive. */
  lemma TurnStopped(start: Rows, due: seq<ID>, selected: Rows, attempts: seq<Attempt>, waits: seq<Wait>,
                    w: Wait, e: Error)
    requires |attempts| < |due| && UnderWay(start, due, selected, attempts, waits, w.before)
    requires e.ArchiveBusy? || e.Cancelled?
    ensures IsOutcome(start, due, selected, Some(e), attempts, waits + [w], w.after)
  {
    PassGrows(start, attempts, waits, w, None, w.after);
  }

  // ---- over many passes ---------------------------------------------------------------------

  /**
   One attempt at a schedule: when a pass found it due, when the attempt ended,
   how, and whether its update was stored.  It is not when the update fails, or
   when the process dies before it.
   */
  datatype Serving = Serving(started: Instant, ended: Instant, status: Status, stored: bool)

  /** What an attempt at `row` leaves. */
  function AfterServing(row: Schedule, s: Serving): Schedule
    requires Valid(row)
  {
    if s.stored then Served(row, row, s.ended, s.status) else row
  }

  /** The life of a schedule nobody edits: each row is what the attempt at the row before it left. */
  ghost predicate IsLife(rows: seq<Schedule>, runs: seq<Serving>) {
    && |rows| == |runs| + 1
    && (forall i | 0 <= i < |rows| :: Valid(rows[i]))
    && (forall i | 0 <= i < |runs| ::
          && Due(rows[i], runs[i].started) && runs[i].started <= runs[i].ended
          && rows[i + 1] == AfterServing(rows[i], runs[i]))
    && (forall i | 0 < i < |runs| :: runs[i - 1].ended <= runs[i].started)
  }

  /** The attempts whose update was not stored. */
  function Unstored(runs: seq<Serving>): nat {
    if runs == [] then 0
    else Unstored(runs[..|runs| - 1]) + if runs[|runs| - 1].stored then 0 else 1
  }

  lemma {:induction false} AllStored(runs: seq<Serving>)
    requires forall i | 0 <= i < |runs| :: runs[i].stored
    ensures Unstored(runs) == 0
  {
    if runs != [] {
      AllStored(runs[..|runs| - 1]);
    }
  }

  /**
   An attempt of a pass at a row nobody has edited continues the life of its
   schedule: with a stored update, or with the row as it was.
   */
  lemma AttemptContinuesLife(rows: seq<Schedule>, runs: seq<Serving>, a: Attempt, started: Instant)
    requires IsLife(rows, runs) && Finished(a, a.id, rows[|runs|])
    requires a.id in a.before && a.before[a.id] == rows[|runs|]
    requires Due(rows[|runs|], started) && started <= a.at && (runs != [] ==> runs[|runs| - 1].ended <= started)
    ensures a.id in AdvancedRows(a.before, a.id, a.schedule, a.at, a.status)
    ensures Recorded(a) ==> IsLife(rows + [a.after[a.id]], runs + [Serving(started, a.at, a.status, true)])
    ensures a.after == a.before ==> IsLife(rows + [a.after[a.id]], runs + [Serving(started, a.at, a.status, false)])
  {
    var row := rows[|runs|];
    if Recorded(a) {
      assert a.after[a.id] == Served(row, row, a.at, a.status);
      LifeGrows(rows, runs, Serving(started, a.at, a.status, true));
    }
    LifeGrows(rows, runs, Serving(started, a.at, a.status, false));
  }

  lemma LifeGrows(rows: seq<Schedule>, runs: seq<Serving>, s: Serving)
    requires IsLife(rows, runs) && Due(rows[|runs|], s.started) && s.started <= s.ended
    requires runs != [] ==> runs[|runs| - 1].ended <= s.started
    ensures IsLife(rows + [AfterServing(rows[|runs|], s)], runs + [s])
  {
  }

  lemma LifePrefix(rows: seq<Schedule>, runs: seq<Serving>)
    requires IsLife(rows, runs) && runs != []
    ensures IsLife(rows[..|runs|], runs[..|runs| - 1])
  {
  }

  /** Attempts change only when a schedule runs, never at which instants it fires. */
  lemma {:induction false} TermsStay(rows: seq<Schedule>, runs: seq<Serving>, i: nat)
    requires IsLife(rows, runs) && i <= |runs|
    ensures rows[i] == rows[0].(lastRun := rows[i].lastRun, lastStatus := rows[i].lastStatus, next := rows[i].next)
  {
    if i > 0 {
      TermsStay(rows, runs, i - 1);
      assert rows[i - 1 + 1] == AfterServing(rows[i - 1], runs[i - 1]);
    }
  }

  /**
   However large the backlog, it is one run once an update is stored, and only
   then: such an attempt leaves the schedule not due, and of a wall-clock schedule
   it leaves a firing instant of its own, after its end and not after the next
   attempt starts.  Any other attempt leaves the schedule due as it was.
   */
  lemma OneRunPerBacklog(rows: seq<Schedule>, runs: seq<Serving>, i: nat)
    requires IsLife(rows, runs) && i < |runs|
    ensures Due(rows[i + 1], runs[i].ended) <==> !runs[i].stored
    ensures runs[i].stored ==> runs[i].ended < rows[i + 1].next
    ensures i + 1 < |runs| ==> rows[i + 1].next <= runs[i + 1].started
    ensures runs[i].stored && !rows[0].kind.Interval? ==> Fires(rows[0], rows[i + 1].next)
  {
    AdvancedIsLater(rows[i], runs[i].ended);
    assert rows[i + 1] == AfterServing(rows[i], runs[i]);
    assert i + 1 < |runs| ==> Due(rows[i + 1], runs[i + 1].started);
    TermsStay(rows, runs, i);
    if !rows[0].kind.Interval? {
      BacklogCoalesces(rows[i], runs[i].ended);
      FallbackUnreachable(rows[i], runs[i].ended);
    }
  }

  /** The slot an attempt serves fires after the schedule was created. */
  lemma {:induction false} ServedSlot(rows: seq<Schedule>, runs: seq<Serving>, i: nat, created: Instant)
    requires IsLife(rows, runs) && i < |runs| && !rows[0].kind.Interval?
    requires rows[0].next == NextRun(rows[0], created)
    ensures Fires(rows[0], rows[i].next) && created < rows[i].next <= runs[i].started
    decreases i
  {
    assert Due(rows[i], runs[i].started);
    if i == 0 {
      FallbackUnreachable(rows[0], created);
    } else {
      OneRunPerBacklog(rows, runs, i - 1);
      ServedSlot(rows, runs, i - 1, created);
      assert rows[i - 1 + 1] == AfterServing(rows[i - 1], runs[i - 1]);
    }
  }

  /** Each stored attempt uses up a slot before the next run. */
  lemma {:induction false} SlotsUsedUp(rows: seq<Schedule>, runs: seq<Serving>, created: Instant, slots: set<Instant>)
    requires IsLife(rows, runs) && !rows[0].kind.Interval? && rows[0].next == NextRun(rows[0], created)
    requires forall t | created < t < rows[|runs|].next && Fires(rows[0], t) :: t in slots
    ensures |runs| <= |slots| + Unstored(runs)
    decreases |runs|
  {
    if runs != [] {
      var n := |runs| - 1;
      ServedSlot(rows, runs, n, created);
      OneRunPerBacklog(rows, runs, n);
      LifePrefix(rows, runs);
      SlotsUsedUp(rows[..n + 1], runs[..n], created, if runs[n].stored then slots - {rows[n].next} else slots);
    }
  }

  /**
   Over any number of passes a wall-clock schedule that nobody edits is attempted
   at most as often as it fired, plus once for every attempt whose update was not
   stored: `slots` holds the firing instants from its creation to the start of the
   last attempt.
   */
  lemma {:induction false} AttemptsNeverOutnumberSlots(rows: seq<Schedule>, runs: seq<Serving>, created: Instant, slots: set<Instant>)
    requires IsLife(rows, runs) && !rows[0].kind.Interval? && rows[0].next == NextRun(rows[0], created)
    requires runs != [] ==>
               forall t | created < t <= runs[|runs| - 1].started && Fires(rows[0], t) :: t in slots
    ensures |runs| <= |slots| + Unstored(runs)
    ensures (forall i | 0 <= i < |runs| :: runs[i].stored) ==> |runs| <= |slots|
  {
    if runs != [] {
      var n := |runs| - 1;
      ServedSlot(rows, runs, n, created);
      LifePrefix(rows, runs);
      SlotsUsedUp(rows[..n + 1], runs[..n], created, if runs[n].stored then slots - {rows[n].next} else slots);
    }
    if forall i | 0 <= i < |runs| :: runs[i].stored {
      AllStored(runs);
    }
  }

  /** Two attempts at the only slot there was: the update after the first one was not stored. */
  lemma TwoAttemptsAtOneSlot(sc: Schedule, created: Instant) returns (rows: seq<Schedule>, runs: seq<Serving>)
    requires Valid(sc) && sc.enabled && !sc.kind.Interval? && sc.next == NextRun(sc, created)
    ensures IsLife(rows, runs) && rows[0] == sc && |runs| == 2 && Unstored(runs) == 1
    ensures forall t | created < t <= runs[1].started && Fires(sc, t) :: t == sc.next
  {
    var first, second := Serving(sc.next, sc.next, Succeeded, false), Serving(sc.next, sc.next, Succeeded, true);
    LifeGrows([sc], [], first);
    assert [sc] + [sc] == [sc, sc] && [] + [first] == [first];
    LifeGrows([sc, sc], [first], second);
    rows, runs := [sc, sc] + [AfterServing(sc, second)], [first] + [second];
    assert [first][..0] == [] && Unstored([]) == 0;
    assert Unstored([first]) == 1;
    assert runs[..1] == [first];
    forall t | created < t <= sc.next && Fires(sc, t) ensures t == sc.next {
      NextRunIsLeast(sc, created, t);
    }
  }
}
