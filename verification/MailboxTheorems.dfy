/** What every run of the mailbox keeps. */
module MailboxTheorems {
  import opened Wrappers
  import opened MailboxProtocol

  predicate Terminal(s: Option<Status>, id: ID) {
    s.Some? && s.value.id == id && !s.value.state.Running?
  }

  /** The ID was never claimed and is not given up as interrupted. */
  predicate Unspent(w: World, id: ID) {
    id < w.next && id !in w.claimed && id !in w.lost
  }

  /** A request that only its sender knows. */
  predicate Private(w: World, r: Request) {
    && Unspent(w, r.id)
    && (w.request.Some? ==> w.request.value.id != r.id)
    && (w.running.Some? ==> w.running.value.id != r.id)
    && r.id !in w.ran
  }

  ghost predicate SendersKept(w: World) {
    && (forall p | p in w.senders :: Private(w, w.senders[p]) && w.senders[p].created <= w.now)
    && (forall p, q | p in w.senders && q in w.senders && p != q :: w.senders[p].id != w.senders[q].id)
  }

  ghost predicate FilesKept(w: World) {
    && (w.request.Some? ==> Unspent(w, w.request.value.id) && w.request.value.created <= w.now)
    && (w.running.Some? ==> w.running.value.id < w.next && w.running.value.id in w.ran)
    && (w.request.Some? && w.running.Some? && w.request.value.id == w.running.value.id ==> w.request == w.running)
    && (w.request.Some? && w.request.value.id in w.ran && w.request != w.running ==> w.request.value.id in w.ended)
  }

  ghost predicate RunnerKept(w: World) {
    match w.runner
    case Off => true
    case Started => true
    case Found(r) => w.running == Some(r)
    case Reported(r) =>
      && w.running == Some(r) && Terminal(w.status, r.id) && r.id in w.ended
      && (w.request == Some(r) || r.id in w.lost)
    case Checked => w.running.None?
    case Holding(r) => w.running.None? && w.request == Some(r)
    case Linked(r) => w.running == Some(r) && w.request == Some(r)
    case Moved(r) => w.running == Some(r) && NotPending(w, r) && Unspent(w, r.id)
    case Executing(r) => w.running == Some(r) && NotPending(w, r)
    case Ended(r) => w.running == Some(r) && NotPending(w, r) && Terminal(w.status, r.id) && r.id in w.ended
  }

  predicate NotPending(w: World, r: Request) {
    w.request.Some? ==> w.request.value.id != r.id
  }

  predicate NoRepeats(s: seq<ID>) {
    forall i, j | 0 <= i < j < |s| :: s[i] != s[j]
  }

  /** Who reached running.json is still there, or has a terminal status. */
  ghost predicate HistoryKept(w: World) {
    && NoRepeats(w.claimed)
    && (forall id | id in w.claimed :: id < w.next)
    && (forall id | id in w.ran :: id < w.next)
    && (forall id | id in w.lost :: id in w.ended)
    && (forall id | id in w.ended :: id in w.ran)
    && (forall id | id in w.ran :: id in w.ended || (w.running.Some? && w.running.value.id == id))
  }

  ghost predicate Inv(w: World) {
    SendersKept(w) && FilesKept(w) && RunnerKept(w) && HistoryKept(w)
  }

  lemma InitialInv(w: World)
    requires Initial(w)
    ensures Inv(w)
  {
  }

  lemma SenderStepKeeps(w: World, a: Action)
    requires Inv(w) && Enabled(w, a) && (a.SendCheck? || a.SendLink? || a.SendDie? || a.Tick?)
    ensures Inv(Do(w, a))
  {
  }

  lemma RecoveryStepKeeps(w: World, a: Action)
    requires Inv(w) && Enabled(w, a)
    requires a.Start? || a.LookRunning? || a.ReportInterrupted? || a.DropInterrupted? || a.Stop?
    ensures Inv(Do(w, a))
  {
  }

  lemma ClaimStepKeeps(w: World, a: Action)
    requires Inv(w) && Enabled(w, a)
    requires a.ReadPending? || a.LinkRunning? || a.RemovePending? || a.RecordRunning?
    ensures Inv(Do(w, a))
  {
  }

  lemma FinishStepKeeps(w: World, a: Action)
    requires Inv(w) && Enabled(w, a)
    requires a.Progress? || a.RecordEnd? || a.DropRunning?
    ensures Inv(Do(w, a))
  {
  }

  lemma StepKeeps(w: World, a: Action)
    requires Inv(w) && Enabled(w, a)
    ensures Inv(Do(w, a))
  {
    match a
    case Tick => SenderStepKeeps(w, a);
    case SendCheck(_, _) => SenderStepKeeps(w, a);
    case SendLink(_) => SenderStepKeeps(w, a);
    case SendDie(_) => SenderStepKeeps(w, a);
    case Start => RecoveryStepKeeps(w, a);
    case LookRunning => RecoveryStepKeeps(w, a);
    case ReportInterrupted => RecoveryStepKeeps(w, a);
    case DropInterrupted => RecoveryStepKeeps(w, a);
    case Stop => RecoveryStepKeeps(w, a);
    case ReadPending => ClaimStepKeeps(w, a);
    case LinkRunning => ClaimStepKeeps(w, a);
    case RemovePending => ClaimStepKeeps(w, a);
    case RecordRunning => ClaimStepKeeps(w, a);
    case Progress(_, _, _) => FinishStepKeeps(w, a);
    case RecordEnd(_) => FinishStepKeeps(w, a);
    case DropRunning => FinishStepKeeps(w, a);
  }

  lemma {:induction false} TraceKeeps(worlds: seq<World>, log: seq<Action>, i: nat)
    requires IsTrace(worlds, log) && Inv(worlds[0]) && i <= |log|
    ensures Inv(worlds[i])
    decreases i
  {
    if i > 0 {
      TraceKeeps(worlds, log, i - 1);
      assert log[i - 1] == log[i - 1];
      StepKeeps(worlds[i - 1], log[i - 1]);
    }
  }

  lemma RunKeeps(worlds: seq<World>, log: seq<Action>, i: nat)
    requires IsRun(worlds, log) && i <= |log|
    ensures Inv(worlds[i])
  {
    InitialInv(worlds[0]);
    TraceKeeps(worlds, log, i);
  }

  // ---- theorems ------------------------------------------------------------------------

  /** Over any run, Claim returns each request at most once. */
  lemma ClaimedAtMostOnce(worlds: seq<World>, log: seq<Action>, i: nat)
    requires IsRun(worlds, log) && i <= |log|
    ensures NoRepeats(worlds[i].claimed)
  {
    RunKeeps(worlds, log, i);
  }

  /** While a request executes, running.json holds exactly it and request.json does not. */
  lemma OneRunsAtATime(worlds: seq<World>, log: seq<Action>, i: nat)
    requires IsRun(worlds, log) && i <= |log| && worlds[i].runner.Executing?
    ensures worlds[i].running == Some(worlds[i].runner.r)
    ensures worlds[i].request != Some(worlds[i].runner.r)
  {
    RunKeeps(worlds, log, i);
  }

  lemma {:induction false} HistoryGrows(worlds: seq<World>, log: seq<Action>, i: nat, j: nat)
    requires IsTrace(worlds, log) && i <= j <= |log|
    ensures worlds[i].claimed <= worlds[j].claimed && worlds[i].lost <= worlds[j].lost
    decreases j
  {
    if i < j {
      HistoryGrows(worlds, log, i, j - 1);
      assert log[j - 1] == log[j - 1];
    }
  }

  /**
   A request found interrupted after its request.json was gone is not claimed
   again, whatever follows.
   */
  lemma {:induction false} InterruptedIsNotRetried(worlds: seq<World>, log: seq<Action>, i: nat, j: nat, id: ID)
    requires IsTrace(worlds, log) && Inv(worlds[0]) && i <= j <= |log| && id in worlds[i].lost
    ensures worlds[i].claimed <= worlds[j].claimed && id !in worlds[j].claimed[|worlds[i].claimed|..]
    decreases j
  {
    HistoryGrows(worlds, log, i, j);
    if i < j {
      InterruptedIsNotRetried(worlds, log, i, j - 1, id);
      HistoryGrows(worlds, log, i, j - 1);
      TraceKeeps(worlds, log, j - 1);
      assert log[j - 1] == log[j - 1];
    }
  }

  /** running.json goes only after a terminal status of its request was recorded. */
  lemma EndedBeforeRemoved(worlds: seq<World>, log: seq<Action>, i: nat)
    requires IsRun(worlds, log) && i < |log|
    requires worlds[i].running.Some? && worlds[i + 1].running != worlds[i].running
    ensures worlds[i + 1].running.None?
    ensures Terminal(worlds[i].status, worlds[i].running.value.id) && worlds[i + 1].status == worlds[i].status
  {
    RunKeeps(worlds, log, i);
    assert log[i] == log[i];
  }

  /** Every request that ever reached running.json is still there or was reported ended. */
  lemma NothingRunsUnreported(worlds: seq<World>, log: seq<Action>, i: nat, id: ID)
    requires IsRun(worlds, log) && i <= |log| && id in worlds[i].ran
    ensures id in worlds[i].ended || (worlds[i].running.Some? && worlds[i].running.value.id == id)
  {
    RunKeeps(worlds, log, i);
  }
}
