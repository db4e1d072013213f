/**
 Where the mailbox does not do what its states suggest: for each case a run
 from the empty mailbox that shows it, and when exactly it can happen.
 */
module MailboxEdges {
  import opened Wrappers
  import opened MailboxProtocol
  import opened MailboxTheorems

  // ---- building runs ---------------------------------------------------------------------

  lemma Extend(worlds: seq<World>, log: seq<Action>, a: Action) returns (worlds': seq<World>, log': seq<Action>)
    requires IsTrace(worlds, log) && Enabled(worlds[|log|], a)
    ensures IsTrace(worlds', log') && worlds'[0] == worlds[0] && worlds'[|log'|] == Do(worlds[|log|], a)
    ensures worlds <= worlds' && log' == log + [a]
  {
    TraceSnoc(worlds, log, a);
    worlds', log' := worlds + [Do(worlds[|log|], a)], log + [a];
  }

  /** Time passes. */
  lemma {:induction false} Wait(worlds: seq<World>, log: seq<Action>, n: nat) returns (worlds': seq<World>, log': seq<Action>)
    requires IsTrace(worlds, log)
    ensures IsTrace(worlds', log') && worlds'[0] == worlds[0]
    ensures worlds'[|log'|] == worlds[|log|].(now := worlds[|log|].now + n)
    decreases n
  {
    worlds', log' := worlds, log;
    if n > 0 {
      worlds', log' := Wait(worlds, log, n - 1);
      worlds', log' := Extend(worlds', log', Tick);
    }
  }

  const EMPTY := World(None, None, None, 0, map[], Off, 0, [], {}, {}, {})

  /** One request in an otherwise empty mailbox. */
  lemma Enqueued(input: nat) returns (worlds: seq<World>, log: seq<Action>)
    ensures IsRun(worlds, log)
    ensures worlds[|log|] == EMPTY.(request := Some(Request(0, 0, input)), next := 1)
  {
    worlds, log := Extend([EMPTY], [], SendCheck(0, input));
    worlds, log := Extend(worlds, log, SendLink(0));
    assert worlds[|log|].senders == map[];
  }

  /** A new runner takes over, whatever the last one was doing. */
  lemma TakeOver(worlds: seq<World>, log: seq<Action>) returns (worlds': seq<World>, log': seq<Action>)
    requires IsTrace(worlds, log)
    ensures IsTrace(worlds', log') && worlds'[0] == worlds[0]
    ensures worlds'[|log'|] ==
              var w := worlds[|log|]; w.(runner := if w.running.None? then Checked else Found(w.running.value))
  {
    worlds', log' := worlds, log;
    if !worlds[|log|].runner.Off? {
      worlds', log' := Extend(worlds', log', Stop);
    }
    worlds', log' := Extend(worlds', log', Start);
    worlds', log' := Extend(worlds', log', LookRunning);
  }

  /** The rest of a claim, from wherever it is. */
  lemma FinishClaim(worlds: seq<World>, log: seq<Action>, r: Request) returns (worlds': seq<World>, log': seq<Action>)
    requires IsTrace(worlds, log) && Inv(worlds[|log|])
    requires worlds[|log|].runner == Holding(r) || worlds[|log|].runner == Linked(r)
    ensures IsTrace(worlds', log') && worlds'[0] == worlds[0]
    ensures worlds'[|log'|].claimed == worlds[|log|].claimed + [r.id] && worlds'[|log'|].runner == Executing(r)
  {
    worlds', log' := worlds, log;
    if worlds[|log|].runner.Holding? {
      worlds', log' := Extend(worlds', log', LinkRunning);
    }
    worlds', log' := Extend(worlds', log', RemovePending);
    worlds', log' := Extend(worlds', log', RecordRunning);
  }

  // ---- a request reported as interrupted, and run after all -----------------------------------

  /** From the empty mailbox to a request reported as interrupted that request.json still holds. */
  lemma ReachInterrupted(input: nat) returns (worlds: seq<World>, log: seq<Action>)
    ensures IsRun(worlds, log)
    ensures var w := worlds[|log|];
            var r := Request(0, 0, input);
            && w.runner == Reported(r) && w.request == Some(r) && Fresh(r, w.now) && w.claimed == []
            && w.status == Some(Status(0, Failed, Recovery, Interrupted))
  {
    worlds, log := Enqueued(input);
    worlds, log := TakeOver(worlds, log);
    worlds, log := Extend(worlds, log, ReadPending);
    worlds, log := Extend(worlds, log, LinkRunning);
    worlds, log := TakeOver(worlds, log);
    worlds, log := Extend(worlds, log, ReportInterrupted);
  }

  /**
   A run in which the first request is reported as interrupted and executes
   afterwards: the runner died between linking running.json and removing
   request.json.
   */
  lemma ReportedInterruptedYetRun(input: nat) returns (worlds: seq<World>, log: seq<Action>, k: nat)
    ensures IsRun(worlds, log) && k < |log|
    ensures worlds[k].status == Some(Status(0, Failed, Recovery, Interrupted)) && worlds[k].claimed == []
    ensures worlds[|log|].claimed == [0] && worlds[|log|].runner == Executing(Request(0, 0, input))
  {
    worlds, log := ReachInterrupted(input);
    k := |log|;
    var before := worlds;
    worlds, log := Extend(worlds, log, DropInterrupted);
    worlds, log := Extend(worlds, log, ReadPending);
    worlds, log := Extend(worlds, log, LinkRunning);
    worlds, log := Extend(worlds, log, RemovePending);
    worlds, log := Extend(worlds, log, RecordRunning);
    assert before[k] == worlds[k];
  }

  /** Some continuation claims the ID (once more). */
  ghost predicate CanBeClaimed(w: World, id: ID) {
    exists worlds: seq<World>, log: seq<Action> :: IsTrace(worlds, log) && Claims(w, worlds, log, id)
  }

  ghost predicate Claims(w: World, worlds: seq<World>, log: seq<Action>, id: ID)
    requires IsTrace(worlds, log)
  {
    && worlds[0] == w && w.claimed <= worlds[|log|].claimed
    && id in worlds[|log|].claimed[|w.claimed|..]
  }

  /** The runner has read the request already and will not look at its age again. */
  predicate BeingClaimed(w: World, r: Request) {
    w.runner == Holding(r) || w.runner == Linked(r)
  }

  /**
   A pending request can still run exactly when it is no more than an hour old or
   its claim is under way.  So a request older than that blocks the mailbox: it
   stays, unclaimed, in every continuation.
   */
  lemma ClaimableExactly(w: World, r: Request)
    requires Inv(w) && w.request == Some(r)
    ensures CanBeClaimed(w, r.id) <==> Fresh(r, w.now) || BeingClaimed(w, r)
  {
    if Fresh(r, w.now) || BeingClaimed(w, r) {
      var worlds, log := ClaimPending(w, r);
      assert Claims(w, worlds, log, r.id);
    } else if CanBeClaimed(w, r.id) {
      var worlds, log :| IsTrace(worlds, log) && Claims(w, worlds, log, r.id);
      StuckStays(worlds, log, |log|, r);
    }
  }

  lemma ClaimPending(w: World, r: Request) returns (worlds: seq<World>, log: seq<Action>)
    requires Inv(w) && w.request == Some(r) && (Fresh(r, w.now) || BeingClaimed(w, r))
    ensures IsTrace(worlds, log) && worlds[0] == w
    ensures worlds[|log|].claimed == w.claimed + [r.id] && worlds[|log|].runner == Executing(r)
  {
    worlds, log := [w], [];
    if !BeingClaimed(w, r) {
      worlds, log := TakeOver(worlds, log);
      if w.running.Some? {
        worlds, log := Extend(worlds, log, ReportInterrupted);
        worlds, log := Extend(worlds, log, DropInterrupted);
      }
      worlds, log := Extend(worlds, log, ReadPending);
    }
    TraceKeeps(worlds, log, |log|);
    worlds, log := FinishClaim(worlds, log, r);
  }

  /** Pending, too old, and nobody about to claim it. */
  predicate Stuck(w: World, r: Request) {
    w.request == Some(r) && w.now - r.created > HOUR && !BeingClaimed(w, r)
  }

  lemma StuckStep(w: World, a: Action, r: Request)
    requires Inv(w) && Enabled(w, a) && Stuck(w, r)
    ensures Stuck(Do(w, a), r)
  {
  }

  lemma {:induction false} StuckStays(worlds: seq<World>, log: seq<Action>, j: nat, r: Request)
    requires IsTrace(worlds, log) && Inv(worlds[0]) && Stuck(worlds[0], r) && j <= |log|
    ensures Stuck(worlds[j], r) && r.id !in worlds[j].claimed
    decreases j
  {
    TraceKeeps(worlds, log, j);
    if j > 0 {
      StuckStays(worlds, log, j - 1, r);
      TraceKeeps(worlds, log, j - 1);
      assert log[j - 1] == log[j - 1];
      StuckStep(worlds[j - 1], log[j - 1], r);
    }
  }

  /** An interrupted request runs after all exactly when request.json still holds it and it is fresh. */
  lemma InterruptedRunsExactly(w: World, r: Request)
    requires Inv(w) && w.runner == Reported(r)
    ensures CanBeClaimed(w, r.id) <==> w.request == Some(r) && Fresh(r, w.now)
  {
    if w.request == Some(r) {
      ClaimableExactly(w, r);
    } else if CanBeClaimed(w, r.id) {
      var worlds, log :| IsTrace(worlds, log) && Claims(w, worlds, log, r.id);
      InterruptedIsNotRetried(worlds, log, 0, |log|, r.id);
    }
  }

  // ---- a success that reads as an interruption ---------------------------------------------------

  /** From the empty mailbox to a recorded success. */
  lemma ReachSuccess(input: nat) returns (worlds: seq<World>, log: seq<Action>)
    ensures IsRun(worlds, log)
    ensures worlds[|log|].runner == Ended(Request(0, 0, input))
    ensures worlds[|log|].status == Some(Status(0, Succeeded, Verified, NoFailure))
  {
    worlds, log := Enqueued(input);
    worlds, log := TakeOver(worlds, log);
    worlds, log := Extend(worlds, log, ReadPending);
    RunKeeps(worlds, log, |log|);
    worlds, log := FinishClaim(worlds, log, Request(0, 0, input));
    worlds, log := Extend(worlds, log, RecordEnd(true));
  }

  /** A run in which a request succeeds and is then reported as failed and interrupted. */
  lemma SuccessReportedInterrupted(input: nat) returns (worlds: seq<World>, log: seq<Action>, k: nat)
    ensures IsRun(worlds, log) && k < |log|
    ensures worlds[k].status == Some(Status(0, Succeeded, Verified, NoFailure))
    ensures worlds[|log|].status == Some(Status(0, Failed, Recovery, Interrupted))
  {
    worlds, log := ReachSuccess(input);
    RunKeeps(worlds, log, |log|);
    k := |log|;
    var before := worlds;
    worlds, log := Extend(worlds, log, Stop);
    worlds, log := Extend(worlds, log, Start);
    worlds, log := Extend(worlds, log, LookRunning);
    worlds, log := Extend(worlds, log, ReportInterrupted);
    assert before[k] == worlds[k];
  }

  /** Some continuation reports the ID as interrupted. */
  ghost predicate CanBeReported(w: World, id: ID) {
    exists worlds: seq<World>, log: seq<Action>, k: nat :: IsTrace(worlds, log) && Reports(w, worlds, log, k, id)
  }

  ghost predicate Reports(w: World, worlds: seq<World>, log: seq<Action>, k: nat, id: ID)
    requires IsTrace(worlds, log)
  {
    worlds[0] == w && k < |log| && log[k].ReportInterrupted? && worlds[k].runner.Found? && worlds[k].runner.r.id == id
  }

  /** Ended, and neither file holds the request any more. */
  predicate Settled(w: World, id: ID) {
    && id in w.ended
    && (w.request.Some? ==> w.request.value.id != id)
    && (w.running.Some? ==> w.running.value.id != id)
  }

  lemma SettledStep(w: World, a: Action, id: ID)
    requires Inv(w) && Enabled(w, a) && Settled(w, id)
    ensures Settled(Do(w, a), id)
    ensures Do(w, a).status != w.status ==> Do(w, a).status.Some? && Do(w, a).status.value.id != id
  {
  }

  /** What is settled stays settled, and its status is never rewritten. */
  lemma {:induction false} SettledStays(worlds: seq<World>, log: seq<Action>, j: nat, id: ID)
    requires IsTrace(worlds, log) && Inv(worlds[0]) && Settled(worlds[0], id) && j <= |log|
    ensures Settled(worlds[j], id)
    ensures worlds[j].status.Some? && worlds[j].status.value.id == id ==> worlds[j].status == worlds[0].status
    decreases j
  {
    if j > 0 {
      SettledStays(worlds, log, j - 1, id);
      TraceKeeps(worlds, log, j - 1);
      assert log[j - 1] == log[j - 1];
      SettledStep(worlds[j - 1], log[j - 1], id);
    }
  }

  /**
   An ended request that is not pending can be reported as interrupted (again)
   exactly while running.json holds it: that is, exactly when a runner stopped
   between recording the outcome and removing running.json.
   */
  lemma OutcomeChangesExactly(w: World, id: ID)
    requires Inv(w) && id in w.ended && (w.request.Some? ==> w.request.value.id != id)
    ensures CanBeReported(w, id) <==> w.running.Some? && w.running.value.id == id
  {
    if w.running.Some? && w.running.value.id == id {
      var worlds, log := TakeOver([w], []);
      var k := |log|;
      worlds, log := Extend(worlds, log, ReportInterrupted);
      assert Reports(w, worlds, log, k, id);
    } else if CanBeReported(w, id) {
      var worlds, log, k: nat :| IsTrace(worlds, log) && Reports(w, worlds, log, k, id);
      SettledStays(worlds, log, k, id);
      TraceKeeps(worlds, log, k);
    }
  }

  // ---- a request that blocks the mailbox ------------------------------------------------------------

  predicate Blocked(w: World, r: Request) {
    && w.request == Some(r) && w.now - r.created > HOUR
    && (w.runner.Off? || w.runner.Started? || w.runner.Found? || w.runner.Reported? || w.runner.Checked?)
  }

  /** From the empty mailbox to a blocked one: nobody ran for more than an hour. */
  lemma ReachBlocked(input: nat) returns (worlds: seq<World>, log: seq<Action>)
    ensures IsRun(worlds, log) && Blocked(worlds[|log|], Request(0, 0, input))
  {
    worlds, log := Enqueued(input);
    worlds, log := Wait(worlds, log, HOUR + 1);
  }

  /** Nothing is claimed or enqueued after a blocked request, whatever follows. */
  lemma {:induction false} StaleRequestBlocks(worlds: seq<World>, log: seq<Action>, i: nat, j: nat, r: Request)
    requires IsTrace(worlds, log) && i <= j <= |log| && Blocked(worlds[i], r)
    ensures Blocked(worlds[j], r) && worlds[j].claimed == worlds[i].claimed
    decreases j
  {
    if i < j {
      StaleRequestBlocks(worlds, log, i, j - 1, r);
      assert log[j - 1] == log[j - 1];
    }
  }
}
