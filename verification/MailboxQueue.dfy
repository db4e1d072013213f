/**
 The mailbox code: file operations on request.json, running.json and
 status.json, with senders of other processes free to act in between.  Each
 operation is a step of the protocol.
 */
module MailboxQueue {
  import opened Wrappers
  import opened MailboxProtocol
  import opened MailboxTheorems

  datatype QueueError = Unavailable | Busy | InvalidInput | IOFailed | OperationError

  /** The status of request `id` once a runner is through with it. */
  predicate Concluded(s: Option<Status>, id: ID, authorized: bool, works: bool) {
    && s.Some? && s.value.id == id
    && if authorized && works then s.value == Status(id, Succeeded, Verified, NoFailure)
       else if authorized then s.value.state.Failed? && s.value.failure.OperationFailed?
       else s.value == Status(id, Failed, Validating, Revoked)
  }

  class Mailbox {
    // the three files, the clock and the next unused request ID
    var request: Option<Request>
    var running: Option<Request>
    var status: Option<Status>
    var now: int
    var next: ID
    // how many more file operations of the caller fail, at most
    var faults: nat
    // the protocol run so far
    ghost var worlds: seq<World>
    ghost var log: seq<Action>
    ghost var at: World

    ghost predicate Traced()
      reads this`worlds, this`log, this`at
    {
      IsRun(worlds, log) && at == worlds[|log|]
    }

    ghost predicate Valid()
      reads this
    {
      Traced() && at.request == request && at.running == running && at.status == status
      && at.now == now && at.next == next
    }

    ghost predicate Extends(w: seq<World>, l: seq<Action>)
      reads this`worlds, this`log
    {
      w <= worlds && l <= log
    }

    constructor (faults: nat)
      ensures Valid() && at.runner.Off? && at.claimed == [] && this.faults == faults
    {
      request, running, status, now, next := None, None, None, 0, 0;
      this.faults := faults;
      var empty := World(None, None, None, 0, map[], Off, 0, [], {}, {}, {});
      at := empty;
      worlds := [empty];
      log := [];
    }

    ghost method Note(a: Action)
      requires Traced() && Enabled(at, a)
      modifies this`worlds, this`log, this`at
      ensures Traced() && Extends(old(worlds), old(log)) && at == Do(old(at), a)
    {
      TraceSnoc(worlds, log, a);
      at := Do(at, a);
      worlds := worlds + [at];
      log := log + [a];
    }

    /** A file operation fails at will, as long as there are faults left. */
    method FileCall() returns (ok: bool)
      modifies this`faults
      ensures Spent(old(faults), ok)
    {
      ok := *;
      if faults == 0 {
        ok := true;
      }
      if !ok {
        faults := faults - 1;
      }
    }

    /** Success met no fault, and an error exactly one. */
    ghost predicate Spent(before: nat, ok: bool)
      reads this`faults
    {
      before == faults + if ok then 0 else 1
    }

    lemma Invariant()
      requires Traced()
      ensures Inv(at)
    {
      RunKeeps(worlds, log, |log|);
    }

    /**
     Any number of steps of senders and of the clock while the runner is between
     two operations.  A request that is there stays: links never replace.
     */
    method Senders()
      requires Valid()
      modifies this
      ensures Valid() && Extends(old(worlds), old(log))
      ensures at.runner == old(at.runner) && at.claimed == old(at.claimed)
      ensures running == old(running) && status == old(status)
      ensures old(request).Some? ==> request == old(request)
      ensures faults == old(faults)
    {
    }

    /** Any number of steps of the runner and of other senders, while sender `p` is between two operations. */
    method Others(p: Pid)
      requires Valid()
      modifies this
      ensures Valid() && Extends(old(worlds), old(log))
      ensures p in at.senders <==> p in old(at.senders)
      ensures p in at.senders ==> at.senders[p] == old(at.senders[p])
      ensures faults == old(faults)
    {
    }

    // ---- senders -------------------------------------------------------------------------

    /** writeJSON without replacing: the file may fail to be written, and the link meets what is there. */
    method LinkRequest(p: Pid, mine: Request) returns (r: Result<Request, QueueError>)
      requires Valid() && p in at.senders && at.senders[p] == mine
      modifies this`request, this`worlds, this`log, this`at, this`faults
      ensures Valid() && Extends(old(worlds), old(log)) && Spent(old(faults), r != Err(IOFailed))
      ensures at == Do(old(at), if r == Err(IOFailed) then SendDie(p) else SendLink(p))
      ensures r == Err(IOFailed) || r == if old(request).Some? then Err(Busy) else Ok(mine)
      ensures request == if r.Ok? then Some(mine) else old(request)
    {
      var ok := FileCall();
      if !ok {
        Note(SendDie(p));
        return Err(IOFailed);
      }
      var busy := request.Some?;
      if !busy {
        request := Some(mine);
      }
      Note(SendLink(p));
      r := if busy then Err(Busy) else Ok(mine);
    }

    /**
     Enqueue: refuse while something runs, then link request.json unless one is
     pending.  `met` is the mailbox as the link met it, some time after the call.
     */
    method Enqueue(p: Pid, ready: bool, valid: bool, input: nat) returns (r: Result<Request, QueueError>, ghost met: World)
      requires Valid() && p !in at.senders
      modifies this
      ensures Valid() && Extends(old(worlds), old(log)) && p !in at.senders && met in worlds[|old(log)|..]
      ensures !ready ==> r == Err(Unavailable)
      ensures ready && !valid ==> r == Err(InvalidInput)
      ensures ready && valid && old(running).Some? ==> r == Err(Busy)
      ensures !ready || !valid || old(running).Some? ==> met == at == old(at)
      ensures ready && valid && old(running).None? ==>
                && p in met.senders && at == Do(met, if r == Err(IOFailed) then SendDie(p) else SendLink(p))
                && (r == Err(IOFailed) ||
                    r == if met.request.Some? then Err(Busy) else Ok(Request(old(next), old(now), input)))
      ensures request == if r.Ok? then Some(r.value) else met.request
      ensures Spent(old(faults), r != Err(IOFailed))
    {
      met := at;
      assert at == worlds[|old(log)|..][0];
      if !ready {
        return Err(Unavailable), met;
      }
      if !valid {
        return Err(InvalidInput), met;
      }
      if running.Some? {
        return Err(Busy), met;
      }
      var mine := Request(next, now, input);
      Note(SendCheck(p, input));
      next := next + 1;
      Others(p);
      met := at;
      ghost var i := |log| - |old(log)|;
      assert met == worlds[|old(log)|..][i];
      r := LinkRequest(p, mine);
      assert met == worlds[|old(log)|..][i];
    }

    // ---- the host runner -------------------------------------------------------------------

    /** Record: the status file is replaced whole. */
    method WriteStatus(s: Status)
      modifies this`status
      ensures status == Some(s)
    {
      status := Some(s);
    }

    /** Reports what an earlier runner left as interrupted, before anything else. */
    method ReportLeft(r: Request) returns (ok: bool)
      requires Valid() && at.runner == Found(r)
      modifies this
      ensures Valid() && Extends(old(worlds), old(log)) && at.claimed == old(at.claimed)
      ensures ok ==> at.runner == Reported(r) && status == Some(Status(r.id, Failed, Recovery, Interrupted))
      ensures !at.runner.Off? && Spent(old(faults), ok)
    {
      Senders();
      ok := FileCall();
      if ok {
        WriteStatus(Status(r.id, Failed, Recovery, Interrupted));
        Note(ReportInterrupted);
      }
    }

    /** Then forgets it. */
    method DropLeft() returns (ok: bool)
      requires Valid() && at.runner.Reported?
      modifies this
      ensures Valid() && Extends(old(worlds), old(log)) && at.claimed == old(at.claimed)
      ensures status == old(status) && !at.runner.Off?
      ensures ok ==> at.runner.Checked? && running.None?
      ensures Spent(old(faults), ok)
    {
      Senders();
      ok := FileCall();
      if ok {
        running := None;
        Note(DropInterrupted);
      }
    }

    /** RecoverInterrupted: report what an earlier runner left behind, then forget it. */
    method RecoverInterrupted() returns (e: Option<QueueError>)
      requires Valid() && at.runner.Started?
      modifies this
      ensures Valid() && Extends(old(worlds), old(log)) && at.claimed == old(at.claimed)
      ensures e.None? ==> at.runner.Checked? && running.None?
      ensures e.None? && old(running).Some? ==>
                status == Some(Status(old(running).value.id, Failed, Recovery, Interrupted))
      ensures e.Some? ==> !at.runner.Off? && e == Some(IOFailed)
      ensures Spent(old(faults), e.None?)
    {
      Note(LookRunning);
      if running.None? {
        return None;
      }
      var ok := ReportLeft(running.value);
      if ok {
        ok := DropLeft();
      }
      e := if ok then None else Some(IOFailed);
    }

    /**
     Claim: link running.json, remove request.json, record.  It refuses while one
     runs, without a request and a stale one; an error leaves the files for the next
     runner.
     */
    method Claim() returns (r: Result<Request, QueueError>)
      requires Valid() && at.runner.Checked?
      modifies this
      ensures Valid() && Extends(old(worlds), old(log)) && !at.runner.Off?
      ensures r.Ok? ==>
                && at.runner == Executing(r.value) && running == Some(r.value)
                && at.claimed == old(at.claimed) + [r.value.id] && r.value.id !in old(at.claimed)
                && status == Some(Status(r.value.id, Running, Requested, NoFailure))
      ensures r.Err? ==> at.claimed == old(at.claimed)
      ensures old(running).Some? ==> r == Err(Busy) && faults == old(faults)
      ensures old(running).None? && !Claimable(old(request), old(now)) ==> r == Err(InvalidInput) && faults == old(faults)
      ensures old(running).None? && Claimable(old(request), old(now)) ==>
                (r == Ok(old(request).value) || r == Err(IOFailed)) && Spent(old(faults), r.Ok?)
    {
      if running.Some? {
        return Err(Busy);
      }
      if request.None? {
        return Err(InvalidInput);
      }
      var pending := request.value;
      if now - pending.created > HOUR || pending.created - now > MINUTE {
        return Err(InvalidInput);
      }
      Note(ReadPending);
      r := LinkClaim(pending);
      if r.Ok? {
        r := MoveClaim(pending);
      }
    }

    predicate Claimable(request: Option<Request>, now: int) {
      request.Some? && Fresh(request.value, now)
    }

    method LinkClaim(pending: Request) returns (r: Result<Request, QueueError>)
      requires Valid() && at.runner == Holding(pending)
      modifies this
      ensures Valid() && Extends(old(worlds), old(log)) && !at.runner.Off?
      ensures at.claimed == old(at.claimed)
      ensures r.Ok? ==> at.runner == Linked(pending)
      ensures r == Ok(pending) || r == Err(IOFailed)
      ensures Spent(old(faults), r.Ok?)
    {
      Invariant();
      Senders();
      var ok := FileCall();
      if !ok {
        return Err(IOFailed);
      }
      running := request;
      Note(LinkRunning);
      r := Ok(pending);
    }

    /** Removes request.json once running.json has the request. */
    method RemoveRequest(pending: Request) returns (ok: bool)
      requires Valid() && at.runner == Linked(pending)
      modifies this
      ensures Valid() && Extends(old(worlds), old(log)) && at.claimed == old(at.claimed)
      ensures at.runner == if ok then Moved(pending) else Linked(pending)
      ensures Spent(old(faults), ok)
    {
      Senders();
      ok := FileCall();
      if ok {
        request := None;
        Note(RemovePending);
      }
    }

    /** Records the claim. */
    method RecordClaim(pending: Request) returns (ok: bool)
      requires Valid() && at.runner == Moved(pending)
      modifies this
      ensures Valid() && Extends(old(worlds), old(log))
      ensures at.runner == if ok then Executing(pending) else Moved(pending)
      ensures at.claimed == if ok then old(at.claimed) + [pending.id] else old(at.claimed)
      ensures ok ==> status == Some(Status(pending.id, Running, Requested, NoFailure))
      ensures Spent(old(faults), ok)
    {
      Senders();
      ok := FileCall();
      if ok {
        WriteStatus(Status(pending.id, Running, Requested, NoFailure));
        Note(RecordRunning);
      }
    }

    method MoveClaim(pending: Request) returns (r: Result<Request, QueueError>)
      requires Valid() && at.runner == Linked(pending)
      modifies this
      ensures Valid() && Extends(old(worlds), old(log)) && !at.runner.Off?
      ensures r.Ok? ==>
                && r.value == pending && at.runner == Executing(pending) && running == Some(pending)
                && at.claimed == old(at.claimed) + [pending.id] && pending.id !in old(at.claimed)
                && status == Some(Status(pending.id, Running, Requested, NoFailure))
      ensures r.Err? ==> r == Err(IOFailed) && at.claimed == old(at.claimed)
      ensures Spent(old(faults), r.Ok?)
    {
      var ok := RemoveRequest(pending);
      if ok {
        ok := RecordClaim(pending);
      }
      if ok {
        ClaimedOnce(pending);
      }
      r := if ok then Ok(pending) else Err(IOFailed);
    }

    /** What executes is in running.json, and its ID was not claimed before. */
    lemma ClaimedOnce(r: Request)
      requires Traced() && at.runner == Executing(r) && at.claimed != [] && at.claimed[|at.claimed| - 1] == r.id
      ensures at.running == Some(r) && r.id !in at.claimed[..|at.claimed| - 1]
    {
      Invariant();
    }

    /** The first half of Finish: the outcome goes into the status file. */
    method RecordOutcome(r: Request, ok: bool)
      requires Valid() && at.runner == Executing(r)
      modifies this
      ensures Valid() && Extends(old(worlds), old(log)) && at.claimed == old(at.claimed)
      ensures at.runner == Ended(r) && status == Some(FinalStatus(old(status), r.id, ok)) && faults == old(faults)
    {
      var state, stage, failure := Succeeded, Verified, NoFailure;
      if !ok {
        state, failure := Failed, OperationFailed;
        if status.Some? && status.value.id == r.id {
          stage := status.value.stage;
          if !status.value.failure.NoFailure? {
            failure := status.value.failure;
          }
        }
      }
      WriteStatus(Status(r.id, state, stage, failure));
      Note(RecordEnd(ok));
    }

    /** Finish: the outcome is recorded before running.json goes. */
    method Finish(r: Request, ok: bool) returns (e: Option<QueueError>)
      requires Valid() && at.runner == Executing(r)
      modifies this
      ensures Valid() && Extends(old(worlds), old(log)) && at.claimed == old(at.claimed)
      ensures e.None? ==> at.runner.Off? && running.None?
      ensures e.None? ==> status == Some(FinalStatus(old(status), r.id, ok))
      ensures e.Some? ==> !at.runner.Off? && e == Some(IOFailed)
      ensures Spent(old(faults), e.None?)
    {
      Senders();
      var written := FileCall();
      if !written {
        return Some(IOFailed);
      }
      RecordOutcome(r, ok);
      Senders();
      var removed := FileCall();
      if !removed {
        return Some(IOFailed);
      }
      running := None;
      Note(DropRunning);
      e := None;
    }

    /** Notes progress in the status file; the caller goes on if that fails. */
    method NoteProgress(r: Request, state: State, stage: Stage, failure: Failure) returns (ok: bool)
      requires Valid() && at.runner == Executing(r)
      modifies this
      ensures Valid() && Extends(old(worlds), old(log))
      ensures at.runner == Executing(r) && at.claimed == old(at.claimed)
      ensures status == if ok then Some(Status(r.id, state, stage, failure)) else old(status)
      ensures Spent(old(faults), ok)
    {
      Senders();
      ok := FileCall();
      if ok {
        WriteStatus(Status(r.id, state, stage, failure));
        Note(Progress(state, stage, failure));
      }
    }

    /** The request is noted as running, in some stage. */
    ghost predicate Noted(r: Request)
      reads this`status
    {
      status.Some? && status.value.id == r.id && status.value.failure.NoFailure?
    }

    /** The stages the operation goes through. */
    method NoteStages(r: Request)
      requires Valid() && at.runner == Executing(r) && Noted(r)
      modifies this
      ensures Valid() && Extends(old(worlds), old(log))
      ensures at.runner == Executing(r) && at.claimed == old(at.claimed)
      ensures Noted(r) && faults <= old(faults)
    {
      var more: nat := *;
      while more > 0
        invariant Valid() && Extends(old(worlds), old(log))
        invariant at.runner == Executing(r) && at.claimed == old(at.claimed)
        invariant Noted(r) && faults <= old(faults)
      {
        var stage: Stage := *;
        var _ := NoteProgress(r, Running, stage, NoFailure);
        more := more - 1;
      }
    }

    /** The operation itself, which notes its progress in the status file. */
    method Execute(r: Request, authorized: bool, works: bool) returns (ok: bool)
      requires Valid() && at.runner == Executing(r)
      modifies this
      ensures Valid() && Extends(old(worlds), old(log))
      ensures at.runner == Executing(r) && at.claimed == old(at.claimed)
      ensures ok ==> authorized && works
      ensures faults <= old(faults)
      ensures faults == old(faults) ==>
                && (ok <==> authorized && works)
                && if authorized then Noted(r) else status == Some(Status(r.id, Failed, Validating, Revoked))
    {
      if !authorized {
        var _ := NoteProgress(r, Failed, Validating, Revoked);
        return false;
      }
      ok := NoteProgress(r, Running, Validating, NoFailure);
      if !ok {
        return;
      }
      NoteStages(r);
      Senders();
      ok := works;
    }

    /** Runs the request just claimed and reports how it ended. */
    method RunClaimed(r: Request, authorized: bool, works: bool) returns (e: Option<QueueError>)
      requires Valid() && at.runner == Executing(r)
      modifies this
      ensures Valid() && Extends(old(worlds), old(log)) && at.claimed == old(at.claimed)
      ensures e.None? ==> authorized && works && running.None? && Concluded(status, r.id, true, true)
      ensures faults <= old(faults)
      ensures faults == old(faults) ==>
                && running.None? && Concluded(status, r.id, authorized, works)
                && e == if authorized && works then None else Some(OperationError)
    {
      var ok := Execute(r, authorized, works);
      e := Finish(r, ok);
      if !ok {
        e := Some(OperationError);
      }
    }

    /**
     What a runner does about the request it finds, if there is one.  World `m` is
     the one in which it looked for the last time before it acted.
     */
    method ServeRequest(authorized: bool, works: bool) returns (e: Option<QueueError>, ghost m: nat)
      requires Valid() && at.runner.Checked?
      modifies this
      ensures Valid() && Extends(old(worlds), old(log))
      ensures |old(log)| <= m <= |log| && worlds[m].runner.Checked? && worlds[m].running.None?
      ensures Answered(e, worlds[m], old(at.claimed), old(faults), authorized, works)
    {
      Senders();
      var pending := request.Some?;
      if !pending {
        Invariant();
        m := |log|;
        Senders();
        return None, m;
      }
      Senders();
      Invariant();
      m := |log|;
      var r := Claim();
      if r.Err? {
        return Some(r.error), m;
      }
      e := RunClaimed(r.value, authorized, works);
    }

    /**
     What a runner that met the world `met` makes of it.  Without an error there was
     nothing to do, or exactly the request it met was claimed and succeeded.
     */
    ghost predicate Answered(e: Option<QueueError>, met: World, claimed: seq<ID>, before: nat, authorized: bool, works: bool)
      reads this`at, this`running, this`status, this`faults
    {
      && faults <= before
      && if met.request.None? then e.None? && at.claimed == claimed && faults == before
         else
           var r := met.request.value;
           var claims := at.claimed == claimed + [r.id] && r.id !in claimed;
           && (claims || at.claimed == claimed)
           && (e.None? ==> claims && Fresh(r, met.now) && running.None? && Concluded(status, r.id, true, true))
           && (faults == before ==>
                 if !Fresh(r, met.now) then e == Some(InvalidInput) && at.claimed == claimed
                 else
                   && claims && running.None? && Concluded(status, r.id, authorized, works)
                   && e == if authorized && works then None else Some(OperationError))
    }

    /**
     runDomainRequest: one runner from taking the lock to giving it back.  World `m`
     is the one in which it last looked for a request, unless a file operation
     failed before it could.
     */
    method RunRequest(authorized: bool, works: bool) returns (e: Option<QueueError>, ghost m: nat)
      requires Valid() && at.runner.Off?
      modifies this
      ensures Valid() && Extends(old(worlds), old(log)) && at.runner.Off?
      ensures |old(log)| <= m <= |log|
      ensures if worlds[m].runner.Checked?
              then worlds[m].running.None? && Answered(e, worlds[m], old(at.claimed), old(faults), authorized, works)
              else e == Some(IOFailed) && at.claimed == old(at.claimed) && faults < old(faults)
    {
      m := |log|;
      Note(Start);
      e := RecoverInterrupted();
      if e.None? {
        e, m := ServeRequest(authorized, works);
      }
      if !at.runner.Off? {
        Note(Stop);
      }
    }
  }
}
