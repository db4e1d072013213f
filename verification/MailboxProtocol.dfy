/**
 The domain mailbox as a step system: senders in any process, one host runner
 at a time under its lock, and death at any point.  Every step is one file
 operation, so a process that dies has simply made no further step.
 */
module MailboxProtocol {
  import opened Wrappers

  type ID = nat
  type Pid = nat

  const HOUR := 3600
  const MINUTE := 60

  /** A pending or running request; `input` stands for the validated operation. */
  datatype Request = Request(id: ID, created: int, input: nat)

  datatype State = Running | Succeeded | Failed

  datatype Stage = Requested | Validating | Issuing | Issued | Activating | Verified | Recovery

  datatype Failure = NoFailure | Revoked | InvalidRequest | OperationFailed | Interrupted

  datatype Status = Status(id: ID, state: State, stage: Stage, failure: Failure)

  /** Where the host runner is between two file operations. */
  datatype Runner =
    | Off
    | Started                   // holds the runner lock
    | Found(r: Request)         // read an interrupted running.json
    | Reported(r: Request)      // recorded it as interrupted
    | Checked                   // no running.json
    | Holding(r: Request)       // Claim read a fresh request.json
    | Linked(r: Request)        // running.json linked
    | Moved(r: Request)         // request.json removed
    | Executing(r: Request)     // Claim returned the request
    | Ended(r: Request)         // Finish recorded the outcome

  /**
   The files, the clock, the senders that passed their check, the runner; and
   as history the IDs that Claim returned, that reached running.json, that got
   a terminal status, and that were reported interrupted when no request.json
   held them any more.
   */
  datatype World = World(
    request: Option<Request>,
    running: Option<Request>,
    status: Option<Status>,
    now: int,
    senders: map<Pid, Request>,
    runner: Runner,
    next: ID,
    claimed: seq<ID>,
    ran: set<ID>,
    ended: set<ID>,
    lost: set<ID>)

  datatype Action =
    | Tick
    | SendCheck(p: Pid, input: nat)
    | SendLink(p: Pid)
    | SendDie(p: Pid)
    | Start
    | LookRunning
    | ReportInterrupted
    | DropInterrupted
    | ReadPending
    | LinkRunning
    | RemovePending
    | RecordRunning
    | Progress(state: State, stage: Stage, failure: Failure)
    | RecordEnd(ok: bool)
    | DropRunning
    | Stop

  predicate Fresh(r: Request, now: int) {
    now - r.created <= HOUR && r.created - now <= MINUTE
  }

  predicate Enabled(w: World, a: Action) {
    match a
    case Tick => true
    case SendCheck(p, _) => p !in w.senders && w.running.None?
    case SendLink(p) => p in w.senders
    case SendDie(p) => p in w.senders
    case Start => w.runner.Off?
    case LookRunning => w.runner.Started?
    case ReportInterrupted => w.runner.Found?
    case DropInterrupted => w.runner.Reported?
    case ReadPending => w.runner.Checked? && w.request.Some? && Fresh(w.request.value, w.now)
    case LinkRunning => w.runner.Holding? && w.request.Some? && w.running.None?
    case RemovePending => w.runner.Linked?
    case RecordRunning => w.runner.Moved?
    case Progress(_, _, _) => w.runner.Executing?
    case RecordEnd(_) => w.runner.Executing?
    case DropRunning => w.runner.Ended?
    case Stop => !w.runner.Off?
  }

  /** The status Finish records: a failure keeps what the operation noted about it. */
  function FinalStatus(was: Option<Status>, id: ID, ok: bool): Status {
    if ok then Status(id, Succeeded, Verified, NoFailure)
    else if was.Some? && was.value.id == id then
      Status(id, Failed, was.value.stage, if was.value.failure.NoFailure? then OperationFailed else was.value.failure)
    else Status(id, Failed, Verified, OperationFailed)
  }

  function Do(w: World, a: Action): World
    requires Enabled(w, a)
  {
    match a
    case Tick => w.(now := w.now + 1)
    case SendCheck(p, input) =>
      w.(senders := w.senders[p := Request(w.next, w.now, input)], next := w.next + 1)
    case SendLink(p) =>
      var r := w.senders[p];
      w.(request := if w.request.None? then Some(r) else w.request, senders := w.senders - {p})
    case SendDie(p) => w.(senders := w.senders - {p})
    case Start => w.(runner := Started)
    case LookRunning => w.(runner := if w.running.None? then Checked else Found(w.running.value))
    case ReportInterrupted =>
      var r := w.runner.r;
      w.(status := Some(Status(r.id, Failed, Recovery, Interrupted)),
         ended := w.ended + {r.id},
         lost := if w.request == Some(r) then w.lost else w.lost + {r.id},
         runner := Reported(r))
    case DropInterrupted => w.(running := None, runner := Checked)
    case ReadPending => w.(runner := Holding(w.request.value))
    case LinkRunning =>
      w.(running := w.request, ran := w.ran + {w.request.value.id}, runner := Linked(w.runner.r))
    case RemovePending => w.(request := None, runner := Moved(w.runner.r))
    case RecordRunning =>
      var r := w.runner.r;
      w.(status := Some(Status(r.id, Running, Requested, NoFailure)),
         claimed := w.claimed + [r.id],
         runner := Executing(r))
    case Progress(state, stage, failure) =>
      w.(status := Some(Status(w.runner.r.id, state, stage, failure)))
    case RecordEnd(ok) =>
      var r := w.runner.r;
      w.(status := Some(FinalStatus(w.status, r.id, ok)), ended := w.ended + {r.id}, runner := Ended(r))
    case DropRunning => w.(running := None, runner := Off)
    case Stop => w.(runner := Off)
  }

  // ---- runs ----------------------------------------------------------------------------

  ghost predicate IsTrace(worlds: seq<World>, log: seq<Action>) {
    && |worlds| == |log| + 1
    && forall i {:trigger log[i]} | 0 <= i < |log| ::
         Enabled(worlds[i], log[i]) && worlds[i + 1] == Do(worlds[i], log[i])
  }

  /** An empty mailbox. */
  predicate Initial(w: World) {
    && w.request.None? && w.running.None? && w.status.None?
    && w.senders == map[] && w.runner.Off? && w.next == 0
    && w.claimed == [] && w.ran == {} && w.ended == {} && w.lost == {}
  }

  ghost predicate IsRun(worlds: seq<World>, log: seq<Action>) {
    IsTrace(worlds, log) && Initial(worlds[0])
  }

  lemma TraceSnoc(worlds: seq<World>, log: seq<Action>, a: Action)
    requires IsTrace(worlds, log) && Enabled(worlds[|log|], a)
    ensures IsTrace(worlds + [Do(worlds[|log|], a)], log + [a])
  {
    var worlds', log' := worlds + [Do(worlds[|log|], a)], log + [a];
    forall i {:trigger log'[i]} | 0 <= i < |log'|
      ensures Enabled(worlds'[i], log'[i]) && worlds'[i + 1] == Do(worlds'[i], log'[i])
    {
      if i < |log| {
        assert log'[i] == log[i];
      }
    }
  }
}
