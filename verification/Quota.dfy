/**
 The quota lifecycle of user accounts: the traffic mutations, expiry and what
 they keep.  Every operation is one database transaction.
 */
module Quota {
  import opened Wrappers
  import opened Int64

  datatype Status = Active | Disabled | Suspended | Expired | TrafficExceeded | WaitingFirstConnection

  datatype StartPolicy = Immediate | FirstConnection

  /** The columns of a user row that metering and limits read or write. */
  datatype User = User(
    status: Status,
    limit: Option<int>,
    usedRX: int,
    usedTX: int,
    policy: StartPolicy,
    activity: Option<int>,
    activatedAt: Option<int>,
    expiresAt: Option<int>,
    duration: Option<int>,
    deleted: bool)

  predicate Live(s: Status) {
    s.Active? || s.WaitingFirstConnection?
  }

  /** The true amount charged, before any int64 wrap-around. */
  function Used(u: User): int {
    u.usedRX + u.usedTX
  }

  /** Column values the schema admits. */
  predicate ValidRow(u: User) {
    && 0 <= u.usedRX <= MAX && 0 <= u.usedTX <= MAX
    && (u.limit.Some? ==> InRange(u.limit.value))
  }

  /** The two-sided quota invariant. */
  predicate QuotaHolds(u: User) {
    !u.deleted && u.limit.Some? ==>
      && (Live(u.status) ==> Used(u) < u.limit.value)
      && (u.status.TrafficExceeded? ==> Used(u) >= u.limit.value)
  }

  /** A waiting account was never activated. */
  predicate WaitingHolds(u: User) {
    u.status.WaitingFirstConnection? ==> u.activatedAt.None?
  }

  /** The one-op unblock: back to waiting if never activated, else active. */
  function Revived(u: User): Status {
    if u.activatedAt.None? && u.policy.FirstConnection? then WaitingFirstConnection else Active
  }

  /** The level check after a change of the charged counters, in int64. */
  function Levelled(u: User): User {
    var total := Wrap(u.usedRX + u.usedTX);
    if Live(u.status) && u.limit.Some? && total >= u.limit.value then u.(status := TrafficExceeded)
    else if u.status.TrafficExceeded? && u.limit.Some? && total < u.limit.value then u.(status := Revived(u))
    else u
  }

  // ---- what each operation makes of one row ---------------------------------------

  function Saturated(x: int): int {
    if x > MAX then MAX else x
  }

  function AfterAdd(u: User, rx: int, tx: int): User {
    Levelled(u.(usedRX := Saturated(u.usedRX + rx), usedTX := Saturated(u.usedTX + tx)))
  }

  function AfterSet(u: User, rx: Option<int>, tx: Option<int>): User {
    Levelled(u.(usedRX := if rx.Some? then rx.value else u.usedRX,
                usedTX := if tx.Some? then tx.value else u.usedTX))
  }

  function AfterRemove(u: User, bytes: int): User {
    var rx := if bytes <= u.usedRX then u.usedRX - bytes else 0;
    var rest := bytes - (u.usedRX - rx);
    var tx := if rest <= u.usedTX then u.usedTX - rest else 0;
    Levelled(u.(usedRX := rx, usedTX := tx))
  }

  function AfterReset(u: User): User {
    u.(usedRX := 0, usedTX := 0,
       status := if u.status.TrafficExceeded? then Revived(u) else u.status)
  }

  function AfterQuota(u: User, bytes: int): User
    requires u.limit.Some?
  {
    var limit := u.limit.value + bytes;
    u.(limit := Some(limit),
       status := if u.status.TrafficExceeded? && Used(u) <= MAX && Used(u) < limit then Revived(u) else u.status)
  }

  predicate ExpiryDue(u: User, now: int) {
    !u.deleted && u.expiresAt.Some? && u.expiresAt.value < now && Live(u.status)
  }

  function AfterExpiry(u: User, now: int): User {
    if ExpiryDue(u, now) then u.(status := Expired) else u
  }

  /** First-connection activation, when the cycle saw a fresh handshake. */
  function Activated(u: User, now: int): User {
    u.(status := Active, activatedAt := Some(now),
       expiresAt := if u.duration.Some? then Some(now + u.duration.value) else u.expiresAt)
  }

  /**
   One metering cycle: `rx` and `tx` are the charged deltas, `activity` the latest
   handshake known; a change of it means this cycle saw a fresh one.
   */
  function AfterCycle(u: User, rx: int, tx: int, activity: Option<int>, now: int): User {
    var seen := activity != u.activity;
    var v := if !u.deleted && u.status.WaitingFirstConnection? && seen then Activated(u, now) else u;
    var total := Wrap(u.usedRX + rx + u.usedTX + tx);
    v.(usedRX := Wrap(u.usedRX + rx), usedTX := Wrap(u.usedTX + tx), activity := activity,
       status := if !u.deleted && u.limit.Some? && total >= u.limit.value && Live(v.status)
                 then TrafficExceeded else v.status)
  }

  // ---- the level check --------------------------------------------------------------

  /**
   The level check establishes the quota invariant exactly when the counters it
   adds up do not overflow int64 (or the account is none of its business).
   */
  lemma LevelExact(u: User)
    requires ValidRow(u) && !u.deleted && u.limit.Some? && u.limit.value > 0
    ensures QuotaHolds(Levelled(u)) <==>
              Used(u) <= MAX || !(Live(u.status) || u.status.TrafficExceeded?)
  {
    if Used(u) > MAX {
      assert Wrap(Used(u)) == Used(u) - TWO64 by {
        WrapCongruent(Used(u), Used(u) - TWO64, 1);
      }
    }
  }

  /** Saturating adds keep the row valid and restore the invariant exactly below the int64 limit. */
  lemma AddTrafficExact(u: User, rx: int, tx: int)
    requires ValidRow(u) && !u.deleted && u.limit.Some? && u.limit.value > 0
    requires 0 <= rx <= MAX && 0 <= tx <= MAX
    ensures ValidRow(AfterAdd(u, rx, tx))
    ensures QuotaHolds(AfterAdd(u, rx, tx)) <==>
              || Saturated(u.usedRX + rx) + Saturated(u.usedTX + tx) <= MAX
              || !(Live(u.status) || u.status.TrafficExceeded?)
  {
    LevelExact(u.(usedRX := Saturated(u.usedRX + rx), usedTX := Saturated(u.usedTX + tx)));
  }

  lemma SetTrafficExact(u: User, rx: Option<int>, tx: Option<int>)
    requires ValidRow(u) && !u.deleted && u.limit.Some? && u.limit.value > 0
    requires rx.Some? ==> 0 <= rx.value <= MAX
    requires tx.Some? ==> 0 <= tx.value <= MAX
    ensures ValidRow(AfterSet(u, rx, tx))
    ensures QuotaHolds(AfterSet(u, rx, tx)) <==>
              || (if rx.Some? then rx.value else u.usedRX) + (if tx.Some? then tx.value else u.usedTX) <= MAX
              || !(Live(u.status) || u.status.TrafficExceeded?)
  {
    LevelExact(u.(usedRX := if rx.Some? then rx.value else u.usedRX,
                  usedTX := if tx.Some? then tx.value else u.usedTX));
  }

  /** A removal takes exactly `bytes` off the total, or all of it, receive counter first. */
  lemma RemoveTrafficExact(u: User, bytes: int)
    requires ValidRow(u) && !u.deleted && u.limit.Some? && u.limit.value > 0
    requires 0 < bytes <= MAX
    ensures ValidRow(AfterRemove(u, bytes))
    ensures Used(AfterRemove(u, bytes)) == if bytes <= Used(u) then Used(u) - bytes else 0
    ensures AfterRemove(u, bytes).usedTX < u.usedTX ==> AfterRemove(u, bytes).usedRX == 0
    ensures QuotaHolds(AfterRemove(u, bytes)) <==>
              Used(u) - bytes <= MAX || !(Live(u.status) || u.status.TrafficExceeded?)
  {
    var rx := if bytes <= u.usedRX then u.usedRX - bytes else 0;
    var rest := bytes - (u.usedRX - rx);
    LevelExact(u.(usedRX := rx, usedTX := if rest <= u.usedTX then u.usedTX - rest else 0));
  }

  /** A reset re-establishes the invariant exactly when the limit is positive. */
  lemma ResetExact(u: User)
    requires ValidRow(u) && !u.deleted && u.limit.Some?
    ensures QuotaHolds(AfterReset(u)) <==>
              u.limit.value > 0 || !(Live(u.status) || u.status.TrafficExceeded?)
  {
  }

  /** An account with a limit that has used nothing yet. */
  predicate NewAccount(u: User, limit: int) {
    && !u.deleted && u.status.Active? && u.policy.Immediate? && u.limit == Some(limit)
    && u.usedRX == 0 && u.usedTX == 0
  }

  /** The cycle cuts off a new account with limit 0; a reset brings it back although it may use nothing. */
  lemma ResetRevivesZeroLimit(u: User, now: int)
    requires NewAccount(u, 0)
    ensures var v := AfterCycle(u, 0, 0, u.activity, now);
            && v.status.TrafficExceeded? && QuotaHolds(v)
            && AfterReset(v).status.Active? && !QuotaHolds(AfterReset(v))
  {
    var v := AfterCycle(u, 0, 0, u.activity, now);
    assert v == u.(status := TrafficExceeded);
    ResetExact(v);
  }

  /** Two adds to a new account: the first exceeds its limit, the second saturates, wraps the sum and unblocks it. */
  lemma SaturationUnblocks(u: User)
    requires NewAccount(u, 10)
    ensures var v := AfterAdd(u, MAX, 0);
            && v.status.TrafficExceeded? && QuotaHolds(v)
            && AfterAdd(v, 0, MAX).status.Active? && !QuotaHolds(AfterAdd(v, 0, MAX))
  {
    var v := AfterAdd(u, MAX, 0);
    assert v == u.(usedRX := MAX, status := TrafficExceeded);
    AddTrafficExact(v, 0, MAX);
    WrapCongruent(2 * MAX, -2, 1);
  }

  // ---- cycles, quota, expiry ----------------------------------------------------------

  /** A cycle trips every live account that reached its limit, whatever went before. */
  lemma CycleEnforces(u: User, rx: int, tx: int, activity: Option<int>, now: int)
    requires ValidRow(u) && !u.deleted && u.limit.Some?
    requires 0 <= rx && 0 <= tx && Used(u) + rx + tx <= MAX
    ensures var v := AfterCycle(u, Wrap(rx), Wrap(tx), activity, now);
            && ValidRow(v) && Used(v) == Used(u) + rx + tx
            && (Live(v.status) ==> Used(v) < v.limit.value)
            && (v.status.TrafficExceeded? && !u.status.TrafficExceeded? ==> Used(v) >= v.limit.value)
  {
  }

  /** First-connection activation: the cycle saw a fresh handshake of an account waiting for one. */
  predicate Connects(u: User, activity: Option<int>) {
    !u.deleted && u.status.WaitingFirstConnection? && activity != u.activity
  }

  /** What one cycle stores: each direction in its own counter, and an activation exactly on a first connection. */
  lemma CycleStores(u: User, rx: int, tx: int, activity: Option<int>, now: int)
    requires ValidRow(u) && 0 <= rx <= MAX - u.usedRX && 0 <= tx <= MAX - u.usedTX
    ensures var v := AfterCycle(u, Wrap(rx), Wrap(tx), activity, now);
            && v.usedRX == u.usedRX + rx && v.usedTX == u.usedTX + tx && v.activity == activity
            && v.limit == u.limit && v.policy == u.policy && v.duration == u.duration && v.deleted == u.deleted
            && v.activatedAt == (if Connects(u, activity) then Some(now) else u.activatedAt)
            && v.expiresAt == (if Connects(u, activity) && u.duration.Some? then Some(now + u.duration.value)
                               else u.expiresAt)
            && (Used(u) + rx + tx <= MAX ==>
                  v.status == if !u.deleted && Live(u.status) && u.limit.Some? && Used(u) + rx + tx >= u.limit.value
                              then TrafficExceeded
                              else if Connects(u, activity) then Active else u.status)
  {
  }

  // ---- what the operations store ---------------------------------------------------

  /** Only the charged counters and the status may differ. */
  predicate SameTerms(u: User, v: User) {
    v == u.(usedRX := v.usedRX, usedTX := v.usedTX, status := v.status)
  }

  /** An add charges each direction to its own counter, up to the largest int64. */
  lemma AddStores(u: User, rx: int, tx: int)
    requires ValidRow(u) && 0 <= rx <= MAX && 0 <= tx <= MAX
    ensures var v := AfterAdd(u, rx, tx);
            && SameTerms(u, v)
            && v.usedRX == (if u.usedRX <= MAX - rx then u.usedRX + rx else MAX)
            && v.usedTX == (if u.usedTX <= MAX - tx then u.usedTX + tx else MAX)
  {
  }

  /** A set stores the counter it was given; the other one stays. */
  lemma SetStores(u: User, rx: Option<int>, tx: Option<int>)
    ensures var v := AfterSet(u, rx, tx);
            && SameTerms(u, v)
            && (if rx.Some? then rx == Some(v.usedRX) else v.usedRX == u.usedRX)
            && (if tx.Some? then tx == Some(v.usedTX) else v.usedTX == u.usedTX)
  {
  }

  /** Every operation of the lifecycle on one account. */
  datatype Op =
    | Add(rx: int, tx: int)
    | Set(setRX: Option<int>, setTX: Option<int>)
    | Remove(bytes: int)
    | Reset
    | Quota(more: int)
    | Expire(now: int)
    | Cycle(deltaRX: int, deltaTX: int, activity: Option<int>, now: int)

  /** Arguments the operations accept, on counters that stay inside int64. */
  predicate Admissible(u: User, op: Op) {
    match op
    case Add(rx, tx) => 0 <= rx <= MAX && 0 <= tx <= MAX && u.usedRX + rx + u.usedTX + tx <= MAX
    case Set(rx, tx) =>
      && (rx.Some? ==> 0 <= rx.value) && (tx.Some? ==> 0 <= tx.value)
      && (if rx.Some? then rx.value else u.usedRX) + (if tx.Some? then tx.value else u.usedTX) <= MAX
    case Remove(bytes) => 0 < bytes <= MAX
    case Reset => true
    case Quota(more) => 0 < more && u.limit.Some? && u.limit.value <= MAX - more
    case Expire(now) => true
    case Cycle(rx, tx, activity, now) => 0 <= rx && 0 <= tx && Used(u) + rx + tx <= MAX
  }

  function Step(u: User, op: Op): User
    requires Admissible(u, op)
  {
    match op
    case Add(rx, tx) => AfterAdd(u, rx, tx)
    case Set(rx, tx) => AfterSet(u, rx, tx)
    case Remove(bytes) => AfterRemove(u, bytes)
    case Reset => AfterReset(u)
    case Quota(more) => AfterQuota(u, more)
    case Expire(now) => AfterExpiry(u, now)
    case Cycle(rx, tx, activity, now) => AfterCycle(u, Wrap(rx), Wrap(tx), activity, now)
  }

  /** What holds of every account in every reachable state. */
  predicate Good(u: User) {
    && ValidRow(u) && Used(u) <= MAX && QuotaHolds(u) && WaitingHolds(u)
    && (u.limit.Some? ==> u.limit.value > 0)
  }

  lemma CounterStepKeeps(u: User, op: Op)
    requires Good(u) && !u.deleted && Admissible(u, op) && (op.Add? || op.Set?)
    ensures Good(Step(u, op)) && !Step(u, op).deleted
  {
    if u.limit.Some? {
      match op
      case Add(rx, tx) => AddTrafficExact(u, rx, tx);
      case Set(rx, tx) => SetTrafficExact(u, rx, tx);
    }
  }

  lemma RemovalStepKeeps(u: User, bytes: int)
    requires Good(u) && !u.deleted && Admissible(u, Remove(bytes))
    ensures Good(Step(u, Remove(bytes))) && !Step(u, Remove(bytes)).deleted
  {
    if u.limit.Some? {
      RemoveTrafficExact(u, bytes);
    }
  }

  lemma StatusStepKeeps(u: User, op: Op)
    requires Good(u) && !u.deleted && Admissible(u, op) && (op.Reset? || op.Quota? || op.Expire?)
    ensures Good(Step(u, op)) && !Step(u, op).deleted
  {
    if op.Reset? && u.limit.Some? {
      ResetExact(u);
    }
  }

  lemma CycleStepKeeps(u: User, op: Op)
    requires Good(u) && !u.deleted && Admissible(u, op) && op.Cycle?
    ensures Good(Step(u, op)) && !Step(u, op).deleted
  {
    if u.limit.Some? {
      CycleEnforces(u, op.deltaRX, op.deltaTX, op.activity, op.now);
    }
  }

  lemma StepKeeps(u: User, op: Op)
    requires Good(u) && !u.deleted && Admissible(u, op)
    ensures Good(Step(u, op)) && !Step(u, op).deleted
  {
    match op
    case Add(_, _) => CounterStepKeeps(u, op);
    case Set(_, _) => CounterStepKeeps(u, op);
    case Remove(bytes) => RemovalStepKeeps(u, bytes);
    case Reset => StatusStepKeeps(u, op);
    case Quota(_) => StatusStepKeeps(u, op);
    case Expire(_) => StatusStepKeeps(u, op);
    case Cycle(_, _, _, _) => CycleStepKeeps(u, op);
  }

  /** What one operation stores: the terms of an account change by more quota and by its activation only. */
  lemma StepStores(u: User, op: Op)
    requires Good(u) && !u.deleted && Admissible(u, op)
    ensures var v := Step(u, op);
            && v.policy == u.policy && v.duration == u.duration && v.deleted == u.deleted
            && (if op.Quota? then v.limit == Some(u.limit.value + op.more) else v.limit == u.limit)
            && (op.Cycle? || SameTerms(u.(limit := v.limit), v))
    ensures var v := Step(u, op);
            match op
            case Add(rx, tx) => v.usedRX == u.usedRX + rx && v.usedTX == u.usedTX + tx
            case Set(rx, tx) =>
              && (if rx.Some? then rx == Some(v.usedRX) else v.usedRX == u.usedRX)
              && (if tx.Some? then tx == Some(v.usedTX) else v.usedTX == u.usedTX)
            case Remove(bytes) => Used(v) == if bytes <= Used(u) then Used(u) - bytes else 0
            case Reset => v.usedRX == 0 && v.usedTX == 0
            case Quota(_) => v.usedRX == u.usedRX && v.usedTX == u.usedTX
            case Expire(_) => v.usedRX == u.usedRX && v.usedTX == u.usedTX
            case Cycle(rx, tx, _, _) => v.usedRX == u.usedRX + rx && v.usedTX == u.usedTX + tx
  {
    match op
    case Add(rx, tx) => AddStores(u, rx, tx);
    case Set(rx, tx) => SetStores(u, rx, tx);
    case Cycle(rx, tx, activity, now) => CycleStores(u, rx, tx, activity, now);
    case _ =>
  }

  /**
   How the status may move: only live accounts are cut off or expire, only a cycle
   activates, and an account cut off before its first connection goes back to
   waiting for it.
   */
  lemma StepStatus(u: User, op: Op)
    requires Good(u) && !u.deleted && Admissible(u, op)
    ensures var v := Step(u, op);
            || v.status == u.status
            || (v.status.TrafficExceeded? && Live(u.status) && (op.Add? || op.Set? || op.Cycle?))
            || (v.status.Expired? && Live(u.status) && op.Expire?)
            || (v.status.Active? && u.status.WaitingFirstConnection? && op.Cycle? && v.activatedAt.Some?)
            || (&& u.status.TrafficExceeded? && !op.Expire? && !op.Cycle?
                && v.status == if u.policy.FirstConnection? && u.activatedAt.None?
                               then WaitingFirstConnection else Active)
    ensures op.Reset? ==> !Step(u, op).status.TrafficExceeded?
    ensures op.Expire? && Live(u.status) ==>
              (Step(u, op).status.Expired? <==> u.expiresAt.Some? && u.expiresAt.value < op.now)
  {
    StepStores(u, op);
    StepKeeps(u, op);
  }

  predicate Feasible(u: User, ops: seq<Op>)
    decreases |ops|
  {
    ops == [] || (Admissible(u, ops[0]) && Feasible(Step(u, ops[0]), ops[1..]))
  }

  function After(u: User, ops: seq<Op>): User
    requires Feasible(u, ops)
    decreases |ops|
  {
    if ops == [] then u else After(Step(u, ops[0]), ops[1..])
  }

  /** The quota invariant holds after every sequence of the seven operations. */
  lemma {:induction false} QuotaAlwaysHolds(u: User, ops: seq<Op>)
    requires Good(u) && !u.deleted && Feasible(u, ops)
    ensures QuotaHolds(After(u, ops)) && WaitingHolds(After(u, ops)) && Good(After(u, ops))
    decreases |ops|
  {
    if ops != [] {
      StepKeeps(u, ops[0]);
      QuotaAlwaysHolds(Step(u, ops[0]), ops[1..]);
    }
  }

  // ---- the service -------------------------------------------------------------------

  type UserId = string

  datatype TrafficError = UserNotFound | InvalidRequest

  /** The users table behind the traffic mutations. */
  class Accounts {
    var users: map<UserId, User>

    constructor (users: map<UserId, User>)
      ensures this.users == users
    {
      this.users := users;
    }

    /** A live user with this id. */
    predicate Known(id: UserId)
      reads this
    {
      id in users && !users[id].deleted
    }

    /** The switch shared by addTraffic, SetTraffic and adjustTraffic. */
    method WriteCounters(id: UserId, rx: int, tx: int)
      requires id in users
      modifies this
      ensures users == old(users)[id := Levelled(old(users)[id].(usedRX := rx, usedTX := tx))]
    {
      var u := users[id];
      var total := Wrap(rx + tx);
      var status := u.status;
      var over := u.limit.Some? && total >= u.limit.value;
      if Live(u.status) && over {
        status := TrafficExceeded;
      } else if u.status.TrafficExceeded? && u.limit.Some? && total < u.limit.value {
        if u.activatedAt.None? && u.policy.FirstConnection? {
          status := WaitingFirstConnection;
        } else {
          status := Active;
        }
      }
      users := users[id := u.(usedRX := rx, usedTX := tx, status := status)];
    }

    method AddTraffic(id: UserId, rx: int, tx: int) returns (r: Result<(), TrafficError>)
      requires InRange(rx) && InRange(tx)
      requires id in users ==> ValidRow(users[id])
      modifies this
      ensures rx < 0 || tx < 0 || Wrap(rx + tx) <= 0 ==> r == Err(InvalidRequest)
      ensures r == Err(UserNotFound) ==> !old(Known(id))
      ensures r.Err? ==> users == old(users)
      ensures r.Ok? ==> old(Known(id)) && users == old(users)[id := AfterAdd(old(users)[id], rx, tx)]
      ensures r.Ok? <==> rx >= 0 && tx >= 0 && Wrap(rx + tx) > 0 && old(Known(id))
    {
      if rx < 0 || tx < 0 || Wrap(rx + tx) <= 0 {
        return Err(InvalidRequest);
      }
      if id !in users || users[id].deleted {
        return Err(UserNotFound);
      }
      var newRX, newTX := users[id].usedRX, users[id].usedTX;
      if rx > 0 {
        if rx > MAX - newRX {
          newRX := MAX;
        } else {
          newRX := newRX + rx;
        }
      }
      if tx > 0 {
        if tx > MAX - newTX {
          newTX := MAX;
        } else {
          newTX := newTX + tx;
        }
      }
      WriteCounters(id, newRX, newTX);
      r := Ok(());
    }

    method SetTraffic(id: UserId, rx: Option<int>, tx: Option<int>) returns (r: Result<(), TrafficError>)
      modifies this
      ensures r.Ok? <==>
        && (rx.Some? ==> rx.value >= 0) && (tx.Some? ==> tx.value >= 0) && (rx.Some? || tx.Some?)
        && old(Known(id))
      ensures r.Err? ==> users == old(users)
      ensures r.Ok? ==> users == old(users)[id := AfterSet(old(users)[id], rx, tx)]
    {
      if (rx.Some? && rx.value < 0) || (tx.Some? && tx.value < 0) {
        return Err(InvalidRequest);
      }
      if rx.None? && tx.None? {
        return Err(InvalidRequest);
      }
      if id !in users || users[id].deleted {
        return Err(UserNotFound);
      }
      var newRX, newTX := users[id].usedRX, users[id].usedTX;
      if rx.Some? {
        newRX := rx.value;
      }
      if tx.Some? {
        newTX := tx.value;
      }
      WriteCounters(id, newRX, newTX);
      r := Ok(());
    }

    method RemoveTraffic(id: UserId, bytes: int) returns (r: Result<(), TrafficError>)
      requires InRange(bytes)
      requires id in users ==> ValidRow(users[id])
      modifies this
      ensures r.Ok? <==> bytes > 0 && old(Known(id))
      ensures r.Err? ==> users == old(users)
      ensures r.Ok? ==> users == old(users)[id := AfterRemove(old(users)[id], bytes)]
    {
      if bytes <= 0 {
        return Err(InvalidRequest);
      }
      if id !in users || users[id].deleted {
        return Err(UserNotFound);
      }
      var newTX := users[id].usedTX;
      var newRX := users[id].usedRX - bytes;
      if newRX < 0 {
        newTX := users[id].usedTX + newRX;
        newRX := 0;
        if newTX < 0 {
          newTX := 0;
        }
      }
      WriteCounters(id, newRX, newTX);
      r := Ok(());
    }

    method AddQuota(id: UserId, bytes: int) returns (r: Result<int, TrafficError>)
      requires InRange(bytes)
      requires id in users ==> ValidRow(users[id])
      modifies this
      ensures r.Ok? <==>
        && bytes > 0 && old(Known(id)) && old(users)[id].limit.Some?
        && old(users)[id].limit.value + bytes <= MAX
      ensures r.Err? ==> users == old(users)
      ensures r.Ok? ==>
        && users == old(users)[id := AfterQuota(old(users)[id], bytes)]
        && users[id].limit == Some(r.value)
    {
      if bytes <= 0 {
        return Err(InvalidRequest);
      }
      if id !in users || users[id].deleted {
        return Err(UserNotFound);
      }
      var u := users[id];
      if u.limit.None? || u.limit.value > MAX - bytes {
        return Err(InvalidRequest);
      }
      var limit := u.limit.value + bytes;
      var status := u.status;
      if u.status.TrafficExceeded? && u.usedRX <= MAX - u.usedTX && u.usedRX + u.usedTX < limit {
        status := Revived(u);
      }
      users := users[id := u.(limit := Some(limit), status := status)];
      r := Ok(limit);
    }

    /** The set-based expiry pass. */
    method EnforceExpiry(now: int) returns (expired: nat)
      modifies this
      ensures users == map id | id in old(users) :: AfterExpiry(old(users)[id], now)
      ensures expired == |set id | id in old(users) && ExpiryDue(old(users)[id], now)|
    {
      var due := set id | id in users && ExpiryDue(users[id], now);
      expired := |due|;
      users := map id | id in users :: if id in due then users[id].(status := Expired) else users[id];
    }
  }
}
