/**
 Idempotency keys under concurrent requests, as a step system: one step for
 each database statement, handler end or lost request.
 */
module IdempotencyProtocol {
  import opened Wrappers

  /** The token and the client's key; the stored key is their digest. */
  datatype Key = Key(token: nat, text: string)

  type Hash = nat
  type Pid = nat

  const TTL := 24 * 3600

  datatype Response = Response(status: int, body: string)

  predicate Succeeded(r: Response) {
    200 <= r.status < 300
  }

  /** A row without a snapshot is in flight. */
  datatype Row = Row(hash: Hash, snapshot: Option<Response>, expires: int)

  datatype Answer = Fresh(r: Response) | Replay(r: Response) | Reused | InProgress

  datatype Phase =
    | Claiming(key: Key, hash: Hash)       // before the delete of an expired row
    | Inserting(key: Key, hash: Hash)      // before the insert
    | Looking(key: Key, hash: Hash)        // the insert met a row
    | Executing(key: Key, hash: Hash, claimed: int)
    | Responding(key: Key, hash: Hash, claimed: int, response: Response)
    | Answered(key: Key, hash: Hash, answer: Answer)

  /** A successful execution: what was asked, when it was claimed, what it answered. */
  datatype Win = Win(key: Key, hash: Hash, claimed: int, response: Response)

  datatype World = World(rows: map<Key, Row>, now: int, requests: map<Pid, Phase>, wins: set<Win>)

  datatype Action =
    | Tick
    | Arrive(p: Pid, key: Key, hash: Hash)
    | Retire(p: Pid)
    | Insert(p: Pid)
    | Look(p: Pid)
    | Finish(p: Pid, response: Response)
    | Settle(p: Pid, stored: bool)
    | Vanish(p: Pid)
    | Prune

  predicate Enabled(w: World, a: Action) {
    match a
    case Tick => true
    case Arrive(p, _, _) => p !in w.requests
    case Retire(p) => p in w.requests && w.requests[p].Claiming?
    case Insert(p) => p in w.requests && w.requests[p].Inserting?
    case Look(p) => p in w.requests && w.requests[p].Looking?
    case Finish(p, _) => p in w.requests && w.requests[p].Executing?
    case Settle(p, _) => p in w.requests && w.requests[p].Responding?
    case Vanish(p) => p in w.requests
    case Prune => true
  }

  function Enter(w: World, p: Pid, ph: Phase): World {
    w.(requests := w.requests[p := ph])
  }

  /** DELETE ... WHERE key = ? AND expires_at <= now. */
  function Retired(rows: map<Key, Row>, key: Key, now: int): map<Key, Row> {
    if key in rows && rows[key].expires <= now then rows - {key} else rows
  }

  function Pruned(rows: map<Key, Row>, now: int): map<Key, Row> {
    map k | k in rows && !(rows[k].expires < now) :: rows[k]
  }

  /** The lookup of a request whose insert met a row. */
  function Lookup(rows: map<Key, Row>, key: Key, hash: Hash, now: int): Answer {
    if key !in rows || rows[key].expires <= now then InProgress
    else if rows[key].hash != hash then Reused
    else if rows[key].snapshot.None? then InProgress
    else Replay(rows[key].snapshot.value)
  }

  /** The snapshot of a success is stored; any other outcome releases the key. */
  function Settled(rows: map<Key, Row>, key: Key, r: Response): map<Key, Row> {
    if !Succeeded(r) then rows - {key}
    else if key in rows then rows[key := rows[key].(snapshot := Some(r))]
    else rows
  }

  function Do(w: World, a: Action): World
    requires Enabled(w, a)
  {
    match a
    case Tick => w.(now := w.now + 1)
    case Arrive(p, key, hash) => Enter(w, p, Claiming(key, hash))
    case Retire(p) =>
      var q := w.requests[p];
      Enter(w, p, Inserting(q.key, q.hash)).(rows := Retired(w.rows, q.key, w.now))
    case Insert(p) =>
      var q := w.requests[p];
      if q.key in w.rows then Enter(w, p, Looking(q.key, q.hash))
      else Enter(w, p, Executing(q.key, q.hash, w.now)).(rows := w.rows[q.key := Row(q.hash, None, w.now + TTL)])
    case Look(p) =>
      var q := w.requests[p];
      Enter(w, p, Answered(q.key, q.hash, Lookup(w.rows, q.key, q.hash, w.now)))
    case Finish(p, r) =>
      var q := w.requests[p];
      Enter(w, p, Responding(q.key, q.hash, q.claimed, r))
        .(wins := if Succeeded(r) then w.wins + {Win(q.key, q.hash, q.claimed, r)} else w.wins)
    case Settle(p, stored) =>
      var q := w.requests[p];
      Enter(w, p, Answered(q.key, q.hash, Fresh(q.response)))
        .(rows := if stored then Settled(w.rows, q.key, q.response) else w.rows)
    case Vanish(p) => w.(requests := w.requests - {p})
    case Prune => w.(rows := Pruned(w.rows, w.now))
  }

  // ---- what every run keeps ----------------------------------------------------------------

  predicate Active(q: Phase) {
    q.Executing? || q.Responding?
  }

  /** Handlers finish, and their outcome is settled, inside the lifetime of their row. */
  ghost predicate InTime(w: World) {
    forall p | p in w.requests && Active(w.requests[p]) :: w.now < w.requests[p].claimed + TTL
  }

  /** The row of a request that executes: its own, without a snapshot. */
  predicate OwnsRow(w: World, q: Phase)
    requires Active(q)
  {
    && q.claimed <= w.now
    && q.key in w.rows && w.rows[q.key] == Row(q.hash, None, q.claimed + TTL)
  }

  predicate WonIfSucceeded(w: World, q: Phase) {
    q.Responding? && Succeeded(q.response) ==> Win(q.key, q.hash, q.claimed, q.response) in w.wins
  }

  ghost predicate ActiveKept(w: World) {
    && (forall p | p in w.requests && Active(w.requests[p]) :: OwnsRow(w, w.requests[p]) && WonIfSucceeded(w, w.requests[p]))
    && (forall p, q | p in w.requests && q in w.requests && p != q && Active(w.requests[p]) && Active(w.requests[q]) ::
          w.requests[p].key != w.requests[q].key)
  }

  /** A win keeps its row until it expires. */
  ghost predicate WinsKept(w: World) {
    && (forall v | v in w.wins :: v.claimed <= w.now)
    && (forall v | v in w.wins && w.now < v.claimed + TTL ::
          v.key in w.rows && w.rows[v.key].hash == v.hash && w.rows[v.key].expires == v.claimed + TTL)
    && (forall a, b | a in w.wins && b in w.wins && a != b && a.key == b.key ::
          a.claimed + TTL <= b.claimed || b.claimed + TTL <= a.claimed)
  }

  /** A request that executes was claimed after every earlier win of its key expired. */
  ghost predicate ActiveAfterWins(w: World) {
    forall p, v | p in w.requests && Active(w.requests[p]) && v in w.wins && v.key == w.requests[p].key ::
      var q := w.requests[p];
      || v.claimed + TTL <= q.claimed
      || (q.Responding? && Succeeded(q.response) && v == Win(q.key, q.hash, q.claimed, q.response))
  }

  /** A stored snapshot is the response of the win the row belongs to. */
  ghost predicate SnapshotsKept(w: World) {
    forall k | k in w.rows && w.rows[k].snapshot.Some? ::
      Win(k, w.rows[k].hash, w.rows[k].expires - TTL, w.rows[k].snapshot.value) in w.wins
  }

  ghost predicate Inv(w: World) {
    ActiveKept(w) && WinsKept(w) && ActiveAfterWins(w) && SnapshotsKept(w)
  }

  predicate Initial(w: World) {
    w.rows == map[] && w.requests == map[] && w.wins == {}
  }

  lemma InitialInv(w: World)
    requires Initial(w)
    ensures Inv(w)
  {
  }

  /** What touches neither the rows nor a request that executes keeps everything. */
  lemma QuietKeeps(w: World, v: World)
    requires Inv(w) && v == w.(requests := v.requests)
    requires forall p | p in v.requests && Active(v.requests[p]) :: p in w.requests && w.requests[p] == v.requests[p]
    ensures Inv(v)
  {
    assert WinsKept(v) && SnapshotsKept(v) && ActiveAfterWins(v);
  }

  lemma ArriveKeeps(w: World, a: Action)
    requires Inv(w) && Enabled(w, a) && a.Arrive?
    ensures Inv(Do(w, a))
  {
    QuietKeeps(w, Do(w, a));
  }

  lemma LookKeeps(w: World, p: Pid)
    requires Inv(w) && Enabled(w, Look(p))
    ensures Inv(Do(w, Look(p)))
  {
    QuietKeeps(w, Do(w, Look(p)));
  }

  lemma VanishKeeps(w: World, p: Pid)
    requires Inv(w) && Enabled(w, Vanish(p))
    ensures Inv(Do(w, Vanish(p)))
  {
    QuietKeeps(w, Do(w, Vanish(p)));
  }

  lemma TickKeeps(w: World)
    requires Inv(w)
    ensures Inv(Do(w, Tick))
  {
  }

  /** Only expired rows are removed, and none of them is owned or won. */
  ghost predicate FewerRows(w: World, rows: map<Key, Row>) {
    && (forall k | k in rows :: k in w.rows && rows[k] == w.rows[k])
    && (forall k | k in w.rows && k !in rows :: w.rows[k].expires <= w.now)
  }

  lemma FewerRowsActive(w: World, rows: map<Key, Row>)
    requires ActiveKept(w) && InTime(w) && FewerRows(w, rows)
    ensures ActiveKept(w.(rows := rows))
  {
    forall p | p in w.requests && Active(w.requests[p])
      ensures OwnsRow(w.(rows := rows), w.requests[p]) && WonIfSucceeded(w.(rows := rows), w.requests[p])
    {
      assert OwnsRow(w, w.requests[p]);
    }
  }

  lemma FewerRowsWins(w: World, rows: map<Key, Row>)
    requires WinsKept(w) && FewerRows(w, rows)
    ensures WinsKept(w.(rows := rows))
  {
    forall v | v in w.wins && w.now < v.claimed + TTL
      ensures v.key in rows && rows[v.key].hash == v.hash && rows[v.key].expires == v.claimed + TTL
    {
      assert v.key in w.rows;
    }
  }

  lemma FewerRowsKeep(w: World, rows: map<Key, Row>)
    requires Inv(w) && InTime(w) && FewerRows(w, rows)
    ensures Inv(w.(rows := rows))
  {
    FewerRowsActive(w, rows);
    FewerRowsWins(w, rows);
    assert ActiveAfterWins(w.(rows := rows)) && SnapshotsKept(w.(rows := rows));
  }

  /** Pruning removes exactly the rows that expired before now. */
  lemma PrunedExactly(w: World, k: Key)
    ensures k in Do(w, Prune).rows <==> k in w.rows && w.now <= w.rows[k].expires
    ensures k in Do(w, Prune).rows ==> Do(w, Prune).rows[k] == w.rows[k]
  {
  }

  lemma PruneKeeps(w: World)
    requires Inv(w) && InTime(w)
    ensures Inv(Do(w, Prune))
  {
    FewerRowsKeep(w, Pruned(w.rows, w.now));
  }

  lemma RetireKeeps(w: World, p: Pid)
    requires Inv(w) && InTime(w) && Enabled(w, Retire(p))
    ensures Inv(Do(w, Retire(p)))
  {
    var q := w.requests[p];
    var rows := Retired(w.rows, q.key, w.now);
    FewerRowsKeep(w, rows);
    QuietKeeps(w.(rows := rows), Do(w, Retire(p)));
  }

  /** A request that starts to execute meets no row, so every earlier win of the key has expired. */
  lemma InsertIsLate(w: World, key: Key, v: Win)
    requires Inv(w) && key !in w.rows && v in w.wins && v.key == key
    ensures v.claimed + TTL <= w.now
  {
  }

  /** The insert meets a row. */
  lemma MeetKeeps(w: World, p: Pid)
    requires Inv(w) && Enabled(w, Insert(p)) && w.requests[p].key in w.rows
    ensures Inv(Do(w, Insert(p)))
  {
    QuietKeeps(w, Do(w, Insert(p)));
  }

  lemma InsertedAfterWins(w: World, p: Pid)
    requires Inv(w) && Enabled(w, Insert(p)) && w.requests[p].key !in w.rows
    ensures ActiveAfterWins(Do(w, Insert(p)))
  {
    var q := w.requests[p];
    var v := Do(w, Insert(p));
    forall x | x in w.wins && x.key == q.key ensures x.claimed + TTL <= w.now {
      InsertIsLate(w, q.key, x);
    }
    assert forall o | o in v.requests && o != p :: o in w.requests && w.requests[o] == v.requests[o];
  }

  lemma InsertedSnapshots(w: World, p: Pid)
    requires SnapshotsKept(w) && Enabled(w, Insert(p)) && w.requests[p].key !in w.rows
    ensures SnapshotsKept(Do(w, Insert(p)))
  {
  }

  lemma InsertKeeps(w: World, p: Pid)
    requires Inv(w) && Enabled(w, Insert(p))
    ensures Inv(Do(w, Insert(p)))
  {
    if w.requests[p].key in w.rows {
      MeetKeeps(w, p);
    } else {
      InsertedActive(w, p);
      InsertedWins(w, p);
      InsertedAfterWins(w, p);
      InsertedSnapshots(w, p);
    }
  }

  lemma InsertedActive(w: World, p: Pid)
    requires Inv(w) && Enabled(w, Insert(p)) && w.requests[p].key !in w.rows
    ensures ActiveKept(Do(w, Insert(p)))
  {
  }

  lemma InsertedWins(w: World, p: Pid)
    requires Inv(w) && Enabled(w, Insert(p)) && w.requests[p].key !in w.rows
    ensures WinsKept(Do(w, Insert(p)))
  {
  }

  lemma FinishedActive(w: World, p: Pid, r: Response)
    requires Inv(w) && Enabled(w, Finish(p, r))
    ensures ActiveKept(Do(w, Finish(p, r)))
  {
  }

  lemma FinishedWins(w: World, p: Pid, r: Response)
    requires Inv(w) && Enabled(w, Finish(p, r))
    ensures WinsKept(Do(w, Finish(p, r)))
  {
    assert OwnsRow(w, w.requests[p]);
  }

  lemma FinishedAfterWins(w: World, p: Pid, r: Response)
    requires Inv(w) && Enabled(w, Finish(p, r))
    ensures ActiveAfterWins(Do(w, Finish(p, r)))
  {
    var v := Do(w, Finish(p, r));
    assert forall o | o in v.requests && o != p :: o in w.requests && w.requests[o] == v.requests[o];
    assert forall o | o in v.requests && o != p && Active(v.requests[o]) :: v.requests[o].key != w.requests[p].key;
  }

  lemma FinishKeeps(w: World, p: Pid, r: Response)
    requires Inv(w) && Enabled(w, Finish(p, r))
    ensures Inv(Do(w, Finish(p, r)))
  {
    FinishedActive(w, p, r);
    FinishedWins(w, p, r);
    FinishedAfterWins(w, p, r);
  }

  /** Settling changes only the row of the request itself. */
  lemma SettledRows(w: World, p: Pid, stored: bool)
    requires Inv(w) && Enabled(w, Settle(p, stored))
    ensures var q, v := w.requests[p], Do(w, Settle(p, stored));
            && (forall k | k != q.key :: k in v.rows <==> k in w.rows)
            && (forall k | k != q.key && k in w.rows :: v.rows[k] == w.rows[k])
            && (Succeeded(q.response) ==>
                  && q.key in v.rows && v.rows[q.key] == w.rows[q.key].(snapshot := v.rows[q.key].snapshot)
                  && v.rows[q.key].snapshot == if stored then Some(q.response) else None)
  {
    assert OwnsRow(w, w.requests[p]);
  }

  /**
   The row of a settled request, when its statement goes through: after a 2xx
   response it holds that response, and after any other it is gone.  A statement
   that fails leaves every row as it was.
   */
  lemma SettledOutcome(w: World, p: Pid, stored: bool)
    requires Inv(w) && Enabled(w, Settle(p, stored))
    ensures var q, v := w.requests[p], Do(w, Settle(p, stored));
            if !stored then v.rows == w.rows
            else if 200 <= q.response.status < 300 then
              v.rows == w.rows[q.key := Row(q.hash, Some(q.response), q.claimed + TTL)]
            else v.rows == w.rows - {q.key} && q.key !in v.rows
  {
    assert OwnsRow(w, w.requests[p]);
  }

  lemma SettledActive(w: World, p: Pid, stored: bool)
    requires Inv(w) && Enabled(w, Settle(p, stored))
    ensures ActiveKept(Do(w, Settle(p, stored)))
  {
    var q, v := w.requests[p], Do(w, Settle(p, stored));
    SettledRows(w, p, stored);
    forall o | o in v.requests && Active(v.requests[o])
      ensures OwnsRow(v, v.requests[o]) && WonIfSucceeded(v, v.requests[o])
    {
      assert o != p && OwnsRow(w, w.requests[o]) && w.requests[o].key != q.key;
    }
  }

  lemma SettledWins(w: World, p: Pid, stored: bool)
    requires Inv(w) && Enabled(w, Settle(p, stored)) && InTime(w)
    ensures WinsKept(Do(w, Settle(p, stored)))
  {
    var q, v := w.requests[p], Do(w, Settle(p, stored));
    SettledRows(w, p, stored);
    forall x | x in w.wins && w.now < x.claimed + TTL
      ensures x.key in v.rows && v.rows[x.key].hash == x.hash && v.rows[x.key].expires == x.claimed + TTL
    {
      assert x.key in w.rows;
      if x.key == q.key {
        assert OwnsRow(w, q);
      }
    }
  }

  lemma SettledAfterWins(w: World, p: Pid, stored: bool)
    requires Inv(w) && Enabled(w, Settle(p, stored))
    ensures ActiveAfterWins(Do(w, Settle(p, stored)))
  {
    var v := Do(w, Settle(p, stored));
    assert forall o | o in v.requests && Active(v.requests[o]) :: o in w.requests && w.requests[o] == v.requests[o];
  }

  lemma SettledSnapshots(w: World, p: Pid, stored: bool)
    requires Inv(w) && Enabled(w, Settle(p, stored))
    ensures SnapshotsKept(Do(w, Settle(p, stored)))
  {
    var q, v := w.requests[p], Do(w, Settle(p, stored));
    SettledRows(w, p, stored);
    assert OwnsRow(w, q) && WonIfSucceeded(w, q);
    forall k | k in v.rows && v.rows[k].snapshot.Some?
      ensures Win(k, v.rows[k].hash, v.rows[k].expires - TTL, v.rows[k].snapshot.value) in v.wins
    {
      if k != q.key {
        assert k in w.rows;
      }
    }
  }

  lemma SettleKeeps(w: World, p: Pid, stored: bool)
    requires Inv(w) && Enabled(w, Settle(p, stored)) && InTime(w)
    ensures Inv(Do(w, Settle(p, stored)))
  {
    SettledActive(w, p, stored);
    SettledWins(w, p, stored);
    SettledAfterWins(w, p, stored);
    SettledSnapshots(w, p, stored);
  }

  lemma StepKeeps(w: World, a: Action)
    requires Inv(w) && Enabled(w, a) && InTime(w)
    ensures Inv(Do(w, a))
  {
    match a
    case Tick => TickKeeps(w);
    case Arrive(_, _, _) => ArriveKeeps(w, a);
    case Look(p) => LookKeeps(w, p);
    case Vanish(p) => VanishKeeps(w, p);
    case Retire(p) => RetireKeeps(w, p);
    case Prune => PruneKeeps(w);
    case Insert(p) => InsertKeeps(w, p);
    case Finish(p, r) => FinishKeeps(w, p, r);
    case Settle(p, stored) => SettleKeeps(w, p, stored);
  }

  ghost predicate IsTrace(worlds: seq<World>, log: seq<Action>) {
    && |worlds| == |log| + 1
    && forall i {:trigger log[i]} | 0 <= i < |log| ::
         Enabled(worlds[i], log[i]) && worlds[i + 1] == Do(worlds[i], log[i])
  }

  /** A run from an empty table in which every handler is in time. */
  ghost predicate IsRun(worlds: seq<World>, log: seq<Action>) {
    IsTrace(worlds, log) && Initial(worlds[0]) && forall w | w in worlds :: InTime(w)
  }

  lemma {:induction false} RunKeeps(worlds: seq<World>, log: seq<Action>, i: nat)
    requires IsRun(worlds, log) && i <= |log|
    ensures Inv(worlds[i])
    decreases i
  {
    if i == 0 {
      InitialInv(worlds[0]);
    } else {
      RunKeeps(worlds, log, i - 1);
      assert log[i - 1] == log[i - 1] && worlds[i - 1] in worlds;
      StepKeeps(worlds[i - 1], log[i - 1]);
    }
  }
}
