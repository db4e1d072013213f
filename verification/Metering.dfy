/**
 One accounting cycle: the counters every peer reports, folded into device rows
 and user rows inside one transaction.
 */
module Metering {
  import opened Wrappers
  import opened Int64
  import opened Sums
  import opened Quota

  type PeerKey = string

  /** A device row; counters are int64 columns. */
  datatype Device = Device(
    user: UserId,
    lastRX: int, lastTX: int,
    rx: int, tx: int,
    handshake: Option<int>,
    endpoint: string)

  /** What a dump reports of one peer; counters are uint64, no handshake is None. */
  datatype Peer = Peer(rx: int, tx: int, handshake: Option<int>, endpoint: string)

  datatype Report = Report(deltas: nat, rx: int, tx: int, activated: nat, tripped: nat)

  /** What the cycle gathers for one user. */
  datatype Tally = Tally(rx: int, tx: int, activity: Option<int>, observed: bool)

  predicate ValidPeer(p: Peer) {
    0 <= p.rx < TWO64 && 0 <= p.tx < TWO64
  }

  /** The row scans into unsigned counters. */
  predicate Readable(d: Device) {
    0 <= d.lastRX <= MAX && 0 <= d.lastTX <= MAX && 0 <= d.rx <= MAX && 0 <= d.tx <= MAX
  }

  /** A decreasing counter was reset: count it from zero. */
  function Delta(last: int, cur: int): int {
    if cur < last then cur else cur - last
  }

  predicate Newer(h: Option<int>, known: Option<int>) {
    h.Some? && (known.None? || h.value > known.value)
  }

  /** Idle devices are not written at all. */
  predicate Touched(d: Device, p: Peer) {
    || Delta(d.lastRX, p.rx) != 0 || Delta(d.lastTX, p.tx) != 0
    || Newer(p.handshake, d.handshake)
    || (p.endpoint != "" && p.endpoint != d.endpoint)
  }

  /** The device row after the cycle saw `p`. */
  function Metered(d: Device, p: Peer): Device {
    if !Touched(d, p) then d
    else d.(
      rx := Wrap(U64(d.rx + Delta(d.lastRX, p.rx))), tx := Wrap(U64(d.tx + Delta(d.lastTX, p.tx))),
      lastRX := Wrap(p.rx), lastTX := Wrap(p.tx),
      handshake := if Newer(p.handshake, d.handshake) then p.handshake else d.handshake,
      endpoint := if p.endpoint != "" then p.endpoint else d.endpoint)
  }

  // ---- what a cycle must produce ---------------------------------------------------

  ghost function Owners(devices: map<PeerKey, Device>): map<PeerKey, UserId> {
    map k | k in devices :: devices[k].user
  }

  ghost function ChargesRX(devices: map<PeerKey, Device>, seen: map<PeerKey, Peer>): map<PeerKey, int> {
    map k | k in seen && k in devices :: Delta(devices[k].lastRX, seen[k].rx)
  }

  ghost function ChargesTX(devices: map<PeerKey, Device>, seen: map<PeerKey, Peer>): map<PeerKey, int> {
    map k | k in seen && k in devices :: Delta(devices[k].lastTX, seen[k].tx)
  }

  /** The sum of the device deltas of user `u`. */
  ghost function UserRX(devices: map<PeerKey, Device>, seen: map<PeerKey, Peer>, u: UserId): int {
    Sum(Part(ChargesRX(devices, seen), Owners(devices), u))
  }

  ghost function UserTX(devices: map<PeerKey, Device>, seen: map<PeerKey, Peer>, u: UserId): int {
    Sum(Part(ChargesTX(devices, seen), Owners(devices), u))
  }

  /** Handshakes of user `u` on the device rows this cycle touches. */
  ghost function Handshakes(devices: map<PeerKey, Device>, seen: map<PeerKey, Peer>, u: UserId): set<int> {
    set k | k in seen && k in devices && devices[k].user == u
            && Touched(devices[k], seen[k]) && seen[k].handshake.Some? :: seen[k].handshake.value
  }

  /** `a` is the latest of `known` and the handshakes `hs`. */
  ghost predicate IsLatest(a: Option<int>, known: Option<int>, hs: set<int>) {
    && (a == known || (a.Some? && a.value in hs))
    && (known.Some? ==> a.Some? && a.value >= known.value)
    && (forall h | h in hs :: a.Some? && a.value >= h)
  }

  ghost predicate Owns(devices: map<PeerKey, Device>, u: UserId) {
    exists k :: k in devices && devices[k].user == u
  }

  ghost function DevicesAfter(devices: map<PeerKey, Device>, seen: map<PeerKey, Peer>): map<PeerKey, Device> {
    map k | k in devices :: if k in seen then Metered(devices[k], seen[k]) else devices[k]
  }

  /** The row of user `u` is what the cycle must leave. */
  ghost predicate UserOk(devices: map<PeerKey, Device>, seen: map<PeerKey, Peer>, now: int, id: UserId,
                         before: User, after: User)
  {
    if Owns(devices, id) then
      && IsLatest(after.activity, before.activity, Handshakes(devices, seen, id))
      && after == AfterCycle(before, Wrap(UserRX(devices, seen, id)), Wrap(UserTX(devices, seen, id)),
                             after.activity, now)
    else
      after == before
  }

  predicate Moved(d: Device, p: Peer) {
    Delta(d.lastRX, p.rx) != 0 || Delta(d.lastTX, p.tx) != 0
  }

  ghost function Charged(devices: map<PeerKey, Device>, seen: map<PeerKey, Peer>): set<PeerKey> {
    set k | k in seen && k in devices && Moved(devices[k], seen[k])
  }

  /** The traffic half of the report. */
  ghost predicate TrafficOk(devices: map<PeerKey, Device>, seen: map<PeerKey, Peer>, rep: Report) {
    && rep.rx == U64(Sum(ChargesRX(devices, seen)))
    && rep.tx == U64(Sum(ChargesTX(devices, seen)))
    && rep.deltas == |Charged(devices, seen)|
  }

  predicate WasTripped(before: User, after: User) {
    !before.status.TrafficExceeded? && after.status.TrafficExceeded?
  }

  /** Everything a committed cycle says about rows and report. */
  ghost predicate CycleResult(devices: map<PeerKey, Device>, users: map<UserId, User>,
                              seen: map<PeerKey, Peer>, now: int,
                              devices': map<PeerKey, Device>, users': map<UserId, User>, rep: Report)
  {
    && devices' == DevicesAfter(devices, seen)
    && users'.Keys == users.Keys
    && (forall u | u in users :: UserOk(devices, seen, now, u, users[u], users'[u]))
    && TrafficOk(devices, seen, rep)
    && rep.activated == |set u | u in users && WaitedAndSaw(users[u], users'[u])|
    && rep.tripped == |set u | u in users && WasTripped(users[u], users'[u])|
  }

  /** First-connection activation happened to this row. */
  predicate WaitedAndSaw(before: User, after: User) {
    !before.deleted && before.status.WaitingFirstConnection? && after.activity != before.activity
  }

  // ---- order independence and conservation ---------------------------------------------

  lemma {:induction false} LatestAtMost(a: Option<int>, b: Option<int>, known: Option<int>, hs: set<int>)
    requires IsLatest(a, known, hs) && IsLatest(b, known, hs) && a.Some?
    ensures b.Some? && a.value <= b.value
  {
    if a != known {
      var h: int := a.value;
      assert h in hs;
    }
  }

  lemma LatestUnique(a: Option<int>, b: Option<int>, known: Option<int>, hs: set<int>)
    requires IsLatest(a, known, hs) && IsLatest(b, known, hs)
    ensures a == b
  {
    if a.Some? {
      LatestAtMost(a, b, known, hs);
    }
    if b.Some? {
      LatestAtMost(b, a, known, hs);
    }
  }

  /** Rows and report are a function of the input: no iteration order can show. */
  lemma CycleIsDeterministic(devices: map<PeerKey, Device>, users: map<UserId, User>,
                             seen: map<PeerKey, Peer>, now: int,
                             d1: map<PeerKey, Device>, u1: map<UserId, User>, r1: Report,
                             d2: map<PeerKey, Device>, u2: map<UserId, User>, r2: Report)
    requires CycleResult(devices, users, seen, now, d1, u1, r1)
    requires CycleResult(devices, users, seen, now, d2, u2, r2)
    ensures d1 == d2 && u1 == u2 && r1 == r2
  {
    forall u | u in users ensures u1[u] == u2[u] {
      assert UserOk(devices, seen, now, u, users[u], u1[u]);
      assert UserOk(devices, seen, now, u, users[u], u2[u]);
      if Owns(devices, u) {
        LatestUnique(u1[u].activity, u2[u].activity, users[u].activity, Handshakes(devices, seen, u));
      }
    }
    assert u1 == u2;
  }

  /** The user charges of a cycle add up to everything that was metered. */
  lemma CycleConserves(devices: map<PeerKey, Device>, users: map<UserId, User>, seen: map<PeerKey, Peer>)
    requires forall k | k in devices :: devices[k].user in users
    ensures Sum(map u | u in users :: UserRX(devices, seen, u)) == Sum(ChargesRX(devices, seen))
    ensures Sum(map u | u in users :: UserTX(devices, seen, u)) == Sum(ChargesTX(devices, seen))
  {
    SumOfParts(ChargesRX(devices, seen), Owners(devices), users.Keys);
    assert (map u | u in users :: UserRX(devices, seen, u))
        == PartSums(ChargesRX(devices, seen), Owners(devices), users.Keys);
    SumOfParts(ChargesTX(devices, seen), Owners(devices), users.Keys);
    assert (map u | u in users :: UserTX(devices, seen, u))
        == PartSums(ChargesTX(devices, seen), Owners(devices), users.Keys);
  }

  lemma UserChargeBounds(devices: map<PeerKey, Device>, seen: map<PeerKey, Peer>, u: UserId)
    requires forall k | k in devices :: Readable(devices[k])
    requires forall k | k in seen :: ValidPeer(seen[k])
    ensures UserRX(devices, seen, u) >= 0 && UserTX(devices, seen, u) >= 0
  {
    SumNonNegative(Part(ChargesRX(devices, seen), Owners(devices), u));
    SumNonNegative(Part(ChargesTX(devices, seen), Owners(devices), u));
  }

  /** After a cycle no live account with a device is at or over its limit. */
  lemma CycleEnforcesLimits(devices: map<PeerKey, Device>, users: map<UserId, User>,
                            seen: map<PeerKey, Peer>, now: int,
                            devices': map<PeerKey, Device>, users': map<UserId, User>, rep: Report, u: UserId)
    requires CycleResult(devices, users, seen, now, devices', users', rep)
    requires forall k | k in devices :: Readable(devices[k])
    requires forall k | k in seen :: ValidPeer(seen[k])
    requires u in users && Owns(devices, u) && ValidRow(users[u]) && !users[u].deleted && users[u].limit.Some?
    requires Used(users[u]) + UserRX(devices, seen, u) + UserTX(devices, seen, u) <= MAX
    ensures Used(users'[u]) == Used(users[u]) + UserRX(devices, seen, u) + UserTX(devices, seen, u)
    ensures Live(users'[u].status) ==> Used(users'[u]) < users'[u].limit.value
    ensures QuotaHolds(users[u]) ==> QuotaHolds(users'[u])
  {
    UserChargeBounds(devices, seen, u);
    CycleEnforces(users[u], UserRX(devices, seen, u), UserTX(devices, seen, u), users'[u].activity, now);
    assert UserOk(devices, seen, now, u, users[u], users'[u]);
  }

  /**
   A cycle charges each direction of a user's devices to the counter of that
   direction, and touches nobody else; the terms of an account stay.
   */
  lemma CycleCharges(devices: map<PeerKey, Device>, users: map<UserId, User>,
                     seen: map<PeerKey, Peer>, now: int,
                     devices': map<PeerKey, Device>, users': map<UserId, User>, rep: Report, u: UserId)
    requires CycleResult(devices, users, seen, now, devices', users', rep)
    requires forall k | k in devices :: Readable(devices[k])
    requires forall k | k in seen :: ValidPeer(seen[k])
    requires u in users && ValidRow(users[u])
    requires users[u].usedRX + UserRX(devices, seen, u) <= MAX && users[u].usedTX + UserTX(devices, seen, u) <= MAX
    ensures !Owns(devices, u) ==> users'[u] == users[u]
    ensures Owns(devices, u) ==>
      && users'[u].usedRX == users[u].usedRX + UserRX(devices, seen, u)
      && users'[u].usedTX == users[u].usedTX + UserTX(devices, seen, u)
    ensures users'[u].limit == users[u].limit && users'[u].policy == users[u].policy
    ensures users'[u].duration == users[u].duration && users'[u].deleted == users[u].deleted
    ensures users'[u].activatedAt ==
              if Connects(users[u], users'[u].activity) then Some(now) else users[u].activatedAt
  {
    UserChargeBounds(devices, seen, u);
    CycleStores(users[u], UserRX(devices, seen, u), UserTX(devices, seen, u), users'[u].activity, now);
    assert UserOk(devices, seen, now, u, users[u], users'[u]);
  }

  lemma NothingCharged(devices: map<PeerKey, Device>, u: UserId)
    ensures Sum(ChargesRX(devices, map[])) == 0 && Sum(ChargesTX(devices, map[])) == 0
    ensures UserRX(devices, map[], u) == 0 && UserTX(devices, map[], u) == 0
  {
    assert ChargesRX(devices, map[]) == map[] && ChargesTX(devices, map[]) == map[];
    assert Part(ChargesRX(devices, map[]), Owners(devices), u) == map[];
    assert Part(ChargesTX(devices, map[]), Owners(devices), u) == map[];
  }

  lemma OneCharge(devices: map<PeerKey, Device>, seen: map<PeerKey, Peer>, k: PeerKey)
    requires devices.Keys == {k} && seen.Keys == {k}
    ensures Sum(ChargesRX(devices, seen)) == Delta(devices[k].lastRX, seen[k].rx)
    ensures Sum(ChargesTX(devices, seen)) == Delta(devices[k].lastTX, seen[k].tx)
    ensures UserRX(devices, seen, devices[k].user) == Delta(devices[k].lastRX, seen[k].rx)
    ensures UserTX(devices, seen, devices[k].user) == Delta(devices[k].lastTX, seen[k].tx)
  {
    NothingCharged(devices, devices[k].user);
    FoldRX(devices, map[], k, seen[k], devices[k].user);
    FoldTX(devices, map[], k, seen[k], devices[k].user);
    assert map[][k := seen[k]] == seen;
  }

  /** A device row whose peer went on counting has all it reports, each direction in its own columns. */
  lemma MeteredOn(d: Device, p: Peer)
    requires Readable(d) && d.lastRX <= p.rx <= MAX && d.lastTX <= p.tx <= MAX
    requires d.rx + p.rx - d.lastRX <= MAX && d.tx + p.tx - d.lastTX <= MAX
    ensures Metered(d, p).rx == d.rx + p.rx - d.lastRX && Metered(d, p).lastRX == p.rx
    ensures Metered(d, p).tx == d.tx + p.tx - d.lastTX && Metered(d, p).lastTX == p.tx
    ensures Metered(d, p).user == d.user
    ensures Metered(d, p).endpoint == if p.endpoint != "" then p.endpoint else d.endpoint
    ensures IsLatest(Metered(d, p).handshake, d.handshake, if p.handshake.Some? then {p.handshake.value} else {})
  {
  }

  lemma OneDeviceReport(devices: map<PeerKey, Device>, seen: map<PeerKey, Peer>, rep: Report, k: PeerKey)
    requires TrafficOk(devices, seen, rep) && devices.Keys == {k} && seen.Keys == {k}
    requires Readable(devices[k]) && devices[k].lastRX <= seen[k].rx <= MAX && devices[k].lastTX <= seen[k].tx <= MAX
    ensures rep.rx == seen[k].rx - devices[k].lastRX && rep.tx == seen[k].tx - devices[k].lastTX
    ensures UserRX(devices, seen, devices[k].user) == rep.rx && UserTX(devices, seen, devices[k].user) == rep.tx
  {
    OneCharge(devices, seen, k);
  }

  /**
   A node with one device, in plain numbers: its counters, its user's counters and
   the report each grow by what its peer reports beyond the last reading.
   */
  lemma OneDevice(devices: map<PeerKey, Device>, users: map<UserId, User>, seen: map<PeerKey, Peer>, now: int,
                  devices': map<PeerKey, Device>, users': map<UserId, User>, rep: Report, k: PeerKey)
    requires CycleResult(devices, users, seen, now, devices', users', rep)
    requires devices.Keys == {k} && seen.Keys == {k} && devices[k].user in users
    requires Readable(devices[k]) && ValidRow(users[devices[k].user])
    requires devices[k].lastRX <= seen[k].rx <= MAX && devices[k].lastTX <= seen[k].tx <= MAX
    ensures k in devices' && devices'[k] == Metered(devices[k], seen[k])
    ensures rep.rx == seen[k].rx - devices[k].lastRX && rep.tx == seen[k].tx - devices[k].lastTX
    ensures var u, v := users[devices[k].user], users'[devices[k].user];
            && (u.usedRX + rep.rx <= MAX && u.usedTX + rep.tx <= MAX ==>
                  v.usedRX == u.usedRX + rep.rx && v.usedTX == u.usedTX + rep.tx)
  {
    OneDeviceReport(devices, seen, rep, k);
    var u := users[devices[k].user];
    if u.usedRX + rep.rx <= MAX && u.usedTX + rep.tx <= MAX {
      CycleCharges(devices, users, seen, now, devices', users', rep, devices[k].user);
    }
  }

  // ---- resetting a user ------------------------------------------------------------------

  /** The totals of every device of `u` at zero, its baselines as they are. */
  function ZeroTotals(devices: map<PeerKey, Device>, u: UserId): map<PeerKey, Device> {
    map k | k in devices :: if devices[k].user == u then devices[k].(rx := 0, tx := 0) else devices[k]
  }

  /**
   A reset loses and repeats nothing: the next cycle charges every user what it
   would have charged without the reset, and a device of the reset user has then
   exactly the bytes of that cycle.
   */
  lemma ResetContinuesCleanly(devices: map<PeerKey, Device>, seen: map<PeerKey, Peer>, u: UserId, v: UserId, k: PeerKey)
    requires k in devices && k in seen && Readable(devices[k]) && ValidPeer(seen[k])
    ensures UserRX(ZeroTotals(devices, u), seen, v) == UserRX(devices, seen, v)
    ensures UserTX(ZeroTotals(devices, u), seen, v) == UserTX(devices, seen, v)
    ensures var d := DevicesAfter(ZeroTotals(devices, u), seen)[k];
            if devices[k].user != u then d == DevicesAfter(devices, seen)[k]
            else
              && d.rx == Wrap(Delta(devices[k].lastRX, seen[k].rx)) && d.tx == Wrap(Delta(devices[k].lastTX, seen[k].tx))
              && d.lastRX == DevicesAfter(devices, seen)[k].lastRX && d.lastTX == DevicesAfter(devices, seen)[k].lastTX
  {
    var zeroed := ZeroTotals(devices, u);
    assert Owners(zeroed) == Owners(devices);
    assert ChargesRX(zeroed, seen) == ChargesRX(devices, seen);
    assert ChargesTX(zeroed, seen) == ChargesTX(devices, seen);
    assert zeroed[k].user == devices[k].user;
  }

  // ---- the fold over peers ---------------------------------------------------------------

  /** Peers without a device row change nothing. */
  lemma UnknownPeer(devices: map<PeerKey, Device>, seen: map<PeerKey, Peer>, k: PeerKey, p: Peer)
    requires k !in devices
    ensures ChargesRX(devices, seen[k := p]) == ChargesRX(devices, seen)
    ensures ChargesTX(devices, seen[k := p]) == ChargesTX(devices, seen)
    ensures Charged(devices, seen[k := p]) == Charged(devices, seen)
    ensures forall u :: Handshakes(devices, seen[k := p], u) == Handshakes(devices, seen, u)
    ensures DevicesAfter(devices, seen[k := p]) == DevicesAfter(devices, seen)
  {
  }

  /** One more peer adds its received bytes to its own user and to the total. */
  lemma FoldRX(devices: map<PeerKey, Device>, seen: map<PeerKey, Peer>, k: PeerKey, p: Peer, u: UserId)
    requires k in devices && k !in seen
    ensures var d := Delta(devices[k].lastRX, p.rx);
            && Sum(ChargesRX(devices, seen[k := p])) == Sum(ChargesRX(devices, seen)) + d
            && UserRX(devices, seen[k := p], u) == UserRX(devices, seen, u) + if u == devices[k].user then d else 0
  {
    var d := Delta(devices[k].lastRX, p.rx);
    PartPut(ChargesRX(devices, seen), Owners(devices), k, d, u);
    assert ChargesRX(devices, seen[k := p]) == ChargesRX(devices, seen)[k := d];
  }

  lemma FoldTX(devices: map<PeerKey, Device>, seen: map<PeerKey, Peer>, k: PeerKey, p: Peer, u: UserId)
    requires k in devices && k !in seen
    ensures var d := Delta(devices[k].lastTX, p.tx);
            && Sum(ChargesTX(devices, seen[k := p])) == Sum(ChargesTX(devices, seen)) + d
            && UserTX(devices, seen[k := p], u) == UserTX(devices, seen, u) + if u == devices[k].user then d else 0
  {
    var d := Delta(devices[k].lastTX, p.tx);
    PartPut(ChargesTX(devices, seen), Owners(devices), k, d, u);
    assert ChargesTX(devices, seen[k := p]) == ChargesTX(devices, seen)[k := d];
  }

  /** What one more peer adds to the sums of one user. */
  lemma FoldUser(devices: map<PeerKey, Device>, seen: map<PeerKey, Peer>, k: PeerKey, p: Peer, u: UserId)
    requires k in devices && k !in seen
    ensures UserRX(devices, seen[k := p], u)
         == UserRX(devices, seen, u) + if u == devices[k].user then Delta(devices[k].lastRX, p.rx) else 0
    ensures UserTX(devices, seen[k := p], u)
         == UserTX(devices, seen, u) + if u == devices[k].user then Delta(devices[k].lastTX, p.tx) else 0
  {
    FoldRX(devices, seen, k, p, u);
    FoldTX(devices, seen, k, p, u);
  }

  lemma FoldHandshakes(devices: map<PeerKey, Device>, seen: map<PeerKey, Peer>, k: PeerKey, p: Peer)
    requires k in devices && k !in seen && Touched(devices[k], p)
    ensures Handshakes(devices, seen[k := p], devices[k].user)
         == Handshakes(devices, seen, devices[k].user) + if p.handshake.Some? then {p.handshake.value} else {}
  {
    var seen', u := seen[k := p], devices[k].user;
    forall h | h in Handshakes(devices, seen, u) ensures h in Handshakes(devices, seen', u) {
      var j :| j in seen && j in devices && devices[j].user == u
               && Touched(devices[j], seen[j]) && seen[j].handshake == Some(h);
      assert j in seen' && seen'[j] == seen[j];
    }
    if p.handshake.Some? {
      assert k in seen' && seen'[k] == p;
    }
  }

  lemma KeepHandshakes(devices: map<PeerKey, Device>, seen: map<PeerKey, Peer>, k: PeerKey, p: Peer, u: UserId)
    requires k in devices && k !in seen && (u != devices[k].user || !Touched(devices[k], p))
    ensures Handshakes(devices, seen[k := p], u) == Handshakes(devices, seen, u)
  {
    var seen' := seen[k := p];
    forall h | h in Handshakes(devices, seen, u) ensures h in Handshakes(devices, seen', u) {
      var j :| j in seen && j in devices && devices[j].user == u
               && Touched(devices[j], seen[j]) && seen[j].handshake == Some(h);
      assert j in seen' && seen'[j] == seen[j];
    }
  }

  lemma FoldCharged(devices: map<PeerKey, Device>, seen: map<PeerKey, Peer>, k: PeerKey, p: Peer)
    requires k in devices && k !in seen
    ensures |Charged(devices, seen[k := p])| == |Charged(devices, seen)| + if Moved(devices[k], p) then 1 else 0
  {
    var was, now := Charged(devices, seen), Charged(devices, seen[k := p]);
    if Moved(devices[k], p) {
      assert now == was + {k};
    } else {
      assert now == was;
    }
  }

  /** A tally of `rx` and `tx` bytes with the handshakes `hs`. */
  ghost predicate Tallies(t: Tally, rx: int, tx: int, known: Option<int>, hs: set<int>) {
    && t.rx == Wrap(rx)
    && t.tx == Wrap(tx)
    && IsLatest(t.activity, known, hs)
    && (t.observed <==> t.activity != known)
  }

  /** The tally of one user after the peers `seen`. */
  ghost predicate TallyOk(devices: map<PeerKey, Device>, seen: map<PeerKey, Peer>, u: UserId, known: Option<int>, t: Tally) {
    Tallies(t, UserRX(devices, seen, u), UserTX(devices, seen, u), known, Handshakes(devices, seen, u))
  }

  /** What one peer of a known device adds to its user's tally. */
  function TallyWith(t: Tally, d: Device, p: Peer): Tally {
    if !Touched(d, p) then t
    else
      var newer := Newer(p.handshake, t.activity);
      Tally(Wrap(t.rx + Wrap(Delta(d.lastRX, p.rx))), Wrap(t.tx + Wrap(Delta(d.lastTX, p.tx))),
            if newer then p.handshake else t.activity, t.observed || newer)
  }

  lemma LatestStep(a: Option<int>, known: Option<int>, hs: set<int>, h: int)
    requires IsLatest(a, known, hs)
    ensures IsLatest(if Newer(Some(h), a) then Some(h) else a, known, hs + {h})
    ensures Newer(Some(h), a) ==> Some(h) != known
  {
  }

  lemma TallyPeer(t: Tally, rx: int, tx: int, known: Option<int>, hs: set<int>, d: Device, p: Peer,
                  rx': int, tx': int, hs': set<int>)
    requires Tallies(t, rx, tx, known, hs) && Touched(d, p)
    requires rx' == rx + Delta(d.lastRX, p.rx) && tx' == tx + Delta(d.lastTX, p.tx)
    requires hs' == hs + if p.handshake.Some? then {p.handshake.value} else {}
    ensures Tallies(TallyWith(t, d, p), rx', tx', known, hs')
  {
    WrapAdd(rx, Delta(d.lastRX, p.rx));
    WrapAdd(tx, Delta(d.lastTX, p.tx));
    if p.handshake.Some? {
      LatestStep(t.activity, known, hs, p.handshake.value);
    } else {
      assert hs' == hs;
    }
  }

  /** A touched device of user `u` itself. */
  lemma TallyOwn(devices: map<PeerKey, Device>, seen: map<PeerKey, Peer>, k: PeerKey, p: Peer,
                 known: Option<int>, t: Tally)
    requires k in devices && k !in seen && Touched(devices[k], p)
    requires TallyOk(devices, seen, devices[k].user, known, t)
    ensures TallyOk(devices, seen[k := p], devices[k].user, known, TallyWith(t, devices[k], p))
  {
    var u := devices[k].user;
    FoldUser(devices, seen, k, p, u);
    FoldHandshakes(devices, seen, k, p);
    TallyPeer(t, UserRX(devices, seen, u), UserTX(devices, seen, u), known, Handshakes(devices, seen, u), devices[k], p,
              UserRX(devices, seen[k := p], u), UserTX(devices, seen[k := p], u), Handshakes(devices, seen[k := p], u));
  }

  /** Idle devices and devices of others leave the tally of `u` alone. */
  lemma TallyOther(devices: map<PeerKey, Device>, seen: map<PeerKey, Peer>, k: PeerKey, p: Peer,
                   u: UserId, known: Option<int>, t: Tally)
    requires k in devices && k !in seen && (u != devices[k].user || !Touched(devices[k], p))
    requires TallyOk(devices, seen, u, known, t)
    ensures TallyOk(devices, seen[k := p], u, known, t)
  {
    FoldUser(devices, seen, k, p, u);
    assert !Touched(devices[k], p) ==> Delta(devices[k].lastRX, p.rx) == 0 && Delta(devices[k].lastTX, p.tx) == 0;
    KeepHandshakes(devices, seen, k, p, u);
  }
}
