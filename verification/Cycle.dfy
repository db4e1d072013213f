/** The cycle transaction: two loops over peers and users in no particular order. */
module Cycle {
  import opened Wrappers
  import opened Int64
  import opened Sums
  import opened Quota
  import opened Metering

  class Meter {
    var devices: map<PeerKey, Device>
    var users: map<UserId, User>

    constructor (devices: map<PeerKey, Device>, users: map<UserId, User>)
      ensures this.devices == devices && this.users == users
    {
      this.devices, this.users := devices, users;
    }

    /** Foreign keys and column widths of the two tables. */
    ghost predicate Valid()
      reads this
    {
      && (forall k | k in devices :: devices[k].user in users)
      && (forall u | u in users :: InRange(users[u].usedRX) && InRange(users[u].usedTX))
    }

    // ---- one peer --------------------------------------------------------------------

    /** The row of a device after `p`, and whether anything in it changed. */
    static method Refresh(d: Device, p: Peer) returns (d': Device, changed: bool)
      ensures changed <==> Touched(d, p)
      ensures d' == Metered(d, p)
    {
      var dRX, dTX := Delta(d.lastRX, p.rx), Delta(d.lastTX, p.tx);
      var newRX, newTX := U64(d.rx + dRX), U64(d.tx + dTX);
      var handshake, handshakeChanged := d.handshake, false;
      if p.handshake.Some? && (handshake.None? || p.handshake.value > handshake.value) {
        handshake, handshakeChanged := p.handshake, true;
      }
      var endpoint := d.endpoint;
      if p.endpoint != "" && p.endpoint != endpoint {
        endpoint := p.endpoint;
      }
      changed := dRX != 0 || dTX != 0 || handshakeChanged || endpoint != d.endpoint;
      d' := if changed then Device(d.user, Wrap(p.rx), Wrap(p.tx), Wrap(newRX), Wrap(newTX), handshake, endpoint) else d;
    }

    /** The tally of its user after a peer that changed the row. */
    static method AddToTally(t: Tally, d: Device, p: Peer) returns (t': Tally)
      requires InRange(t.rx) && InRange(t.tx) && Touched(d, p)
      ensures t' == TallyWith(t, d, p)
    {
      var dRX, dTX := Delta(d.lastRX, p.rx), Delta(d.lastTX, p.tx);
      t' := t;
      if dRX != 0 || dTX != 0 {
        t' := t'.(rx := Wrap(t'.rx + Wrap(dRX)), tx := Wrap(t'.tx + Wrap(dTX)));
      }
      if p.handshake.Some? && (t'.activity.None? || p.handshake.value > t'.activity.value) {
        t' := t'.(activity := p.handshake, observed := true);
      }
    }

    /** Folds the peer of a known device into its row and its user's tally. */
    method MeterPeer(k: PeerKey, p: Peer, t: Tally) returns (t': Tally, dRX: int, dTX: int)
      requires k in devices && Readable(devices[k]) && ValidPeer(p) && InRange(t.rx) && InRange(t.tx)
      modifies this`devices
      ensures devices == old(devices)[k := Metered(old(devices)[k], p)]
      ensures t' == TallyWith(t, old(devices)[k], p)
      ensures dRX == Delta(old(devices)[k].lastRX, p.rx) && dTX == Delta(old(devices)[k].lastTX, p.tx)
    {
      var d := devices[k];
      dRX, dTX := Delta(d.lastRX, p.rx), Delta(d.lastTX, p.tx);
      var d', changed := Refresh(d, p);
      if !changed {
        assert devices == devices[k := d];
        t' := t;
        return;
      }
      devices := devices[k := d'];
      t' := AddToTally(t, d, p);
    }

    /** One round of the peer loop; unknown peers are the drift policy's business. */
    method MeterOne(k: PeerKey, p: Peer, tallies: map<UserId, Tally>, rep: Report)
      returns (tallies': map<UserId, Tally>, rep': Report)
      requires k in devices ==> Readable(devices[k]) && devices[k].user in tallies
      requires forall u | u in tallies :: InRange(tallies[u].rx) && InRange(tallies[u].tx)
      requires ValidPeer(p)
      modifies this`devices
      ensures k !in old(devices) ==> devices == old(devices) && tallies' == tallies && rep' == rep
      ensures k in old(devices) ==>
        var d := old(devices)[k];
        && devices == old(devices)[k := Metered(d, p)]
        && tallies' == tallies[d.user := TallyWith(tallies[d.user], d, p)]
        && rep' == ReportWith(rep, d, p)
    {
      tallies', rep' := tallies, rep;
      if k !in devices {
        return;
      }
      var u := devices[k].user;
      var t', dRX, dTX := MeterPeer(k, p, tallies[u]);
      tallies' := tallies[u := t'];
      if dRX != 0 || dTX != 0 {
        rep' := rep.(deltas := rep.deltas + 1, rx := U64(rep.rx + dRX), tx := U64(rep.tx + dTX));
      }
    }

    /** Folds every observed peer, in whatever order the map yields them. */
    method MeterPeers(observed: map<PeerKey, Peer>, owners: set<UserId>)
      returns (tallies: map<UserId, Tally>, rep: Report)
      requires owners == (set k | k in devices :: devices[k].user) && owners <= users.Keys
      requires forall k | k in devices :: Readable(devices[k])
      requires forall k | k in observed :: ValidPeer(observed[k])
      modifies this`devices
      ensures Progress(old(devices), observed, owners, users, devices, tallies, rep)
    {
      ghost var before, seen := devices, map[];
      tallies := map u | u in owners :: Tally(0, 0, users[u].activity, false);
      rep := Report(0, 0, 0, 0, 0);
      NothingSeen(before, owners, users, tallies, rep);
      var todo := observed.Keys;
      while todo != {}
        invariant todo <= observed.Keys && seen.Keys == observed.Keys - todo
        invariant forall k | k in seen :: seen[k] == observed[k]
        invariant Progress(before, seen, owners, users, devices, tallies, rep)
        decreases todo
      {
        var k :| k in todo;
        todo := todo - {k};
        ProgressNext(before, seen, owners, users, devices, tallies, rep, k, observed[k]);
        tallies, rep := MeterOne(k, observed[k], tallies, rep);
        seen := seen[k := observed[k]];
      }
      assert seen == observed;
    }

    // ---- one user --------------------------------------------------------------------

    /** First-connection activation by a fresh handshake. */
    static method Wake(u: User, t: Tally, now: int) returns (v: User, activated: bool)
      ensures activated <==> !u.deleted && u.status.WaitingFirstConnection? && t.observed
      ensures v == if activated then Activated(u, now) else u
    {
      v, activated := u, false;
      if !u.deleted && u.status.WaitingFirstConnection? && t.observed {
        v := v.(status := Active, activatedAt := Some(now));
        if v.duration.Some? {
          v := v.(expiresAt := Some(now + v.duration.value));
        }
        activated := true;
      }
    }

    /** The quota edge, on the counters the row is about to have. */
    static method Edge(u: User, t: Tally) returns (v: User, tripped: bool)
      ensures tripped <==>
                && !u.deleted && u.limit.Some? && Live(u.status)
                && Wrap(u.usedRX + t.rx + u.usedTX + t.tx) >= u.limit.value
      ensures v == if tripped then u.(status := TrafficExceeded) else u
    {
      v, tripped := u, false;
      var total := Wrap(u.usedRX + t.rx + u.usedTX + t.tx);
      if !u.deleted && u.limit.Some? && total >= u.limit.value
         && (u.status.Active? || u.status.WaitingFirstConnection?) {
        v := v.(status := TrafficExceeded);
        tripped := true;
      }
    }

    /** Activation, quota edge and the single write of one user row. */
    method ChargeUser(id: UserId, t: Tally, now: int) returns (activated: bool, tripped: bool)
      requires id in users && InRange(users[id].usedRX) && InRange(users[id].usedTX)
      requires InRange(t.rx) && InRange(t.tx) && (t.observed <==> t.activity != users[id].activity)
      modifies this`users
      ensures users == old(users)[id := AfterCycle(old(users)[id], t.rx, t.tx, t.activity, now)]
      ensures activated == WaitedAndSaw(old(users)[id], users[id])
      ensures tripped == WasTripped(old(users)[id], users[id])
    {
      var u;
      u, activated := Wake(users[id], t, now);
      u, tripped := Edge(u, t);
      ghost var after := u.(usedRX := Wrap(u.usedRX + t.rx), usedTX := Wrap(u.usedTX + t.tx), activity := t.activity);
      assert after == AfterCycle(users[id], t.rx, t.tx, t.activity, now);
      if t.rx == 0 && t.tx == 0 && !activated && !tripped && !t.observed {
        assert after == users[id] && users == users[id := users[id]];
        return;
      }
      users := users[id := u.(usedRX := Wrap(u.usedRX + t.rx), usedTX := Wrap(u.usedTX + t.tx), activity := t.activity)];
    }

    /** Charges every owner, in whatever order. */
    method ChargeUsers(owners: set<UserId>, tallies: map<UserId, Tally>, now: int)
      returns (activated: nat, tripped: nat)
      requires owners <= users.Keys && tallies.Keys == owners
      requires forall u | u in users :: InRange(users[u].usedRX) && InRange(users[u].usedTX)
      requires forall u | u in owners ::
        InRange(tallies[u].rx) && InRange(tallies[u].tx) && (tallies[u].observed <==> tallies[u].activity != users[u].activity)
      modifies this`users
      ensures users == UsersAfter(old(users), owners, tallies, now)
      ensures activated == |Woken(old(users), owners, tallies, now)|
      ensures tripped == |Cut(old(users), owners, tallies, now)|
    {
      ghost var before := users;
      ghost var done: set<UserId> := {};
      activated, tripped := 0, 0;
      var todo := owners;
      assert Woken(before, {}, tallies, now) == {} && Cut(before, {}, tallies, now) == {};
      while todo != {}
        invariant todo <= owners && done == owners - todo
        invariant users == UsersAfter(before, done, tallies, now)
        invariant activated == |Woken(before, done, tallies, now)| && tripped == |Cut(before, done, tallies, now)|
        decreases todo
      {
        var u :| u in todo;
        UsersStep(before, done, tallies, now, u);
        WokenStep(before, done, tallies, now, u);
        CutStep(before, done, tallies, now, u);
        var a, t := ChargeUser(u, tallies[u], now);
        activated := activated + if a then 1 else 0;
        tripped := tripped + if t then 1 else 0;
        todo, done := todo - {u}, done + {u};
      }
      assert done == owners;
    }

    // ---- the reset ---------------------------------------------------------------------

    /** A live user with this id. */
    predicate Known(id: UserId)
      reads this
    {
      id in users && !users[id].deleted
    }

    /** ResetTraffic: the charged counters of the user and the totals of its devices, in one transaction. */
    method ResetTraffic(id: UserId) returns (r: Result<(), TrafficError>)
      requires Valid()
      modifies this
      ensures Valid()
      ensures r.Ok? <==> old(Known(id))
      ensures r.Err? ==> r == Err(UserNotFound) && users == old(users) && devices == old(devices)
      ensures r.Ok? ==>
                && users == old(users)[id := AfterReset(old(users)[id])]
                && devices == ZeroTotals(old(devices), id)
    {
      if id !in users || users[id].deleted {
        return Err(UserNotFound);
      }
      var u := users[id];
      var status := u.status;
      if u.status.TrafficExceeded? {
        if u.activatedAt.None? && u.policy.FirstConnection? {
          status := WaitingFirstConnection;
        } else {
          status := Active;
        }
      }
      users := users[id := u.(usedRX := 0, usedTX := 0, status := status)];
      devices := ZeroTotals(devices, id);
      r := Ok(());
    }

    // ---- the transaction -----------------------------------------------------------------

    /**
     cycleTx: rows and report as the specification says, or (when a stored
     counter cannot be read as unsigned) an error and no change at all.
     */
    method CycleTx(observed: map<PeerKey, Peer>, now: int) returns (r: Result<Report, ()>)
      requires Valid()
      requires forall k | k in observed :: ValidPeer(observed[k])
      modifies this
      ensures r.Err? <==> exists k :: k in old(devices) && !Readable(old(devices)[k])
      ensures r.Err? ==> devices == old(devices) && users == old(users)
      ensures r.Ok? ==> CycleResult(old(devices), old(users), observed, now, devices, users, r.value)
    {
      if exists k | k in devices :: !Readable(devices[k]) {
        return Err(());
      }
      ghost var devices0, users0 := devices, users;
      var owners := set k | k in devices :: devices[k].user;
      var tallies, rep := MeterPeers(observed, owners);
      var activated, tripped := ChargeUsers(owners, tallies, now);
      rep := rep.(activated := activated, tripped := tripped);
      CycleAssembled(devices0, users0, observed, now, owners, tallies, rep);
      r := Ok(rep);
    }
  }

  // ---- the peer loop ------------------------------------------------------------------------

  function ReportWith(rep: Report, d: Device, p: Peer): Report {
    var rx, tx := Delta(d.lastRX, p.rx), Delta(d.lastTX, p.tx);
    if rx != 0 || tx != 0
    then rep.(deltas := rep.deltas + 1, rx := U64(rep.rx + rx), tx := U64(rep.tx + tx))
    else rep
  }

  /** Every owner's tally is the one after the peers `seen`. */
  ghost predicate TalliesOk(before: map<PeerKey, Device>, seen: map<PeerKey, Peer>, owners: set<UserId>,
                            users: map<UserId, User>, tallies: map<UserId, Tally>)
    requires owners <= users.Keys && owners <= tallies.Keys
  {
    forall u | u in owners :: TallyOk(before, seen, u, users[u].activity, tallies[u])
  }

  /** Rows, tallies and report once the peers `seen` were folded in. */
  ghost predicate Progress(before: map<PeerKey, Device>, seen: map<PeerKey, Peer>, owners: set<UserId>,
                           users: map<UserId, User>, devices: map<PeerKey, Device>,
                           tallies: map<UserId, Tally>, rep: Report)
    requires owners <= users.Keys
  {
    && devices == DevicesAfter(before, seen)
    && tallies.Keys == owners
    && TalliesOk(before, seen, owners, users, tallies)
    && TrafficOk(before, seen, rep) && rep.activated == 0 && rep.tripped == 0
  }

  lemma ProgressKnown(before: map<PeerKey, Device>, seen: map<PeerKey, Peer>, owners: set<UserId>,
                      users: map<UserId, User>, devices: map<PeerKey, Device>,
                      tallies: map<UserId, Tally>, rep: Report, k: PeerKey, p: Peer)
    requires owners <= users.Keys && k !in seen && k in before && before[k].user in owners
    requires Progress(before, seen, owners, users, devices, tallies, rep)
    ensures k in devices && devices[k] == before[k]
    ensures var d := before[k];
            Progress(before, seen[k := p], owners, users, devices[k := Metered(d, p)],
                     tallies[d.user := TallyWith(tallies[d.user], d, p)], ReportWith(rep, d, p))
  {
    DevicesStep(before, seen, k, p);
    TalliesStep(before, seen, k, p, owners, users, tallies);
    TrafficStep(before, seen, k, p, rep);
  }

  lemma ProgressUnknown(before: map<PeerKey, Device>, seen: map<PeerKey, Peer>, owners: set<UserId>,
                        users: map<UserId, User>, devices: map<PeerKey, Device>,
                        tallies: map<UserId, Tally>, rep: Report, k: PeerKey, p: Peer)
    requires owners <= users.Keys && k !in seen && k !in before
    requires Progress(before, seen, owners, users, devices, tallies, rep)
    ensures k !in devices && Progress(before, seen[k := p], owners, users, devices, tallies, rep)
  {
    UnknownPeer(before, seen, k, p);
    UnknownTallies(before, seen, k, p, owners, users, tallies);
  }

  /** What the next round may rely on and what it leads to. */
  lemma ProgressNext(before: map<PeerKey, Device>, seen: map<PeerKey, Peer>, owners: set<UserId>,
                     users: map<UserId, User>, devices: map<PeerKey, Device>,
                     tallies: map<UserId, Tally>, rep: Report, k: PeerKey, p: Peer)
    requires owners == (set j | j in before :: before[j].user) && owners <= users.Keys && k !in seen
    requires Progress(before, seen, owners, users, devices, tallies, rep)
    ensures k in devices <==> k in before
    ensures k in before ==> devices[k] == before[k] && before[k].user in owners
    ensures k !in before ==> Progress(before, seen[k := p], owners, users, devices, tallies, rep)
    ensures k in before ==>
      var d := before[k];
      Progress(before, seen[k := p], owners, users, devices[k := Metered(d, p)],
               tallies[d.user := TallyWith(tallies[d.user], d, p)], ReportWith(rep, d, p))
  {
    if k in before {
      assert before[k].user in owners;
      ProgressKnown(before, seen, owners, users, devices, tallies, rep, k, p);
    } else {
      ProgressUnknown(before, seen, owners, users, devices, tallies, rep, k, p);
    }
  }

  // ---- steps of the two loops ---------------------------------------------------------------

  /** The users table once the users in `done` were charged. */
  ghost function UsersAfter(users: map<UserId, User>, done: set<UserId>, tallies: map<UserId, Tally>, now: int): map<UserId, User>
    requires done <= tallies.Keys
  {
    map u | u in users ::
      if u in done then AfterCycle(users[u], tallies[u].rx, tallies[u].tx, tallies[u].activity, now) else users[u]
  }

  /** The row of `u` once it was charged. */
  ghost function Charge(users: map<UserId, User>, tallies: map<UserId, Tally>, now: int, u: UserId): User
    requires u in users && u in tallies
  {
    AfterCycle(users[u], tallies[u].rx, tallies[u].tx, tallies[u].activity, now)
  }

  ghost function Woken(users: map<UserId, User>, done: set<UserId>, tallies: map<UserId, Tally>, now: int): set<UserId>
    requires done <= users.Keys && done <= tallies.Keys
  {
    set u | u in done && WaitedAndSaw(users[u], Charge(users, tallies, now, u))
  }

  ghost function Cut(users: map<UserId, User>, done: set<UserId>, tallies: map<UserId, Tally>, now: int): set<UserId>
    requires done <= users.Keys && done <= tallies.Keys
  {
    set u | u in done && WasTripped(users[u], Charge(users, tallies, now, u))
  }

  lemma UsersStep(users: map<UserId, User>, done: set<UserId>, tallies: map<UserId, Tally>, now: int, u: UserId)
    requires done <= users.Keys && done <= tallies.Keys && u in users && u in tallies && u !in done
    ensures UsersAfter(users, done, tallies, now)[u] == users[u]
    ensures UsersAfter(users, done + {u}, tallies, now)
         == UsersAfter(users, done, tallies, now)[u := Charge(users, tallies, now, u)]
  {
  }

  lemma WokenStep(users: map<UserId, User>, done: set<UserId>, tallies: map<UserId, Tally>, now: int, u: UserId)
    requires done <= users.Keys && done <= tallies.Keys && u in users && u in tallies && u !in done
    ensures |Woken(users, done + {u}, tallies, now)|
         == |Woken(users, done, tallies, now)| + if WaitedAndSaw(users[u], Charge(users, tallies, now, u)) then 1 else 0
  {
    assert Woken(users, done + {u}, tallies, now)
        == Woken(users, done, tallies, now) + if WaitedAndSaw(users[u], Charge(users, tallies, now, u)) then {u} else {};
  }

  lemma CutStep(users: map<UserId, User>, done: set<UserId>, tallies: map<UserId, Tally>, now: int, u: UserId)
    requires done <= users.Keys && done <= tallies.Keys && u in users && u in tallies && u !in done
    ensures |Cut(users, done + {u}, tallies, now)|
         == |Cut(users, done, tallies, now)| + if WasTripped(users[u], Charge(users, tallies, now, u)) then 1 else 0
  {
    assert Cut(users, done + {u}, tallies, now)
        == Cut(users, done, tallies, now) + if WasTripped(users[u], Charge(users, tallies, now, u)) then {u} else {};
  }

  lemma DevicesStep(devices: map<PeerKey, Device>, seen: map<PeerKey, Peer>, k: PeerKey, p: Peer)
    requires k in devices && k !in seen
    ensures DevicesAfter(devices, seen)[k := Metered(devices[k], p)] == DevicesAfter(devices, seen[k := p])
  {
  }

  lemma NothingSeen(devices: map<PeerKey, Device>, owners: set<UserId>, users: map<UserId, User>,
                    tallies: map<UserId, Tally>, rep: Report)
    requires owners <= users.Keys
    requires tallies == map u | u in owners :: Tally(0, 0, users[u].activity, false)
    requires rep == Report(0, 0, 0, 0, 0)
    ensures Progress(devices, map[], owners, users, devices, tallies, rep)
  {
    assert ChargesRX(devices, map[]) == map[] && ChargesTX(devices, map[]) == map[];
    forall u | u in owners ensures TallyOk(devices, map[], u, users[u].activity, tallies[u]) {
      assert Part(ChargesRX(devices, map[]), Owners(devices), u) == map[];
      assert Part(ChargesTX(devices, map[]), Owners(devices), u) == map[];
      assert Handshakes(devices, map[], u) == {};
    }
    assert Charged(devices, map[]) == {};
  }

  lemma UnknownTallies(devices: map<PeerKey, Device>, seen: map<PeerKey, Peer>, k: PeerKey, p: Peer,
                       owners: set<UserId>, users: map<UserId, User>, tallies: map<UserId, Tally>)
    requires k !in devices && owners <= users.Keys && tallies.Keys == owners
    requires TalliesOk(devices, seen, owners, users, tallies)
    ensures TalliesOk(devices, seen[k := p], owners, users, tallies)
  {
    UnknownPeer(devices, seen, k, p);
  }

  lemma TalliesStep(devices: map<PeerKey, Device>, seen: map<PeerKey, Peer>, k: PeerKey, p: Peer,
                    owners: set<UserId>, users: map<UserId, User>, tallies: map<UserId, Tally>)
    requires k in devices && k !in seen && owners <= users.Keys && tallies.Keys == owners
    requires devices[k].user in owners
    requires TalliesOk(devices, seen, owners, users, tallies)
    ensures var u0 := devices[k].user;
            var tallies' := tallies[u0 := TallyWith(tallies[u0], devices[k], p)];
            TalliesOk(devices, seen[k := p], owners, users, tallies')
  {
    var u0 := devices[k].user;
    var tallies' := tallies[u0 := TallyWith(tallies[u0], devices[k], p)];
    forall u | u in owners ensures TallyOk(devices, seen[k := p], u, users[u].activity, tallies'[u]) {
      if u == u0 && Touched(devices[k], p) {
        TallyOwn(devices, seen, k, p, users[u].activity, tallies[u]);
      } else {
        TallyOther(devices, seen, k, p, u, users[u].activity, tallies[u]);
      }
    }
  }

  lemma ReportRX(devices: map<PeerKey, Device>, seen: map<PeerKey, Peer>, k: PeerKey, p: Peer, rep: Report)
    requires k in devices && k !in seen && rep.rx == U64(Sum(ChargesRX(devices, seen)))
    ensures ReportWith(rep, devices[k], p).rx == U64(Sum(ChargesRX(devices, seen[k := p])))
  {
    TotalRX(devices, seen, k, p);
    U64Twice(Sum(ChargesRX(devices, seen)));
  }

  lemma ReportTX(devices: map<PeerKey, Device>, seen: map<PeerKey, Peer>, k: PeerKey, p: Peer, rep: Report)
    requires k in devices && k !in seen && rep.tx == U64(Sum(ChargesTX(devices, seen)))
    ensures ReportWith(rep, devices[k], p).tx == U64(Sum(ChargesTX(devices, seen[k := p])))
  {
    TotalTX(devices, seen, k, p);
    U64Twice(Sum(ChargesTX(devices, seen)));
  }

  lemma ReportCount(devices: map<PeerKey, Device>, seen: map<PeerKey, Peer>, k: PeerKey, p: Peer, rep: Report)
    requires k in devices && k !in seen && rep.deltas == |Charged(devices, seen)|
    ensures ReportWith(rep, devices[k], p).deltas == |Charged(devices, seen[k := p])|
  {
    FoldCharged(devices, seen, k, p);
  }

  lemma TrafficStep(devices: map<PeerKey, Device>, seen: map<PeerKey, Peer>, k: PeerKey, p: Peer, rep: Report)
    requires k in devices && k !in seen && TrafficOk(devices, seen, rep)
    ensures TrafficOk(devices, seen[k := p], ReportWith(rep, devices[k], p))
  {
    ReportRX(devices, seen, k, p, rep);
    ReportTX(devices, seen, k, p, rep);
    ReportCount(devices, seen, k, p, rep);
  }

  lemma U64Twice(x: int)
    ensures U64(U64(x)) == U64(x)
  {
  }

  lemma TotalRX(devices: map<PeerKey, Device>, seen: map<PeerKey, Peer>, k: PeerKey, p: Peer)
    requires k in devices && k !in seen
    ensures U64(Sum(ChargesRX(devices, seen[k := p])))
         == U64(U64(Sum(ChargesRX(devices, seen))) + Delta(devices[k].lastRX, p.rx))
  {
    FoldRX(devices, seen, k, p, devices[k].user);
    U64Sum(Sum(ChargesRX(devices, seen)), Delta(devices[k].lastRX, p.rx));
  }

  lemma TotalTX(devices: map<PeerKey, Device>, seen: map<PeerKey, Peer>, k: PeerKey, p: Peer)
    requires k in devices && k !in seen
    ensures U64(Sum(ChargesTX(devices, seen[k := p])))
         == U64(U64(Sum(ChargesTX(devices, seen))) + Delta(devices[k].lastTX, p.tx))
  {
    FoldTX(devices, seen, k, p, devices[k].user);
    U64Sum(Sum(ChargesTX(devices, seen)), Delta(devices[k].lastTX, p.tx));
  }

  lemma CycleAssembled(devices: map<PeerKey, Device>, users: map<UserId, User>, observed: map<PeerKey, Peer>, now: int,
                       owners: set<UserId>, tallies: map<UserId, Tally>, rep: Report)
    requires owners == (set k | k in devices :: devices[k].user) && owners <= users.Keys && tallies.Keys == owners
    requires forall u | u in owners :: TallyOk(devices, observed, u, users[u].activity, tallies[u])
    requires TrafficOk(devices, observed, rep)
    requires rep.activated == |Woken(users, owners, tallies, now)| && rep.tripped == |Cut(users, owners, tallies, now)|
    ensures CycleResult(devices, users, observed, now, DevicesAfter(devices, observed),
                        UsersAfter(users, owners, tallies, now), rep)
  {
    var users' := UsersAfter(users, owners, tallies, now);
    forall u | u in users ensures UserOk(devices, observed, now, u, users[u], users'[u]) {
      OwnersOwn(devices, owners, u);
    }
    CountsAgree(users, owners, tallies, now);
  }

  lemma OwnersOwn(devices: map<PeerKey, Device>, owners: set<UserId>, u: UserId)
    requires owners == set k | k in devices :: devices[k].user
    ensures Owns(devices, u) <==> u in owners
  {
  }

  lemma CountsAgree(users: map<UserId, User>, owners: set<UserId>, tallies: map<UserId, Tally>, now: int)
    requires owners <= users.Keys && tallies.Keys == owners
    ensures var users' := UsersAfter(users, owners, tallies, now);
            && Woken(users, owners, tallies, now) == (set u | u in users && WaitedAndSaw(users[u], users'[u]))
            && Cut(users, owners, tallies, now) == (set u | u in users && WasTripped(users[u], users'[u]))
  {
  }
}
