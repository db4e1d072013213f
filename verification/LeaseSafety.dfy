/** What every interleaving of the lease protocol keeps. */
module LeaseSafety {
  import opened LeaseProtocol

  // ---- the invariant -----------------------------------------------------------

  /** The write lock a handle in phase `p` holds on `b`. */
  predicate Writes(p: Phase, b: Byte) {
    match b
    case Admission =>
      p.Admitting? || p.Entering? || p.Entered? || p == Leased(true) || p.Promoting? || p.Upgrading?
      || p.Restoring? || p.Restored? || p.Downgrading? || p.Downgraded?
      || (p.Guarding? && p.held >= 1) || p.Purging? || p.Resetting?
    case Pair =>
      p == Entering(true) || p == Leased(true)
      || (p.Guarding? && p.held >= 2) || p.Purging? || p.Resetting?
    case Archive =>
      p == Rechecking(Archive) || p == Claimed(Archive)
      || (p.Guarding? && p.held >= 3) || p.Purging? || p.Resetting?
    case Review =>
      p == Rechecking(Review) || p == Claimed(Review)
      || (p.Guarding? && p.held >= 4) || p.Purging? || p.Resetting?
    case Schedule => false
  }

  /** The read lock a handle in phase `p` holds on `b`. */
  predicate Reads(p: Phase, b: Byte) {
    b == Pair && (p == Entering(false) || p.Entered? || p == Leased(false) || p.Promoting?
                  || p.Restored? || p.Downgraded?)
  }

  ghost predicate PhaseOk(p: Phase) {
    && (p.Guarding? ==> p.held <= 4)
    && ((p.Probing? || p.Claiming? || p.Rechecking? || p.Claimed?) ==> p.work == Archive || p.work == Review)
    && !p.Stranded?
  }

  /** The kernel holds exactly the locks the phases and claims call for. */
  ghost predicate LocksOk(w: World) {
    && (forall h, b :: (h, b) in w.locks.wr <==>
          (h in w.phase && Writes(w.phase[h], b)) || (h, b) in w.claims)
    && (forall h, b :: (h, b) in w.locks.rd <==> h in w.phase && Reads(w.phase[h], b))
  }

  /** Write locks exclude every other handle. */
  ghost predicate Compatible(l: Locks) {
    forall h, o, b :: (h, b) in l.wr && ((o, b) in l.wr || (o, b) in l.rd) ==> o == h
  }

  ghost predicate HandlesOk(w: World) {
    && (forall h | h in w.phase :: h < w.next && PhaseOk(w.phase[h]))
    && (forall h, b | (h, b) in w.claims ::
          h in w.phase && LeaseLive(w.phase[h]) && (b == Archive || b == Schedule))
  }

  /** While a lease is being downgraded nobody else holds the pair. */
  ghost predicate DowngradeAlone(w: World) {
    forall h, o | h in w.phase && (w.phase[h].Downgrading? || w.phase[h].Downgraded?) && o != h ::
      (o, Pair) !in w.locks.wr && (o, Pair) !in w.locks.rd
  }

  /** A purged directory has no user. */
  ghost predicate TombstoneOk(w: World) {
    && (w.marker ==> forall h | h in w.phase :: !Granted(w.phase[h]))
    && (forall h | h in w.phase && w.phase[h].Purging? :: w.marker)
    && (forall h | h in w.phase && w.phase[h].Resetting? :: w.marker && w.members == {})
  }

  ghost predicate Inv(w: World) {
    LocksOk(w) && Compatible(w.locks) && HandlesOk(w) && DowngradeAlone(w) && TombstoneOk(w)
  }

  lemma InitialInv(w: World)
    requires Initial(w)
    ensures Inv(w)
  {
  }

  // ---- every step keeps it -------------------------------------------------------

  /** Taking a lock that the kernel grants, together with the phase that accounts for it. */
  lemma LockKeeps(w: World, h: Handle, b: Byte, exclusive: bool, p: Phase)
    requires LocksOk(w) && Compatible(w.locks) && HandlesOk(w)
    requires h in w.phase && (h, b) !in w.claims && Grants(w.locks, h, b, exclusive)
    requires exclusive ==> Writes(p, b) && !Reads(p, b)
    requires !exclusive ==> Reads(p, b) && !Writes(p, b)
    requires forall c | c != b :: (Writes(p, c) <==> Writes(w.phase[h], c)) && (Reads(p, c) <==> Reads(w.phase[h], c))
    ensures LocksOk(w.(locks := Lock(w.locks, h, b, exclusive), phase := w.phase[h := p]))
    ensures Compatible(Lock(w.locks, h, b, exclusive))
  {
  }

  lemma UnlockKeeps(w: World, h: Handle, b: Byte, p: Phase)
    requires LocksOk(w) && Compatible(w.locks)
    requires h in w.phase && (h, b) !in w.claims && !Writes(p, b) && !Reads(p, b)
    requires forall c | c != b :: (Writes(p, c) <==> Writes(w.phase[h], c)) && (Reads(p, c) <==> Reads(w.phase[h], c))
    ensures LocksOk(UnlockInto(w, h, b, p)) && Compatible(UnlockInto(w, h, b, p).locks)
  {
  }

  lemma CloseKeeps(w: World, h: Handle)
    requires Inv(w) && h in w.phase
    ensures Inv(Closed(w, h))
  {
    var w' := Closed(w, h);
    forall o, b ensures (o, b) in w'.locks.wr <==>
        (o in w'.phase && Writes(w'.phase[o], b)) || (o, b) in w'.claims
    {
      assert (o, b) in w'.locks.wr <==> (o, b) in w.locks.wr && o != h;
      assert (o, b) in w'.claims <==> (o, b) in w.claims && o != h;
    }
  }

  /** A step of `h` that keeps the marker, the members, the claims and everybody else. */
  ghost predicate OnlyPhase(w: World, w': World, h: Handle, p: Phase) {
    && h in w.phase
    && w' == w.(locks := w'.locks, phase := w.phase[h := p])
  }

  /** The rest of the invariant after such a step. */
  lemma PhaseKeeps(w: World, w': World, h: Handle, p: Phase)
    requires Inv(w) && OnlyPhase(w, w', h, p)
    requires LocksOk(w') && Compatible(w'.locks)
    requires PhaseOk(p) && (LeaseLive(w.phase[h]) ==> LeaseLive(p))
    requires Granted(p) ==> Granted(w.phase[h]) || !w.marker
    requires !p.Purging? && !p.Resetting?
    requires p.Downgrading? || p.Downgraded? ==>
               forall o | o != h :: (o, Pair) !in w.locks.wr && (o, Pair) !in w.locks.rd
    requires forall o :: (o, Pair) in w'.locks.wr || (o, Pair) in w'.locks.rd ==>
               (o, Pair) in w.locks.wr || (o, Pair) in w.locks.rd || (o == h && (h, Admission) in w.locks.wr)
    ensures Inv(w')
  {
    forall d, o | d in w'.phase && (w'.phase[d].Downgrading? || w'.phase[d].Downgraded?) && o != d
      ensures (o, Pair) !in w'.locks.wr && (o, Pair) !in w'.locks.rd
    {
      if d != h && o == h {
        assert (d, Admission) in w.locks.wr;
      }
    }
  }

  /** Admission held by one handle keeps every other one off it. */
  lemma AdmissionAlone(w: World, h: Handle, o: Handle)
    requires Inv(w) && h in w.phase && o in w.phase && Writes(w.phase[h], Admission) && o != h
    ensures !Writes(w.phase[o], Admission)
  {
    assert (h, Admission) in w.locks.wr;
    assert Writes(w.phase[o], Admission) ==> (o, Admission) in w.locks.wr;
  }

  /** The shared re-lock of RequireExclusive and Share can never be refused. */
  lemma RelockGranted(w: World, h: Handle)
    requires Inv(w) && h in w.phase && (w.phase[h].Restoring? || w.phase[h].Downgrading?)
    ensures Grants(w.locks, h, Pair, false)
  {
    forall k | k in w.locks.wr && k.1 == Pair ensures k.0 == h {
      var o := k.0;
      assert (o, Pair) in w.locks.wr;
      assert (o, Pair) !in w.claims;
      assert Writes(w.phase[o], Pair) ==> Writes(w.phase[o], Admission);
      assert (o, Admission) in w.locks.wr && (h, Admission) in w.locks.wr;
    }
  }

  lemma TryLockKeeps(w: World, h: Handle, b: Byte, exclusive: bool, p: Phase, otherwise: World)
    requires Inv(w) && h in w.phase && (h, b) !in w.claims && Inv(otherwise)
    requires exclusive ==> Writes(p, b) && !Reads(p, b)
    requires !exclusive ==> Reads(p, b) && !Writes(p, b)
    requires forall c | c != b :: (Writes(p, c) <==> Writes(w.phase[h], c)) && (Reads(p, c) <==> Reads(w.phase[h], c))
    requires PhaseOk(p) && (LeaseLive(w.phase[h]) ==> LeaseLive(p))
    requires Granted(p) ==> Granted(w.phase[h]) || !w.marker
    requires !p.Purging? && !p.Resetting?
    requires p.Downgrading? || p.Downgraded? ==> w.phase[h].Downgrading? || w.phase[h].Downgraded?
    requires b == Pair ==> Writes(w.phase[h], Admission)
    ensures Inv(TryLock(w, h, b, exclusive, p, otherwise))
  {
    if Grants(w.locks, h, b, exclusive) {
      LockKeeps(w, h, b, exclusive, p);
      PhaseKeeps(w, TryLock(w, h, b, exclusive, p, otherwise), h, p);
    }
  }

  lemma UnlockIntoKeeps(w: World, h: Handle, b: Byte, p: Phase)
    requires Inv(w) && h in w.phase && (h, b) !in w.claims && !Writes(p, b) && !Reads(p, b)
    requires forall c | c != b :: (Writes(p, c) <==> Writes(w.phase[h], c)) && (Reads(p, c) <==> Reads(w.phase[h], c))
    requires PhaseOk(p) && LeaseLive(p) && LeaseLive(w.phase[h])
    requires p.Downgrading? ==> w.phase[h] == Leased(true)
    requires !p.Downgraded?
    ensures Inv(UnlockInto(w, h, b, p))
  {
    UnlockKeeps(w, h, b, p);
    if p.Downgrading? {
      assert (h, Pair) in w.locks.wr;
    }
    PhaseKeeps(w, UnlockInto(w, h, b, p), h, p);
  }

  lemma EnterKeeps(w: World, h: Handle, p: Phase)
    requires Inv(w) && h in w.phase
    requires forall c :: (Writes(p, c) <==> Writes(w.phase[h], c)) && (Reads(p, c) <==> Reads(w.phase[h], c))
    requires PhaseOk(p) && (LeaseLive(w.phase[h]) ==> LeaseLive(p))
    requires Granted(p) ==> Granted(w.phase[h]) || !w.marker
    requires !p.Purging? && !p.Resetting? && !p.Downgrading? && !p.Downgraded?
    ensures Inv(Enter(w, h, p))
  {
    PhaseKeeps(w, Enter(w, h, p), h, p);
  }

  lemma OpeningKeeps(w: World, h: Handle)
    requires Inv(w) && h in w.phase && w.phase[h].Opening?
    ensures Inv(DoAdvance(w, h))
  {
    CloseKeeps(w, h);
    TryLockKeeps(w, h, Admission, true, Admitting(w.phase[h].exclusive), Closed(w, h));
  }

  lemma AdmittingKeeps(w: World, h: Handle)
    requires Inv(w) && h in w.phase && w.phase[h].Admitting?
    ensures Inv(DoAdvance(w, h))
  {
    CloseKeeps(w, h);
    TryLockKeeps(w, h, Pair, w.phase[h].exclusive, Entering(w.phase[h].exclusive), Closed(w, h));
  }

  lemma EnteringKeeps(w: World, h: Handle)
    requires Inv(w) && h in w.phase && w.phase[h].Entering?
    ensures Inv(DoAdvance(w, h))
  {
    if w.marker {
      CloseKeeps(w, h);
    } else {
      EnterKeeps(w, h, if w.phase[h].exclusive then Leased(true) else Entered);
    }
  }

  /** The last step into, or back to, a shared lease gives admission up. */
  lemma AdmissionGivenUp(w: World, h: Handle)
    requires Inv(w) && h in w.phase && (w.phase[h].Entered? || w.phase[h].Restored? || w.phase[h].Downgraded?)
    ensures Inv(DoAdvance(w, h))
  {
    UnlockIntoKeeps(w, h, Admission, Leased(false));
  }

  lemma PromotingKeeps(w: World, h: Handle)
    requires Inv(w) && h in w.phase && w.phase[h].Promoting?
    ensures Inv(DoAdvance(w, h))
  {
    UnlockIntoKeeps(w, h, Pair, Upgrading);
  }

  /** A refused upgrade leaves everything but the phase. */
  lemma RefusedKeeps(w: World, h: Handle)
    requires Inv(w) && h in w.phase && w.phase[h].Upgrading?
    ensures Inv(Enter(w, h, Restoring))
  {
    EnterKeeps(w, h, Restoring);
  }

  lemma UpgradingKeeps(w: World, h: Handle)
    requires Inv(w) && h in w.phase && w.phase[h].Upgrading?
    ensures Inv(DoAdvance(w, h))
  {
    RefusedKeeps(w, h);
    TryLockKeeps(w, h, Pair, true, Leased(true), Enter(w, h, Restoring));
  }

  lemma RestoringKeeps(w: World, h: Handle)
    requires Inv(w) && h in w.phase && w.phase[h].Restoring?
    ensures Inv(DoAdvance(w, h))
  {
    RelockGranted(w, h);
    TryLockKeeps(w, h, Pair, false, Restored, w);
  }

  lemma DowngradingKeeps(w: World, h: Handle)
    requires Inv(w) && h in w.phase && w.phase[h].Downgrading?
    ensures Inv(DoAdvance(w, h))
  {
    RelockGranted(w, h);
    TryLockKeeps(w, h, Pair, false, Downgraded, w);
  }

  /** One of the four locks of a purge guard. */
  lemma GuardByteKeeps(w: World, h: Handle, k: nat, b: Byte)
    requires Inv(w) && Is(w, h, Guarding(k)) && k < 4 && b == GuardByte(k)
    ensures Inv(TryLock(w, h, b, true, Guarding(k + 1), Closed(w, h)))
  {
    CloseKeeps(w, h);
    assert Writes(Guarding(k + 1), b) && !Writes(Guarding(k), b);
    assert forall c | c != b :: Writes(Guarding(k + 1), c) <==> Writes(Guarding(k), c);
    TryLockKeeps(w, h, b, true, Guarding(k + 1), Closed(w, h));
  }

  lemma GuardingStep(w: World, h: Handle, k: nat)
    requires Is(w, h, Guarding(k)) && k < 4
    ensures DoAdvance(w, h) == TryLock(w, h, GuardByte(k), true, Guarding(k + 1), Closed(w, h))
  {
  }

  lemma GuardingKeeps(w: World, h: Handle)
    requires Inv(w) && h in w.phase && w.phase[h].Guarding? && w.phase[h].held < 4
    ensures Inv(DoAdvance(w, h))
  {
    var k := w.phase[h].held;
    GuardingStep(w, h, k);
    GuardByteKeeps(w, h, k, GuardByte(k));
  }

  lemma ProbingKeeps(w: World, h: Handle)
    requires Inv(w) && h in w.phase && w.phase[h].Probing?
    ensures Inv(DoAdvance(w, h))
  {
    if w.marker {
      CloseKeeps(w, h);
    } else {
      EnterKeeps(w, h, Claiming(w.phase[h].work));
    }
  }

  lemma ClaimingKeeps(w: World, h: Handle)
    requires Inv(w) && h in w.phase && w.phase[h].Claiming?
    ensures Inv(DoAdvance(w, h))
  {
    CloseKeeps(w, h);
    TryLockKeeps(w, h, w.phase[h].work, true, Rechecking(w.phase[h].work), Closed(w, h));
  }

  lemma RecheckingKeeps(w: World, h: Handle)
    requires Inv(w) && h in w.phase && w.phase[h].Rechecking?
    ensures Inv(DoAdvance(w, h))
  {
    if w.marker {
      CloseKeeps(w, h);
    } else {
      EnterKeeps(w, h, Claimed(w.phase[h].work));
    }
  }

  lemma AdvanceKeeps(w: World, h: Handle)
    requires Inv(w) && Enabled(w, Advance(h))
    ensures Inv(DoAdvance(w, h))
  {
    match w.phase[h]
    case Opening(e) => OpeningKeeps(w, h);
    case Admitting(e) => AdmittingKeeps(w, h);
    case Entering(e) => EnteringKeeps(w, h);
    case Entered => AdmissionGivenUp(w, h);
    case Promoting => PromotingKeeps(w, h);
    case Upgrading => UpgradingKeeps(w, h);
    case Restoring => RestoringKeeps(w, h);
    case Restored => AdmissionGivenUp(w, h);
    case Downgrading => DowngradingKeeps(w, h);
    case Downgraded => AdmissionGivenUp(w, h);
    case Guarding(k) => GuardingKeeps(w, h);
    case Probing(b) => ProbingKeeps(w, h);
    case Claiming(b) => ClaimingKeeps(w, h);
    case Rechecking(b) => RecheckingKeeps(w, h);
  }

  /** The four guard bytes exclude every lease and every claim. */
  lemma GuardAlone(w: World, h: Handle, o: Handle)
    requires Inv(w) && h in w.phase && o in w.phase && o != h
    requires w.phase[h] == Guarding(4) || w.phase[h].Purging? || w.phase[h].Resetting?
    ensures !Granted(w.phase[o])
  {
    assert (h, Admission) in w.locks.wr && (h, Pair) in w.locks.wr;
    assert (h, Archive) in w.locks.wr && (h, Review) in w.locks.wr;
    AdmissionAlone(w, h, o);
    assert forall p | LeaseLive(p) && PhaseOk(p) :: Writes(p, Admission) || Reads(p, Pair);
    assert forall p: Phase | p.Claimed? && PhaseOk(p) :: Writes(p, p.work);
  }

  lemma WriteMarkerKeeps(w: World, h: Handle)
    requires Inv(w) && Enabled(w, WriteMarker(h))
    ensures Inv(Do(w, WriteMarker(h)))
  {
    var w' := Do(w, WriteMarker(h));
    assert LocksOk(w') && HandlesOk(w');
    forall o | o in w'.phase ensures !Granted(w'.phase[o]) {
      if o != h {
        GuardAlone(w, h, o);
      }
    }
  }

  lemma SeeEmptyKeeps(w: World, h: Handle)
    requires Inv(w) && Enabled(w, SeeEmpty(h))
    ensures Inv(Do(w, SeeEmpty(h)))
  {
    var w' := Do(w, SeeEmpty(h));
    assert LocksOk(w') && HandlesOk(w') && DowngradeAlone(w');
  }

  lemma ClearMarkerKeeps(w: World, h: Handle)
    requires Inv(w) && Enabled(w, ClearMarker(h))
    ensures Inv(Do(w, ClearMarker(h)))
  {
    var w' := Do(w, ClearMarker(h));
    assert LocksOk(w') && HandlesOk(w') && DowngradeAlone(w');
    forall o | o in w.phase && (w.phase[o].Purging? || w.phase[o].Resetting?) ensures o == h {
      if o != h {
        AdmissionAlone(w, h, o);
      }
    }
  }

  /** Members come and go under a guard or by somebody who may use the directory. */
  lemma MembersKeep(w: World, a: Action)
    requires Inv(w) && Enabled(w, a) && (a.RemoveMember? || a.AddMember?)
    ensures Inv(Do(w, a))
  {
  }

  lemma WorkKeeps(w: World, a: Action)
    requires Inv(w) && Enabled(w, a)
    requires a.LockWork? || a.RecheckWork? || a.UnlockWork?
    ensures Inv(Do(w, a))
  {
    var w' := Do(w, a);
    var h := a.h;
    assert forall b: Byte | b != Pair :: !Reads(w.phase[h], b);
    forall o, b ensures (o, b) in w'.locks.wr <==>
        (o in w'.phase && Writes(w'.phase[o], b)) || (o, b) in w'.claims
    {
      if o == h && h in w.phase && LeaseLive(w.phase[h]) {
        assert !Writes(w.phase[h], Archive) && !Writes(w.phase[h], Schedule);
      }
    }
  }

  lemma OpenKeeps(w: World, p: Phase)
    requires Inv(w) && PhaseOk(p) && (p.Opening? || p.Probing? || p == Guarding(0))
    ensures Inv(Opened(w, p))
  {
    OpenLocks(w, p);
    assert HandlesOk(Opened(w, p)) && DowngradeAlone(Opened(w, p));
  }

  /** A new handle holds nothing. */
  lemma OpenLocks(w: World, p: Phase)
    requires LocksOk(w) && HandlesOk(w) && (p.Opening? || p.Probing? || p == Guarding(0))
    ensures LocksOk(Opened(w, p))
  {
    assert w.next !in w.phase;
    assert forall b :: !Writes(p, b) && !Reads(p, b);
    assert forall b :: (w.next, b) !in w.claims;
  }

  lemma StartKeeps(w: World, a: Action)
    requires Inv(w) && Enabled(w, a) && (a.Promote? || a.Downgrade?)
    ensures Inv(Do(w, a))
  {
    if a.Promote? {
      TryLockKeeps(w, a.h, Admission, true, Promoting, w);
    } else {
      UnlockIntoKeeps(w, a.h, Pair, Downgrading);
    }
  }

  lemma StepKeeps(w: World, a: Action)
    requires Inv(w) && Enabled(w, a)
    ensures Inv(Do(w, a))
  {
    match a
    case OpenLease(e) => OpenKeeps(w, Opening(e));
    case OpenGuard => OpenKeeps(w, Guarding(0));
    case OpenClaim(b) => OpenKeeps(w, Probing(b));
    case Advance(h) => AdvanceKeeps(w, h);
    case Promote(h) => StartKeeps(w, a);
    case Downgrade(h) => StartKeeps(w, a);
    case WriteMarker(h) => WriteMarkerKeeps(w, h);
    case RemoveMember(h, e) => MembersKeep(w, a);
    case SeeEmpty(h) => SeeEmptyKeeps(w, h);
    case ClearMarker(h) => ClearMarkerKeeps(w, h);
    case LockWork(h, b) => WorkKeeps(w, a);
    case RecheckWork(h) => WorkKeeps(w, a);
    case UnlockWork(h, b) => WorkKeeps(w, a);
    case AddMember(h, e) => MembersKeep(w, a);
    case Close(h) => CloseKeeps(w, h);
  }

  /** The invariant holds in every world of every run. */
  lemma {:induction false} RunKeeps(worlds: seq<World>, log: seq<Action>, n: nat)
    requires IsTrace(worlds, log) && Inv(worlds[0]) && n <= |log|
    ensures Inv(worlds[n])
  {
    if n > 0 {
      RunKeeps(worlds, log, n - 1);
      assert Enabled(worlds[n - 1], log[n - 1]);
      StepKeeps(worlds[n - 1], log[n - 1]);
    }
  }
}
