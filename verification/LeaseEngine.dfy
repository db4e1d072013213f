/**
 The lease code itself: lock calls on the shared lock file, with every other
 process free to act between two calls.  Each call is a step of the protocol.
 */
module LeaseEngine {
  import opened Wrappers
  import opened LeaseProtocol
  import opened LeaseSafety
  import opened LeaseTheorems

  datatype LeaseError = Busy | Purged | Interrupted | IOFailed

  /** The lock calls whose refusal makes the code close the handle. */
  ghost predicate ClosingLock(q: Phase, b: Byte, exclusive: bool, p: Phase) {
    match q
    case Opening(e) => b == Admission && exclusive && p == Admitting(e)
    case Admitting(e) => b == Pair && exclusive == e && p == Entering(e)
    case Guarding(k) => k < 4 && b == GuardByte(k) && exclusive && p == Guarding(k + 1)
    case Claiming(work) => b == work && exclusive && p == Rechecking(work)
    case _ => false
  }

  lemma ClosingStep(w: World, h: Handle, q: Phase, b: Byte, exclusive: bool, p: Phase)
    requires Is(w, h, q) && ClosingLock(q, b, exclusive, p)
    ensures Enabled(w, Advance(h)) && Do(w, Advance(h)) == TryLock(w, h, b, exclusive, p, Closed(w, h))
  {
  }

  /** The looks at the marker that close the handle of a purged directory. */
  ghost predicate MarkerCheck(q: Phase, p: Phase) {
    || (q.Entering? && p == if q.exclusive then Leased(true) else Entered)
    || (q.Probing? && p == Claiming(q.work))
    || (q.Rechecking? && p == Claimed(q.work))
  }

  lemma MarkerStep(w: World, h: Handle, q: Phase, p: Phase)
    requires Is(w, h, q) && MarkerCheck(q, p)
    ensures Enabled(w, Advance(h)) && Do(w, Advance(h)) == if w.marker then Closed(w, h) else Enter(w, h, p)
  {
  }

  /** Another handle holds the byte, in a way that rules the wanted lock out. */
  ghost predicate HeldElsewhere(w: World, h: Handle, b: Byte, exclusive: bool) {
    exists o: Handle :: o != h && ((o, b) in w.locks.wr || (exclusive && (o, b) in w.locks.rd))
  }

  /** A lock is refused exactly when another handle holds the byte. */
  lemma RefusedExactly(w: World, h: Handle, b: Byte, exclusive: bool)
    ensures Grants(w.locks, h, b, exclusive) <==> !HeldElsewhere(w, h, b, exclusive)
  {
    if !Grants(w.locks, h, b, exclusive) {
      var p :| (p in w.locks.wr || (exclusive && p in w.locks.rd)) && p.1 == b && p.0 != h;
      assert (p.0, b) == p;
    }
  }

  /** Another handle is in the way of a purge guard. */
  ghost predicate GuardHeldElsewhere(w: World, h: Handle) {
    || HeldElsewhere(w, h, Admission, true) || HeldElsewhere(w, h, Pair, true)
    || HeldElsewhere(w, h, Archive, true) || HeldElsewhere(w, h, Review, true)
  }

  class DataDir {
    // the lock file and the directory
    var locks: Locks
    var marker: bool
    var members: set<Entry>
    var next: Handle
    // whether every file operation besides the lock calls succeeds
    const reliable: bool
    // the protocol run so far
    ghost var worlds: seq<World>
    ghost var log: seq<Action>
    ghost var at: World

    ghost predicate Traced()
      reads this`worlds, this`log, this`at
    {
      IsRun(worlds, log) && at == worlds[|log|]
    }

    ghost predicate Valid()
      reads this
    {
      Traced() && at.locks == locks && at.marker == marker && at.members == members && at.next == next
    }

    ghost predicate Extends(w: seq<World>, l: seq<Action>)
      reads this`worlds, this`log
    {
      w <= worlds && l <= log
    }

    /** A directory nobody has open, purged earlier or not. */
    constructor (files: set<Entry>, purged: bool, reliable: bool)
      ensures Valid() && members == files && marker == purged && at.phase == map[] && this.reliable == reliable
    {
      this.reliable := reliable;
      locks, marker, members, next := Locks({}, {}), purged, files, 0;
      at := World(Locks({}, {}), purged, files, map[], map[], 0);
      worlds := [World(Locks({}, {}), purged, files, map[], map[], 0)];
      log := [];
    }

    ghost method Note(a: Action)
      requires Traced() && Enabled(at, a)
      modifies this`worlds, this`log, this`at
      ensures Traced() && Extends(old(worlds), old(log)) && at == Do(old(at), a)
    {
      TraceSnoc(worlds, log, a);
      at := Do(at, a);
      worlds := worlds + [at];
      log := log + [a];
    }

    lemma Invariant()
      requires Traced()
      ensures Inv(at)
    {
      AlwaysInv(worlds, log, |log|);
    }

    /**
     Any number of steps of other handles.  Callers know only that the run goes
     on and that nobody else moved or used handle `me`.
     */
    method Others(me: Handle)
      requires Valid() && me in at.phase
      modifies this
      ensures Valid() && Extends(old(worlds), old(log))
      ensures me in at.phase && at.phase[me] == old(at.phase[me])
      ensures forall b :: (me, b) in at.claims <==> (me, b) in old(at.claims)
      ensures old(at.phase[me]).Purging? ==> members <= old(members)
    {
    }

    /** A file operation fails at will, unless the machine is reliable. */
    method FileCall() returns (ok: bool)
      ensures reliable ==> ok
    {
      ok := *;
      if reliable {
        ok := true;
      }
    }

    // ---- lock calls, as the code makes them --------------------------------------------

    /** leaseLock(f, b, exclusive): granted or refused at once. */
    method LeaseLock(h: Handle, b: Byte, exclusive: bool) returns (ok: bool)
      modifies this`locks
      ensures ok <==> Grants(old(locks), h, b, exclusive)
      ensures locks == if ok then Lock(old(locks), h, b, exclusive) else old(locks)
    {
      ok := Grants(locks, h, b, exclusive);
      if ok {
        locks := Lock(locks, h, b, exclusive);
      }
    }

    /** A lock call whose refusal closes the handle.  World `m` is the one it met. */
    method LockOrClose(h: Handle, b: Byte, exclusive: bool, ghost q: Phase, ghost p: Phase) returns (ok: bool, ghost m: nat)
      requires Valid() && Is(at, h, q) && ClosingLock(q, b, exclusive, p)
      modifies this
      ensures Valid() && Extends(old(worlds), old(log)) && |old(log)| <= m < |log|
      ensures ok <==> !HeldElsewhere(worlds[m], h, b, exclusive)
      ensures ok ==> Is(at, h, p)
      ensures !ok ==> h !in at.phase
    {
      Others(h);
      m := |log|;
      RefusedExactly(at, h, b, exclusive);
      ClosingStep(at, h, q, b, exclusive, p);
      ok := LeaseLock(h, b, exclusive);
      if !ok {
        locks := Release(locks, h);
      }
      Note(Advance(h));
    }

    /** The upgrade of RequireExclusive, granted or not. */
    method LockUpgrade(h: Handle) returns (ok: bool, ghost m: nat)
      requires Valid() && Is(at, h, Upgrading)
      modifies this
      ensures Valid() && Extends(old(worlds), old(log)) && |old(log)| <= m < |log|
      ensures ok <==> !HeldElsewhere(worlds[m], h, Pair, true)
      ensures Is(at, h, if ok then Leased(true) else Restoring)
    {
      Others(h);
      m := |log|;
      RefusedExactly(at, h, Pair, true);
      ok := LeaseLock(h, Pair, true);
      Note(Advance(h));
    }

    /** The shared re-lock of the pair, which nobody can have made impossible. */
    method Relock(h: Handle) returns (ok: bool)
      requires Valid() && (Is(at, h, Restoring) || Is(at, h, Downgrading))
      modifies this
      ensures Valid() && Extends(old(worlds), old(log))
      ensures ok && Is(at, h, if old(at.phase[h]).Restoring? then Restored else Downgraded)
    {
      Others(h);
      Invariant();
      RelockGranted(at, h);
      ok := LeaseLock(h, Pair, false);
      Note(Advance(h));
    }

    /** leaseUnlock(f, b) on the way from `q` to `p`. */
    method LeaseUnlock(h: Handle, b: Byte, ghost q: Phase, ghost p: Phase)
      requires Valid() && Is(at, h, q)
      requires (q.Promoting? && b == Pair && p == Upgrading)
            || ((q.Entered? || q.Restored? || q.Downgraded?) && b == Admission && p == Leased(false))
      modifies this
      ensures Valid() && Extends(old(worlds), old(log)) && Is(at, h, p)
    {
      Others(h);
      locks := Unlock(locks, h, b);
      Note(Advance(h));
    }

    /** isPurged(f): a marker closes the handle, its absence leads on. */
    method MarkerOrClose(h: Handle, ghost q: Phase, ghost p: Phase) returns (ok: bool)
      requires Valid() && Is(at, h, q) && MarkerCheck(q, p)
      modifies this
      ensures Valid() && Extends(old(worlds), old(log))
      ensures ok <==> !marker
      ensures worlds[|log|] == at
      ensures ok ==> Is(at, h, p)
      ensures !ok ==> h !in at.phase
    {
      Others(h);
      MarkerStep(at, h, q, p);
      ok := !marker;
      if !ok {
        locks := Release(locks, h);
      }
      Note(Advance(h));
    }

    /** Opens one more description of the lock file. */
    method OpenFile(a: Action) returns (h: Handle)
      requires Valid() && (a.OpenLease? || a.OpenGuard? || (a.OpenClaim? && (a.work == Archive || a.work == Review)))
      modifies this
      ensures Valid() && Extends(old(worlds), old(log))
      ensures h == old(next)
      ensures Is(at, h, if a.OpenLease? then Opening(a.exclusive) else if a.OpenGuard? then Guarding(0)
                        else Probing(a.work))
    {
      h := next;
      next := next + 1;
      Note(a);
    }

    /** Close of the file description by its owner. */
    method CloseHandle(h: Handle)
      requires Valid() && h in at.phase
      modifies this
      ensures Valid() && Extends(old(worlds), old(log)) && h !in at.phase
      ensures marker == old(marker) && members == old(members)
    {
      locks := Release(locks, h);
      Note(Close(h));
    }

    // ---- lockData, RequireExclusive, Share ---------------------------------------------

    /** The first half of lockData: admission, then the pair.  A refusal met another handle's lock in world `m`. */
    method LockPair(exclusive: bool) returns (r: Option<Handle>, ghost m: nat)
      requires Valid()
      modifies this
      ensures Valid() && Extends(old(worlds), old(log)) && |old(log)| <= m <= |log|
      ensures r.Some? ==> r.value == old(next) && Is(at, r.value, Entering(exclusive))
      ensures r.None? ==> Closed(old(next)) && LeaseHeldElsewhere(worlds[m], old(next), exclusive)
    {
      var h := OpenFile(OpenLease(exclusive));
      var ok;
      ok, m := LockOrClose(h, Admission, true, Opening(exclusive), Admitting(exclusive));
      if ok {
        ok, m := LockOrClose(h, Pair, exclusive, Admitting(exclusive), Entering(exclusive));
      }
      if !ok {
        NothingHeld(h);
      }
      r := if ok then Some(h) else None;
    }

    /** Another handle is in the way of a lease. */
    ghost predicate LeaseHeldElsewhere(w: World, h: Handle, exclusive: bool) {
      HeldElsewhere(w, h, Admission, true) || HeldElsewhere(w, h, Pair, exclusive)
    }

    /** lockData: a lease, or a closed handle and an error that world `m` explains. */
    method LockData(exclusive: bool) returns (r: Result<Handle, LeaseError>, ghost m: nat)
      requires Valid()
      modifies this
      ensures Valid() && Extends(old(worlds), old(log)) && |old(log)| <= m <= |log|
      ensures r.Ok? ==> r.value == old(next) && Is(at, r.value, Leased(exclusive)) && !marker
      ensures r.Err? ==> Closed(old(next))
      ensures r.Err? ==>
                || (r == Err(Busy) && LeaseHeldElsewhere(worlds[m], old(next), exclusive))
                || (r == Err(Purged) && worlds[m].marker)
      ensures r.Ok? ==> (r.value, Pair) in if exclusive then locks.wr else locks.rd
    {
      var locked;
      locked, m := LockPair(exclusive);
      if locked.None? {
        return Err(Busy), m;
      }
      var h := locked.value;
      var ok := MarkerOrClose(h, Entering(exclusive), if exclusive then Leased(true) else Entered);
      m := |log|;
      if !ok {
        NothingHeld(h);
        return Err(Purged), m;
      }
      if !exclusive {
        LeaseUnlock(h, Admission, Entered, Leased(false));
      }
      LeaseHolds(h, exclusive);
      r := Ok(h);
    }

    /** The handle is closed and the kernel holds no lock for it. */
    ghost predicate Closed(h: Handle)
      reads this`at
    {
      h !in at.phase && forall b :: (h, b) !in at.locks.rd && (h, b) !in at.locks.wr
    }

    lemma NothingHeld(h: Handle)
      requires Traced() && h !in at.phase
      ensures Closed(h)
    {
      Invariant();
    }

    /** A lease holds its lock on the pair and rules out a tombstone. */
    lemma LeaseHolds(h: Handle, exclusive: bool)
      requires Traced() && Is(at, h, Leased(exclusive))
      ensures !at.marker && (h, Pair) in if exclusive then at.locks.wr else at.locks.rd
    {
      Invariant();
    }

    /**
     RequireExclusive: the lease stays a lease whatever happens, and a refusal met
     another handle's lock in world `m`.
     */
    method RequireExclusive(h: Handle, exclusive: bool) returns (r: Result<(), LeaseError>, ghost m: nat)
      requires Valid() && Is(at, h, Leased(exclusive))
      modifies this
      ensures Valid() && Extends(old(worlds), old(log)) && |old(log)| <= m <= |log|
      ensures Is(at, h, Leased(r.Ok?))
      ensures r.Ok? ==> forall o | o in at.phase && o != h :: !LeaseLive(at.phase[o])
      ensures r.Err? ==> r == Err(Busy) && LeaseHeldElsewhere(worlds[m], h, true)
      ensures exclusive ==> r.Ok? && at == old(at)
    {
      m := |log|;
      if exclusive {
        Alone(h);
        return Ok(()), m;
      }
      r, m := PromoteLease(h);
    }

    /** The second half of the way up: the pair for writing, or all the way back. */
    method UpgradePair(h: Handle) returns (r: Result<(), LeaseError>, ghost m: nat)
      requires Valid() && Is(at, h, Upgrading)
      modifies this
      ensures Valid() && Extends(old(worlds), old(log)) && |old(log)| <= m <= |log|
      ensures Is(at, h, Leased(r.Ok?))
      ensures r.Err? ==> r == Err(Busy) && HeldElsewhere(worlds[m], h, Pair, true)
    {
      var ok;
      ok, m := LockUpgrade(h);
      if ok {
        return Ok(()), m;
      }
      ok := Relock(h);
      LeaseUnlock(h, Admission, Restored, Leased(false));
      r := Err(Busy);
    }

    /** Under admission: the shared pair lock goes, and the one for writing is tried. */
    method SwapPair(h: Handle) returns (r: Result<(), LeaseError>, ghost m: nat)
      requires Valid() && Is(at, h, Promoting)
      modifies this
      ensures Valid() && Extends(old(worlds), old(log)) && |old(log)| <= m <= |log|
      ensures Is(at, h, Leased(r.Ok?))
      ensures r.Err? ==> r == Err(Busy) && HeldElsewhere(worlds[m], h, Pair, true)
    {
      LeaseUnlock(h, Pair, Promoting, Upgrading);
      r, m := UpgradePair(h);
    }

    /** The first half: admission, at once or not at all. */
    method LockAdmission(h: Handle) returns (ok: bool)
      requires Valid() && Is(at, h, Leased(false))
      modifies this
      ensures Valid() && Extends(old(worlds), old(log))
      ensures ok <==> !HeldElsewhere(old(at), h, Admission, true)
      ensures Is(at, h, if ok then Promoting else Leased(false))
    {
      RefusedExactly(at, h, Admission, true);
      ok := LeaseLock(h, Admission, true);
      Note(Promote(h));
    }

    /** The way up from a shared lease: admission, then the pair, or all the way back. */
    method PromoteLease(h: Handle) returns (r: Result<(), LeaseError>, ghost m: nat)
      requires Valid() && Is(at, h, Leased(false))
      modifies this
      ensures Valid() && Extends(old(worlds), old(log)) && |old(log)| <= m <= |log|
      ensures Is(at, h, Leased(r.Ok?))
      ensures r.Ok? ==> forall o | o in at.phase && o != h :: !LeaseLive(at.phase[o])
      ensures r.Err? ==> r == Err(Busy) && LeaseHeldElsewhere(worlds[m], h, true)
    {
      m := |log|;
      var ok := LockAdmission(h);
      if !ok {
        return Err(Busy), m;
      }
      r, m := SwapPair(h);
      if r.Ok? {
        Alone(h);
      }
    }

    /** The unlock that begins a downgrade. */
    method GiveUpPair(h: Handle)
      requires Valid() && Is(at, h, Leased(true))
      modifies this
      ensures Valid() && Extends(old(worlds), old(log)) && Is(at, h, Downgrading)
    {
      locks := Unlock(locks, h, Pair);
      Note(Downgrade(h));
    }

    /** Share never fails: nobody can have taken the pair in between. */
    method Share(h: Handle, exclusive: bool) returns (ok: bool)
      requires Valid() && Is(at, h, Leased(exclusive))
      modifies this
      ensures Valid() && Extends(old(worlds), old(log))
      ensures ok && Is(at, h, Leased(false))
    {
      if exclusive {
        GiveUpPair(h);
        ok := SharePair(h);
      } else {
        ok := true;
      }
    }

    /** The rest of it: the pair for reading, then admission up. */
    method SharePair(h: Handle) returns (ok: bool)
      requires Valid() && Is(at, h, Downgrading)
      modifies this
      ensures Valid() && Extends(old(worlds), old(log))
      ensures ok && Is(at, h, Leased(false))
    {
      ok := Relock(h);
      LeaseUnlock(h, Admission, Downgraded, Leased(false));
    }

    lemma Alone(h: Handle)
      requires Traced() && Is(at, h, Leased(true))
      ensures forall o | o in at.phase && o != h :: !LeaseLive(at.phase[o])
    {
      forall o | o in at.phase && o != h ensures !LeaseLive(at.phase[o]) {
        ExclusiveLeaseIsAlone(worlds, log, |log|, h, o);
      }
    }

    // ---- purge -------------------------------------------------------------------------

    /** One of the lock calls of a purge guard. */
    method LockGuardByte(h: Handle, k: nat) returns (ok: bool, ghost m: nat)
      requires Valid() && k < 4 && Is(at, h, Guarding(k))
      modifies this
      ensures Valid() && Extends(old(worlds), old(log)) && |old(log)| <= m <= |log|
      ensures if ok then Is(at, h, Guarding(k + 1)) else h !in at.phase && GuardHeldElsewhere(worlds[m], h)
    {
      ok, m := LockOrClose(h, GuardByte(k), true, Guarding(k), Guarding(k + 1));
    }

    /** The lock calls of a purge guard, in order. */
    method LockGuard(h: Handle) returns (ok: bool, ghost m: nat)
      requires Valid() && Is(at, h, Guarding(0))
      modifies this
      ensures Valid() && Extends(old(worlds), old(log)) && |old(log)| <= m <= |log|
      ensures if ok then Is(at, h, Guarding(4)) else h !in at.phase && GuardHeldElsewhere(worlds[m], h)
    {
      ok, m := true, |log|;
      for k := 0 to 4
        invariant Valid() && Extends(old(worlds), old(log)) && Is(at, h, Guarding(k)) && ok
        invariant |old(log)| <= m <= |log|
      {
        ok, m := LockGuardByte(h, k);
        if !ok {
          return;
        }
      }
    }

    /** AcquirePurgeGuard: admission, pair, archive work and reviews, in this order. */
    method AcquirePurgeGuard() returns (r: Result<Handle, LeaseError>, ghost m: nat)
      requires Valid()
      modifies this
      ensures Valid() && Extends(old(worlds), old(log)) && |old(log)| <= m <= |log|
      ensures r.Ok? ==> r.value == old(next) && Is(at, r.value, Guarding(4))
      ensures r.Err? ==> Closed(old(next))
      ensures r.Ok? ==> forall o | o in at.phase && o != r.value :: !Granted(at.phase[o])
      ensures r.Err? ==> r.error == Busy && GuardHeldElsewhere(worlds[m], old(next))
    {
      var h := OpenFile(OpenGuard);
      var ok;
      ok, m := LockGuard(h);
      if ok {
        Guarded(h);
        r := Ok(h);
      } else {
        NothingHeld(h);
        r := Err(Busy);
      }
    }

    /** Nobody else may use a directory whose four bytes are held. */
    lemma Guarded(h: Handle)
      requires Traced() && Is(at, h, Guarding(4))
      ensures forall o | o in at.phase && o != h :: !Granted(at.phase[o])
    {
      Invariant();
      forall o | o in at.phase && o != h ensures !Granted(at.phase[o]) {
        GuardAlone(at, h, o);
      }
    }

    /** os.RemoveAll of one entry under the tombstone. */
    method RemoveEntry(h: Handle, e: Entry)
      requires Valid() && Is(at, h, Purging) && marker
      modifies this
      ensures Valid() && Extends(old(worlds), old(log)) && marker && Is(at, h, Purging)
      ensures members <= old(members) - {e}
    {
      members := members - {e};
      Note(RemoveMember(h, e));
      Others(h);
      Invariant();
    }

    /**
     Purge: the tombstone first, then every member; it may stop at any point.
     Nothing is removed unless the tombstone was written.
     */
    method Purge(h: Handle) returns (ok: bool)
      requires Valid() && Is(at, h, Guarding(4))
      modifies this
      ensures Valid() && Extends(old(worlds), old(log)) && members <= old(members)
      ensures Is(at, h, Purging) ==> marker
      ensures !Is(at, h, Purging) ==> at == old(at)
      ensures ok ==> Is(at, h, Purging) && members == {}
      ensures reliable ==> ok
    {
      ok := FileCall();
      if ok {
        marker := true;
        Note(WriteMarker(h));
        ok := RemoveAll(h);
      }
    }

    /** The sync of the marker, the removal loop and the sync of the directory. */
    method RemoveAll(h: Handle) returns (ok: bool)
      requires Valid() && Is(at, h, Purging) && marker
      modifies this
      ensures Valid() && Extends(old(worlds), old(log)) && marker && members <= old(members)
      ensures Is(at, h, Purging)
      ensures ok ==> members == {}
      ensures reliable ==> ok
    {
      ok := FileCall();
      if !ok {
        return;
      }
      var entries := members;
      while entries != {}
        invariant Valid() && Extends(old(worlds), old(log)) && marker && Is(at, h, Purging)
        invariant members <= entries <= old(members) && ok
        decreases entries
      {
        ok := FileCall();
        if !ok {
          return;
        }
        var e :| e in entries;
        RemoveEntry(h, e);
        entries := entries - {e};
      }
      ok := FileCall();
    }

    /**
     Removes the marker of a directory found empty, which nobody can have filled in
     between.  The write decides; the sync after it may still answer an error.
     */
    method ClearTombstone(h: Handle) returns (ok: bool)
      requires Valid() && Is(at, h, Guarding(4)) && marker && members == {}
      modifies this
      ensures Valid() && Extends(old(worlds), old(log)) && h in at.phase
      ensures members == {} && (ok ==> !marker)
      ensures reliable ==> ok
    {
      Note(SeeEmpty(h));
      Others(h);
      Invariant();
      ok := FileCall();
      if ok {
        marker := false;
        Note(ClearMarker(h));
        ok := FileCall();
      }
    }

    /**
     ResetPurgedDataDir: clears a tombstone over an empty directory, nothing else.
     World `m` is the directory as the reset found it once it held the guard, or the
     one in which another handle was in the way.
     */
    method ResetPurged() returns (r: Result<(), LeaseError>, ghost m: nat)
      requires Valid()
      modifies this
      ensures Valid() && Extends(old(worlds), old(log)) && |old(log)| <= m <= |log| && old(next) !in at.phase
      ensures r.Err? ==> r.error.Busy? || r.error.Interrupted? || (r.error.IOFailed? && !reliable)
      ensures r == Err(Busy) ==> GuardHeldElsewhere(worlds[m], old(next))
      ensures r != Err(Busy) ==> Is(worlds[m], old(next), Guarding(4)) && members == worlds[m].members
      ensures r != Err(Busy) ==> marker == worlds[m].marker || (!marker && members == {})
      ensures r == Err(Interrupted) ==> worlds[m].marker && worlds[m].members != {}
      ensures r != Err(Busy) && reliable ==> (r.Ok? <==> !worlds[m].marker || worlds[m].members == {})
      ensures r.Ok? ==> !marker
    {
      var g;
      g, m := AcquirePurgeGuard();
      if g.Err? {
        return Err(g.error), m;
      }
      var h := g.value;
      m := |log|;
      var ok := FileCall();
      r := if ok then Ok(()) else Err(IOFailed);
      if ok && marker {
        if members != {} {
          r := Err(Interrupted);
        } else {
          ok := ClearTombstone(h);
          r := if ok then Ok(()) else Err(IOFailed);
        }
      }
      CloseHandle(h);
    }

    // ---- work claims ---------------------------------------------------------------------

    /** A first look at the marker, on a handle of its own. */
    method Probe(work: Byte) returns (r: Option<Handle>, ghost m: nat)
      requires Valid() && (work == Archive || work == Review)
      modifies this
      ensures Valid() && Extends(old(worlds), old(log)) && |old(log)| <= m <= |log|
      ensures if r.Some? then r.value == old(next) && Is(at, r.value, Claiming(work)) else worlds[m].marker
    {
      var h := OpenFile(OpenClaim(work));
      var ok := MarkerOrClose(h, Probing(work), Claiming(work));
      m := |log|;
      r := if ok then Some(h) else None;
    }

    /** Why a claim of the byte is refused: a purged directory, or another claim. */
    ghost predicate WorkRefused(w: World, h: Handle, work: Byte) {
      w.marker || HeldElsewhere(w, h, work, true)
    }

    /** Then the lock of the work byte. */
    method LockOwn(work: Byte) returns (r: Option<Handle>, ghost m: nat)
      requires Valid() && (work == Archive || work == Review)
      modifies this
      ensures Valid() && Extends(old(worlds), old(log)) && |old(log)| <= m <= |log|
      ensures if r.Some? then r.value == old(next) && Is(at, r.value, Rechecking(work))
              else WorkRefused(worlds[m], old(next), work)
    {
      r, m := Probe(work);
      if r.Some? {
        var ok;
        ok, m := LockOrClose(r.value, work, true, Claiming(work), Rechecking(work));
        r := if ok then r else None;
      }
    }

    /**
     claimInspection and claimReview: a claim on a handle of its own.  A refusal met
     a tombstone or another handle's claim in world `m`.
     */
    method ClaimOwn(work: Byte) returns (r: Result<Handle, LeaseError>, ghost m: nat)
      requires Valid() && (work == Archive || work == Review)
      modifies this
      ensures Valid() && Extends(old(worlds), old(log)) && |old(log)| <= m <= |log|
      ensures r.Ok? ==> Is(at, r.value, Claimed(work)) && !marker
      ensures r.Ok? ==> forall o | o != r.value :: !WorksOn(at, o, work)
      ensures r.Err? ==> r == Err(Busy) && WorkRefused(worlds[m], old(next), work)
    {
      var locked;
      locked, m := LockOwn(work);
      if locked.None? {
        return Err(Busy), m;
      }
      var h := locked.value;
      var ok := MarkerOrClose(h, Rechecking(work), Claimed(work));
      m := |log|;
      if !ok {
        return Err(Busy), m;
      }
      SoleWorker(h, work);
      r := Ok(h);
    }

    lemma SoleWorker(h: Handle, work: Byte)
      requires Traced() && WorksOn(at, h, work)
      ensures forall o | o != h :: !WorksOn(at, o, work)
    {
      forall o | o != h ensures !WorksOn(at, o, work) {
        WorkIsExclusive(worlds, log, |log|, h, o, work);
      }
    }

    /** The lock of the archive byte on a lease handle. */
    method LockArchive(h: Handle) returns (ok: bool)
      requires Valid() && h in at.phase && LeaseLive(at.phase[h]) && (h, Archive) !in at.claims
      modifies this
      ensures Valid() && Extends(old(worlds), old(log))
      ensures at.phase == old(at.phase)
      ensures ok <==> Grants(old(locks), h, Archive, true)
      ensures ok <==> (h, Archive) in at.claims
    {
      ok := LeaseLock(h, Archive, true);
      if ok {
        Note(LockWork(h, Archive));
      }
    }

    /** The second look at the marker, which a live lease keeps from being written. */
    method RecheckMarker(h: Handle)
      requires Valid() && h in at.phase && LeaseLive(at.phase[h]) && (h, Archive) in at.claims
      modifies this
      ensures Valid() && Extends(old(worlds), old(log))
      ensures h in at.phase && at.phase[h] == old(at.phase[h])
      ensures (h, Archive) in at.claims && at.claims[(h, Archive)]
    {
      Invariant();
      if marker {
        assert false;
      }
      Note(RecheckWork(h));
    }

    /**
     claimArchiveWork on a lease the caller holds and has no claim on yet.  The
     second marker check never fires: a live lease keeps every purge out.
     */
    method ClaimArchiveWork(h: Handle) returns (r: Result<(), LeaseError>)
      requires Valid() && h in at.phase && LeaseLive(at.phase[h]) && (h, Archive) !in at.claims
      modifies this
      ensures Valid() && Extends(old(worlds), old(log))
      ensures h in at.phase && at.phase[h] == old(at.phase[h])
      ensures r.Ok? <==> (h, Archive) in at.claims
      ensures r.Ok? ==> WorksOn(at, h, Archive) && forall o | o != h :: !WorksOn(at, o, Archive)
      ensures r.Ok? <==> Grants(old(locks), h, Archive, true)
    {
      var ok := LockArchive(h);
      if !ok {
        return Err(Busy);
      }
      Others(h);
      RecheckMarker(h);
      SoleWorker(h, Archive);
      r := Ok(());
    }
  }
}
