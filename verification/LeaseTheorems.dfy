/** Whole-run guarantees of the lease protocol. */
module LeaseTheorems {
  import opened LeaseProtocol
  import opened LeaseSafety

  /** A run that starts when nobody has the lock file open. */
  ghost predicate IsRun(worlds: seq<World>, log: seq<Action>) {
    IsTrace(worlds, log) && Initial(worlds[0])
  }

  lemma AlwaysInv(worlds: seq<World>, log: seq<Action>, n: nat)
    requires IsRun(worlds, log) && n <= |log|
    ensures Inv(worlds[n])
  {
    InitialInv(worlds[0]);
    RunKeeps(worlds, log, n);
  }

  /** Whoever may write the DB/key pair also keeps admission closed. */
  lemma PairWriterHoldsAdmission(worlds: seq<World>, log: seq<Action>, n: nat, h: Handle)
    requires IsRun(worlds, log) && n <= |log|
    requires (h, Pair) in worlds[n].locks.wr
    ensures (h, Admission) in worlds[n].locks.wr
  {
    AlwaysInv(worlds, log, n);
    var w := worlds[n];
    assert (h, Pair) !in w.claims;
    assert Writes(w.phase[h], Pair) ==> Writes(w.phase[h], Admission);
  }

  /** An exclusive lease, also while it is being downgraded, is the only lease. */
  lemma ExclusiveLeaseIsAlone(worlds: seq<World>, log: seq<Action>, n: nat, h: Handle, o: Handle)
    requires IsRun(worlds, log) && n <= |log|
    requires h in worlds[n].phase && o in worlds[n].phase && o != h
    requires var p := worlds[n].phase[h]; p == Leased(true) || p.Downgrading? || p.Downgraded?
    ensures !LeaseLive(worlds[n].phase[o])
  {
    AlwaysInv(worlds, log, n);
    var w := worlds[n];
    AdmissionAlone(w, h, o);
    assert forall p | LeaseLive(p) && PhaseOk(p) :: Writes(p, Admission) || Reads(p, Pair);
    assert w.phase[h] == Leased(true) ==> (h, Pair) in w.locks.wr;
    assert Reads(w.phase[o], Pair) ==> (o, Pair) in w.locks.rd;
  }

  /** A conversion in progress is never refused its shared re-lock, so no handle is stranded. */
  lemma ConversionNeverStrands(worlds: seq<World>, log: seq<Action>, n: nat, h: Handle)
    requires IsRun(worlds, log) && n <= |log| && h in worlds[n].phase
    ensures !worlds[n].phase[h].Stranded?
    ensures worlds[n].phase[h].Restoring? || worlds[n].phase[h].Downgrading? ==>
              Grants(worlds[n].locks, h, Pair, false)
  {
    AlwaysInv(worlds, log, n);
    if worlds[n].phase[h].Restoring? || worlds[n].phase[h].Downgrading? {
      RelockGranted(worlds[n], h);
    }
  }

  /** Handle `h` is the one that converts or owns the pair exclusively. */
  predicate Converting(p: Phase) {
    p == Leased(true) || p.Promoting? || p.Upgrading? || p.Restoring? || p.Restored?
    || p.Downgrading? || p.Downgraded?
  }

  /** Nobody's phase moves but by its own steps, and only one of them makes a lease. */
  lemma OthersPhase(w: World, a: Action, o: Handle)
    requires Enabled(w, a) && !(a.Advance? && a.h == o)
    requires o in Do(w, a).phase && LeaseLive(Do(w, a).phase[o])
    ensures o in w.phase && LeaseLive(w.phase[o])
  {
    if a.Advance? {
      AdvancePhase(w, a.h);
    }
  }

  lemma AdvancePhase(w: World, h: Handle)
    requires Enabled(w, Advance(h))
    ensures forall o | o != h :: o in DoAdvance(w, h).phase <==> o in w.phase
    ensures forall o | o != h && o in w.phase :: DoAdvance(w, h).phase[o] == w.phase[o]
  {
  }

  /** The only step that makes a lease is the one past the marker check, under admission. */
  lemma NewLeaseEnters(w: World, a: Action, o: Handle)
    requires Inv(w) && Enabled(w, a)
    requires o in Do(w, a).phase && LeaseLive(Do(w, a).phase[o])
    ensures o in w.phase && (LeaseLive(w.phase[o]) || w.phase[o].Entering?)
  {
    if a.Advance? && a.h == o {
      var p := w.phase[o];
      assert p.Probing? || p.Claiming? || p.Rechecking? || p.Guarding? || p.Opening? || p.Admitting?
             || p.Entering? || LeaseLive(p);
    } else {
      OthersPhase(w, a, o);
    }
  }

  /** No admission gap: while one lease converts, no step of anybody creates another lease. */
  lemma NoLeaseDuringConversion(worlds: seq<World>, log: seq<Action>, n: nat, h: Handle, o: Handle)
    requires IsRun(worlds, log) && n < |log| && o != h
    requires h in worlds[n].phase && Converting(worlds[n].phase[h])
    requires o in worlds[n + 1].phase && LeaseLive(worlds[n + 1].phase[o])
    ensures o in worlds[n].phase && LeaseLive(worlds[n].phase[o])
  {
    AlwaysInv(worlds, log, n);
    var w, a := worlds[n], log[n];
    assert Enabled(w, a) && worlds[n + 1] == Do(w, a);
    NewLeaseEnters(w, a, o);
    if o in w.phase {
      AdmissionAlone(w, h, o);
    }
  }

  // ---- purge -------------------------------------------------------------------------

  /** Nobody uses the directory while its members are being removed or found gone. */
  lemma NoUserWhilePurging(worlds: seq<World>, log: seq<Action>, n: nat, h: Handle, o: Handle)
    requires IsRun(worlds, log) && n <= |log|
    requires h in worlds[n].phase && (worlds[n].phase[h].Purging? || worlds[n].phase[h].Resetting?)
    requires o in worlds[n].phase
    ensures !Granted(worlds[n].phase[o])
  {
    AlwaysInv(worlds, log, n);
  }

  lemma TombstoneStep(w: World, a: Action)
    requires Inv(w) && Enabled(w, a) && w.marker && !a.ClearMarker?
    ensures Do(w, a).marker && Do(w, a).members <= w.members
  {
  }

  lemma {:induction false} TombstoneStays(worlds: seq<World>, log: seq<Action>, m: nat, n: nat)
    requires IsRun(worlds, log) && m <= n <= |log| && worlds[m].marker
    requires forall i {:trigger log[i]} | m <= i < n :: !log[i].ClearMarker?
    ensures worlds[n].marker && worlds[n].members <= worlds[m].members
    decreases n - m
  {
    if m < n {
      TombstoneStays(worlds, log, m, n - 1);
      AlwaysInv(worlds, log, n - 1);
      assert Enabled(worlds[n - 1], log[n - 1]) && worlds[n] == Do(worlds[n - 1], log[n - 1]);
      TombstoneStep(worlds[n - 1], log[n - 1]);
    }
  }

  lemma NobodyUnderTombstone(w: World, o: Handle)
    requires Inv(w) && w.marker
    ensures o in w.phase ==> !Granted(w.phase[o])
    ensures forall b :: (o, b) !in w.claims
  {
  }

  /**
   A tombstone stays and lets nobody in, through deaths of the purge and any
   other activity, until some reset clears it.
   */
  lemma TombstoneExcludes(worlds: seq<World>, log: seq<Action>, m: nat, n: nat, o: Handle)
    requires IsRun(worlds, log) && m <= n <= |log| && worlds[m].marker
    requires forall i {:trigger log[i]} | m <= i < n :: !log[i].ClearMarker?
    ensures worlds[n].marker && worlds[n].members <= worlds[m].members
    ensures o in worlds[n].phase ==> !Granted(worlds[n].phase[o])
    ensures forall b :: (o, b) !in worlds[n].claims
  {
    TombstoneStays(worlds, log, m, n);
    AlwaysInv(worlds, log, n);
    NobodyUnderTombstone(worlds[n], o);
  }

  /** A reset clears the tombstone only over a directory that holds nothing but the lock file. */
  lemma ResetSeesEmptyDirectory(worlds: seq<World>, log: seq<Action>, n: nat)
    requires IsRun(worlds, log) && n < |log| && log[n].ClearMarker?
    ensures worlds[n].marker && worlds[n].members == {}
    ensures !worlds[n + 1].marker && worlds[n + 1].members == {}
  {
    AlwaysInv(worlds, log, n);
    assert Enabled(worlds[n], log[n]) && worlds[n + 1] == Do(worlds[n], log[n]);
  }

  // ---- work claims -------------------------------------------------------------------

  /** A live claim on a work byte, on a handle of its own or on a lease. */
  ghost predicate WorksOn(w: World, h: Handle, b: Byte) {
    Is(w, h, Claimed(b)) || ((h, b) in w.claims && w.claims[(h, b)])
  }

  /** Two handles never work under the same byte, and a purge guard excludes both kinds of claim. */
  lemma WorkIsExclusive(worlds: seq<World>, log: seq<Action>, n: nat, h: Handle, o: Handle, b: Byte)
    requires IsRun(worlds, log) && n <= |log| && h != o
    requires WorksOn(worlds[n], h, b)
    ensures !WorksOn(worlds[n], o, b)
    ensures o in worlds[n].phase ==> worlds[n].phase[o] != Guarding(4)
  {
    AlwaysInv(worlds, log, n);
    var w := worlds[n];
    assert (h, b) in w.locks.wr;
    assert WorksOn(w, o, b) ==> (o, b) in w.locks.wr;
    if Is(w, o, Guarding(4)) {
      GuardAlone(w, o, h);
    }
  }
}
