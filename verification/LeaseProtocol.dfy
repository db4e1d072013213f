/**
 The byte-lock protocol of the data directory as a step system.

 Any number of processes hold open file descriptions ("handles") of the one lock
 file.  One lock call, marker access or directory change is one step; steps of
 different handles interleave freely, calls never block, and a handle may be
 closed, which drops all its locks, between any two of its steps.
 */
module LeaseProtocol {
  type Handle = nat

  /** The locked bytes of the lock file; byte 2 is the purge marker, never locked. */
  datatype Byte = Admission | Pair | Archive | Schedule | Review

  // ---- the kernel's locks ------------------------------------------------------

  datatype Locks = Locks(rd: set<(Handle, Byte)>, wr: set<(Handle, Byte)>)

  /** A lock conflicts only with locks of other handles. */
  predicate Grants(l: Locks, h: Handle, b: Byte, exclusive: bool) {
    && (forall p | p in l.wr :: p.1 == b ==> p.0 == h)
    && (exclusive ==> forall p | p in l.rd :: p.1 == b ==> p.0 == h)
  }

  /** A granted lock replaces what the handle held on that byte. */
  function Lock(l: Locks, h: Handle, b: Byte, exclusive: bool): Locks {
    if exclusive then Locks(l.rd - {(h, b)}, l.wr + {(h, b)})
    else Locks(l.rd + {(h, b)}, l.wr - {(h, b)})
  }

  function Unlock(l: Locks, h: Handle, b: Byte): Locks {
    Locks(l.rd - {(h, b)}, l.wr - {(h, b)})
  }

  function Release(l: Locks, h: Handle): Locks {
    Locks(set p | p in l.rd && p.0 != h, set p | p in l.wr && p.0 != h)
  }

  // ---- what a handle is in the middle of ------------------------------------------

  datatype Phase =
    // lockData
    | Opening(exclusive: bool)
    | Admitting(exclusive: bool)       // admission held
    | Entering(exclusive: bool)        // pair held too, marker not read yet
    | Entered                          // shared, marker read, admission still held
    | Leased(exclusive: bool)
    // RequireExclusive
    | Promoting                        // admission held, pair still shared
    | Upgrading                        // pair released
    | Restoring                        // upgrade refused, pair not shared again yet
    | Restored                         // pair shared again, admission still held
    // Share
    | Downgrading                      // pair released
    | Downgraded                       // pair shared, admission still held
    // a re-lock was refused: admission retained until close
    | Stranded
    // AcquirePurgeGuard, Purge, ResetPurgedDataDir
    | Guarding(held: nat)              // that many of the four guard bytes
    | Purging                          // marker written
    | Resetting                        // saw the marker and nothing but the lock file
    // claimInspection and claimReview on a handle of their own
    | Probing(work: Byte)              // marker not read yet
    | Claiming(work: Byte)             // marker read once, byte not locked
    | Rechecking(work: Byte)           // byte locked, marker to be read again
    | Claimed(work: Byte)

  /** The bytes a purge guard locks, in order. */
  function GuardByte(k: nat): Byte
    requires k < 4
  {
    if k == 0 then Admission else if k == 1 then Pair else if k == 2 then Archive else Review
  }

  /** A lease somebody may be using, whatever conversion it is in. */
  predicate LeaseLive(p: Phase) {
    p.Entered? || p.Leased? || p.Promoting? || p.Upgrading? || p.Restoring? || p.Restored?
    || p.Downgrading? || p.Downgraded? || p.Stranded?
  }

  /** May touch the data directory. */
  predicate Granted(p: Phase) {
    LeaseLive(p) || p.Claimed?
  }

  // ---- worlds and steps --------------------------------------------------------------

  type Entry = nat

  /**
   `members` are the directory entries besides the lock file.  `claims` are the
   archive and schedule claims made on lease handles; the value tells whether the
   claim is live.
   */
  datatype World = World(
    locks: Locks,
    marker: bool,
    members: set<Entry>,
    phase: map<Handle, Phase>,
    claims: map<(Handle, Byte), bool>,
    next: Handle)

  datatype Action =
    | OpenLease(exclusive: bool)
    | OpenGuard
    | OpenClaim(work: Byte)
    | Advance(h: Handle)
    | Promote(h: Handle)
    | Downgrade(h: Handle)
    | WriteMarker(h: Handle)
    | RemoveMember(h: Handle, e: Entry)
    | SeeEmpty(h: Handle)
    | ClearMarker(h: Handle)
    | LockWork(h: Handle, work: Byte)
    | RecheckWork(h: Handle)
    | UnlockWork(h: Handle, work: Byte)
    | AddMember(h: Handle, e: Entry)
    | Close(h: Handle)

  predicate Is(w: World, h: Handle, p: Phase) {
    h in w.phase && w.phase[h] == p
  }

  /** Phases whose next step is fixed by the code. */
  predicate Advances(p: Phase) {
    !p.Leased? && !p.Stranded? && !p.Purging? && !p.Resetting? && !p.Claimed?
    && (p.Guarding? ==> p.held < 4)
  }

  predicate Enabled(w: World, a: Action) {
    match a
    case OpenLease(e) => true
    case OpenGuard => true
    case OpenClaim(b) => b == Archive || b == Review
    case Advance(h) => h in w.phase && Advances(w.phase[h])
    case Promote(h) => Is(w, h, Leased(false))
    case Downgrade(h) => Is(w, h, Leased(true))
    case WriteMarker(h) => Is(w, h, Guarding(4))
    case RemoveMember(h, e) => Is(w, h, Purging)
    case SeeEmpty(h) => Is(w, h, Guarding(4)) && w.marker && w.members == {}
    case ClearMarker(h) => Is(w, h, Resetting)
    case LockWork(h, b) =>
      && h in w.phase && LeaseLive(w.phase[h]) && (b == Archive || b == Schedule)
      && (h, b) !in w.claims && Grants(w.locks, h, b, true)
    case RecheckWork(h) => (h, Archive) in w.claims
    case UnlockWork(h, b) => (h, b) in w.claims
    case AddMember(h, e) => h in w.phase && Granted(w.phase[h])
    case Close(h) => h in w.phase
  }

  function Closed(w: World, h: Handle): World {
    w.(locks := Release(w.locks, h), phase := w.phase - {h},
       claims := map k | k in w.claims && k.0 != h :: w.claims[k])
  }

  function Enter(w: World, h: Handle, p: Phase): World {
    w.(phase := w.phase[h := p])
  }

  /** Locks a byte and enters `p`, or does what the code does on a conflict. */
  function TryLock(w: World, h: Handle, b: Byte, exclusive: bool, p: Phase, otherwise: World): World {
    if Grants(w.locks, h, b, exclusive) then
      w.(locks := Lock(w.locks, h, b, exclusive), phase := w.phase[h := p])
    else
      otherwise
  }

  function UnlockInto(w: World, h: Handle, b: Byte, p: Phase): World {
    w.(locks := Unlock(w.locks, h, b), phase := w.phase[h := p])
  }

  /** The next step of lockData, RequireExclusive, Share, a guard or a claim. */
  function DoAdvance(w: World, h: Handle): World
    requires Enabled(w, Advance(h))
  {
    match w.phase[h]
    case Opening(e) => TryLock(w, h, Admission, true, Admitting(e), Closed(w, h))
    case Admitting(e) => TryLock(w, h, Pair, e, Entering(e), Closed(w, h))
    case Entering(e) =>
      if w.marker then Closed(w, h) else Enter(w, h, if e then Leased(true) else Entered)
    case Entered => UnlockInto(w, h, Admission, Leased(false))
    case Promoting => UnlockInto(w, h, Pair, Upgrading)
    case Upgrading => TryLock(w, h, Pair, true, Leased(true), Enter(w, h, Restoring))
    case Restoring => TryLock(w, h, Pair, false, Restored, Enter(w, h, Stranded))
    case Restored => UnlockInto(w, h, Admission, Leased(false))
    case Downgrading => TryLock(w, h, Pair, false, Downgraded, Enter(w, h, Stranded))
    case Downgraded => UnlockInto(w, h, Admission, Leased(false))
    case Guarding(k) => TryLock(w, h, GuardByte(k), true, Guarding(k + 1), Closed(w, h))
    case Probing(b) => if w.marker then Closed(w, h) else Enter(w, h, Claiming(b))
    case Claiming(b) => TryLock(w, h, b, true, Rechecking(b), Closed(w, h))
    case Rechecking(b) => if w.marker then Closed(w, h) else Enter(w, h, Claimed(b))
  }

  function Opened(w: World, p: Phase): World {
    w.(phase := w.phase[w.next := p], next := w.next + 1)
  }

  function Do(w: World, a: Action): World
    requires Enabled(w, a)
  {
    match a
    case OpenLease(e) => Opened(w, Opening(e))
    case OpenGuard => Opened(w, Guarding(0))
    case OpenClaim(b) => Opened(w, Probing(b))
    case Advance(h) => DoAdvance(w, h)
    case Promote(h) => TryLock(w, h, Admission, true, Promoting, w)
    case Downgrade(h) => UnlockInto(w, h, Pair, Downgrading)
    case WriteMarker(h) => Enter(w, h, Purging).(marker := true)
    case RemoveMember(h, e) => w.(members := w.members - {e})
    case SeeEmpty(h) => Enter(w, h, Resetting)
    case ClearMarker(h) => Enter(w, h, Guarding(4)).(marker := false)
    case LockWork(h, b) =>
      w.(locks := Lock(w.locks, h, b, true), claims := w.claims[(h, b) := b == Schedule])
    case RecheckWork(h) =>
      if w.marker then w.(locks := Unlock(w.locks, h, Archive), claims := w.claims - {(h, Archive)})
      else w.(claims := w.claims[(h, Archive) := true])
    case UnlockWork(h, b) => w.(locks := Unlock(w.locks, h, b), claims := w.claims - {(h, b)})
    case AddMember(h, e) => w.(members := w.members + {e})
    case Close(h) => Closed(w, h)
  }

  // ---- runs ----------------------------------------------------------------------------

  /** A run of the protocol with every world it passes through. */
  ghost predicate IsTrace(worlds: seq<World>, log: seq<Action>) {
    && |worlds| == |log| + 1
    && forall i {:trigger log[i]} | 0 <= i < |log| ::
         Enabled(worlds[i], log[i]) && worlds[i + 1] == Do(worlds[i], log[i])
  }

  /** Nobody has the lock file open. */
  predicate Initial(w: World) {
    w.locks == Locks({}, {}) && w.phase == map[] && w.claims == map[]
  }

  lemma TraceSnoc(worlds: seq<World>, log: seq<Action>, a: Action)
    requires IsTrace(worlds, log) && Enabled(worlds[|log|], a)
    ensures IsTrace(worlds + [Do(worlds[|log|], a)], log + [a])
  {
    var worlds', log' := worlds + [Do(worlds[|log|], a)], log + [a];
    forall i {:trigger log'[i]} | 0 <= i < |log'|
      ensures Enabled(worlds'[i], log'[i]) && worlds'[i + 1] == Do(worlds'[i], log'[i])
    {
      if i < |log| {
        assert log'[i] == log[i];
      }
    }
  }
}
