/**
 The crash-safe restore of the node's five-file image as a step system.

 One system call is one step.  A process may die (or give up) between any two
 steps, a dead process may be followed by another one that recovers, and that
 one may die as well.  Digests are ideal: equal digests mean equal contents.
 */
module RestoreProtocol {
  import opened Wrappers

  type Content = seq<int>

  datatype Digest = Digest(of: Content)

  /** The five files replaced together. */
  datatype Member = Db | Key | Wal | Shm | KeyPrev

  type Image = map<Member, Content>

  const ORDER: seq<Member> := [Db, Key, Wal, Shm, KeyPrev]

  /** Position of a member in the order both replacement and recovery use. */
  function Rank(m: Member): nat {
    match m
    case Db => 0
    case Key => 1
    case Wal => 2
    case Shm => 3
    case KeyPrev => 4
  }

  // ---- staged archives -------------------------------------------------------

  datatype StageFile = DbFile | KeyFile | ConfigFile | ManifestFile

  /** The metadata file of a staged archive. */
  datatype Receipt = Receipt(files: map<StageFile, Digest>, original: bool)

  /** A staged archive; `uid` names this instance and never returns. */
  datatype Stage = Stage(uid: nat, receipt: Option<Receipt>, files: map<StageFile, Content>)

  datatype StageName = Pending | Preview(uid: nat)

  predicate WellFormed(r: Receipt) {
    DbFile in r.files && ManifestFile in r.files
  }

  /** loadStaged: every listed member present with its digest, and nothing else. */
  predicate Loadable(s: Stage) {
    && s.receipt.Some?
    && WellFormed(s.receipt.value)
    && s.files.Keys == s.receipt.value.files.Keys
    && forall f | f in s.files :: Digest(s.files[f]) == s.receipt.value.files[f]
  }

  // ---- images ----------------------------------------------------------------

  function Lookup(img: Image, m: Member): Option<Content> {
    if m in img then Some(img[m]) else None
  }

  function Put(img: Image, m: Member, c: Option<Content>): Image {
    match c
    case Some(v) => img[m := v]
    case None => img - {m}
  }

  /** What a completed restore leaves at `m`. */
  function Target(pre: Image, r: Receipt, m: Member): Option<Content>
    requires WellFormed(r)
  {
    match m
    case Db => Some(r.files[DbFile].of)
    case Key => if KeyFile in r.files then Some(r.files[KeyFile].of) else Lookup(pre, Key)
    case Wal => None
    case Shm => None
    case KeyPrev => if KeyFile in r.files then None else Lookup(pre, KeyPrev)
  }

  /** The complete image a restore of `r` over `pre` must produce. */
  function Restored(pre: Image, r: Receipt): (img: Image)
    requires WellFormed(r)
    ensures forall m :: Lookup(img, m) == Target(pre, r, m)
  {
    var all := {Db, Key, Wal, Shm, KeyPrev};
    map m | m in all && Target(pre, r, m).Some? :: Target(pre, r, m).value
  }

  /** The first `n` members already as in `post`, the others still as in `pre`. */
  ghost predicate Blended(img: Image, pre: Image, post: Image, n: nat) {
    forall m :: Lookup(img, m) == Lookup(if Rank(m) < n then post else pre, m)
  }

  ghost predicate SameLookups(a: Image, b: Image) {
    forall m :: Lookup(a, m) == Lookup(b, m)
  }

  lemma SameImage(a: Image, b: Image)
    requires SameLookups(a, b)
    ensures a == b
  {
    forall m ensures m in a <==> m in b {
      assert Lookup(a, m) == Lookup(b, m);
    }
    forall m | m in a ensures a[m] == b[m] {
      assert Lookup(a, m) == Lookup(b, m);
    }
  }

  lemma BlendedEnds(img: Image, pre: Image, post: Image, n: nat)
    requires Blended(img, pre, post, n)
    ensures n == 0 ==> img == pre
    ensures n == 5 ==> img == post
  {
    if n == 0 {
      assert SameLookups(img, pre);
      SameImage(img, pre);
    }
    if n == 5 {
      forall m ensures Lookup(img, m) == Lookup(post, m) {
        assert Rank(m) < 5;
      }
      SameImage(img, post);
    }
  }

  lemma BlendedStep(img: Image, pre: Image, post: Image, n: nat, c: Option<Content>)
    requires n < 5 && Blended(img, pre, post, n)
    requires c == Lookup(post, ORDER[n])
    ensures Blended(Put(img, ORDER[n], c), pre, post, n + 1)
  {
    var img' := Put(img, ORDER[n], c);
    forall m ensures Lookup(img', m) == Lookup(if Rank(m) < n + 1 then post else pre, m) {
      assert ORDER[Rank(m)] == m;
      assert Lookup(img, m) == Lookup(if Rank(m) < n then post else pre, m);
    }
  }

  // ---- the undo transaction ----------------------------------------------------

  datatype TxRecord = TxRecord(files: map<Member, Option<Digest>>, stage: StageName)

  datatype TxDir = TxDir(record: Option<TxRecord>, files: Image)

  /** The record lists all five members. */
  predicate FullRecord(r: TxRecord) {
    forall m {:trigger m in r.files} :: m in r.files
  }

  /** recoverPair: every protected original present with its recorded digest. */
  predicate Verified(t: TxDir) {
    && t.record.Some?
    && FullRecord(t.record.value)
    && forall m | m in t.record.value.files && t.record.value.files[m].Some? ::
         m in t.files && Digest(t.files[m]) == t.record.value.files[m].value
  }

  /** What recovery puts back at `m`. */
  function Original(t: TxDir, m: Member): Option<Content>
    requires Verified(t)
  {
    if t.record.value.files[m].Some? then Some(t.files[m]) else None
  }

  // ---- configurations and steps ------------------------------------------------

  /** The archive one apply works on: where it is and what its receipt lists. */
  datatype Job = Job(stage: StageName, uid: nat, receipt: Receipt)

  datatype Pc =
    | Idle                                                // nobody owns the data exclusively
    | Protecting(job: Job, copy: TxDir, left: set<Member>)  // copying originals aside
    | Replacing(job: Job, n: nat)                         // swapping member n
    | Retiring(job: Job)                                  // removing the consumed stage
    | Archiving(job: Job)                                 // turning the transaction into restore.previous
    | Checking                                            // recoverPair before its first write
    | RollingBack(n: nat)                                 // putting original n back
    | Dropping                                            // removing the pending stage
    | Clearing                                            // removing the transaction directory

  /** What observers remember; the program never reads it. */
  datatype History = History(pre: Image, post: Image, begun: set<nat>, committed: seq<nat>)

  datatype Config = Config(
    active: Image,
    tx: Option<TxDir>,
    stages: map<StageName, Stage>,
    previous: Option<TxDir>,
    kept: seq<TxDir>,
    pc: Pc,
    nextUid: nat,
    hist: History)

  datatype Action =
    // a restore
    | Begin(stage: StageName)
    | Protect(m: Member)
    | Publish
    | Replace
    | RetireFile(f: StageFile)
    | RetireReceipt
    | Replaced
    | Retired
    | SetAside
    | Commit
    | Fail
    // recovery
    | Recover
    | Check
    | RollBack
    | DropFile(f: StageFile)
    | DropReceipt
    | RolledBack
    | Dropped
    | ClearFile(m: Member)
    | ClearRecord
    | Cleared
    // death of the owner, or its return with an error
    | Crash
    // everybody else
    | Write(img: Image)
    | NewPreview(receipt: Option<Receipt>, files: map<StageFile, Content>)
    | Approve(uid: nat)
    | LoseFile(name: StageName, f: StageFile)
    | LoseReceipt(name: StageName)
    | LoseDir(name: StageName)

  // The steps by what they belong to.

  predicate OfReplacing(a: Action) {
    a.Begin? || a.Protect? || a.Publish? || a.Replace?
  }

  predicate OfEnding(a: Action) {
    a.Replaced? || a.Retired? || a.SetAside? || a.Commit?
  }

  predicate OfTurning(a: Action) {
    a.Fail? || a.Recover? || a.Check? || a.Crash?
  }

  predicate OfRollingBack(a: Action) {
    a.RollBack? || a.RolledBack? || a.Dropped? || a.Cleared?
  }

  predicate OfRemoving(a: Action) {
    a.RetireFile? || a.RetireReceipt? || a.DropFile? || a.DropReceipt? || a.ClearFile? || a.ClearRecord?
  }

  predicate OfLosing(a: Action) {
    a.LoseFile? || a.LoseReceipt? || a.LoseDir?
  }

  predicate OfOthers(a: Action) {
    a.Write? || a.NewPreview? || a.Approve?
  }

  predicate CanLose(c: Config, name: StageName) {
    name in c.stages
  }

  predicate EmptyStage(s: Stage) {
    s.receipt.None? && s.files == map[]
  }

  /** A stage that this apply may start from. */
  predicate Applicable(name: StageName, s: Stage) {
    && Loadable(s)
    && (name.Pending? ==> !s.receipt.value.original)
    && (name.Preview? ==> s.receipt.value.original && KeyFile in s.receipt.value.files)
  }

  /** The value replacement step `n` writes, or None where it leaves the member alone. */
  function Source(c: Config, job: Job, n: nat): Option<StageFile>
  {
    if n == 0 then Some(DbFile)
    else if n == 1 && KeyFile in job.receipt.files then Some(KeyFile)
    else None
  }

  /** Members removed by replacement step `n`. */
  predicate Removes(job: Job, n: nat) {
    n == 2 || n == 3 || (n == 4 && KeyFile in job.receipt.files)
  }

  predicate Enabled(c: Config, a: Action) {
    match a
    case Begin(name) =>
      c.pc.Idle? && c.tx.None? && name in c.stages && Applicable(name, c.stages[name])
    case Protect(m) => c.pc.Protecting? && m in c.pc.left
    case Publish => c.pc.Protecting? && c.pc.left == {}
    case Replace =>
      && c.pc.Replacing? && c.pc.n < 5
      && (Source(c, c.pc.job, c.pc.n).Some? ==>
            && c.pc.job.stage in c.stages
            && Source(c, c.pc.job, c.pc.n).value in c.stages[c.pc.job.stage].files)
    case RetireFile(f) => c.pc.Retiring? && CanLose(c, c.pc.job.stage)
    case RetireReceipt => c.pc.Retiring? && CanLose(c, c.pc.job.stage)
    case Replaced => c.pc.Replacing? && c.pc.n == 5
    case Retired =>
      c.pc.Retiring? && (c.pc.job.stage in c.stages ==> EmptyStage(c.stages[c.pc.job.stage]))
    case SetAside => c.pc.Archiving? && c.previous.Some?
    case Commit => c.pc.Archiving? && c.previous.None? && c.tx.Some?
    case Fail => c.pc.Replacing? || c.pc.Retiring? || c.pc.Archiving?
    case Recover => c.pc.Idle? && c.tx.Some?
    case Check => c.pc.Checking? && c.tx.Some? && Verified(c.tx.value)
    case RollBack => c.pc.RollingBack? && c.pc.n < 5 && c.tx.Some? && Verified(c.tx.value)
    case DropFile(f) => c.pc.Dropping? && CanLose(c, Pending)
    case DropReceipt => c.pc.Dropping? && CanLose(c, Pending)
    case RolledBack =>
      c.pc.RollingBack? && c.pc.n == 5 && c.tx.Some? && c.tx.value.record.Some?
    case Dropped => c.pc.Dropping? && (Pending in c.stages ==> EmptyStage(c.stages[Pending]))
    case ClearFile(m) => c.pc.Clearing? && c.tx.Some?
    case ClearRecord => c.pc.Clearing? && c.tx.Some?
    case Cleared =>
      c.pc.Clearing? && c.tx.Some? && c.tx.value.record.None? && c.tx.value.files == map[]
    case Crash => true
    case Write(img) => c.pc.Idle? && c.tx.None?
    case NewPreview(r, files) => true
    case Approve(uid) =>
      && c.pc.Idle? && Preview(uid) in c.stages && Pending !in c.stages
      && Loadable(c.stages[Preview(uid)]) && !c.stages[Preview(uid)].receipt.value.original
    case LoseFile(name, f) => CanLose(c, name)
    case LoseReceipt(name) => CanLose(c, name)
    case LoseDir(name) => CanLose(c, name) && EmptyStage(c.stages[name])
  }

  function WithoutFile(c: Config, name: StageName, f: StageFile): Config
    requires name in c.stages
  {
    c.(stages := c.stages[name := c.stages[name].(files := c.stages[name].files - {f})])
  }

  function WithoutReceipt(c: Config, name: StageName): Config
    requires name in c.stages
  {
    c.(stages := c.stages[name := c.stages[name].(receipt := None)])
  }

  function DoBegin(c: Config, name: StageName): Config
    requires Enabled(c, Begin(name))
  {
    var s := c.stages[name];
    c.(pc := Protecting(Job(name, s.uid, s.receipt.value),
                        TxDir(None, map[]), {Db, Key, Wal, Shm, KeyPrev}),
       hist := c.hist.(pre := c.active, post := Restored(c.active, s.receipt.value)))
  }

  /** The protective copy with one more original, or the note that there is none. */
  function WithOriginal(copy: TxDir, active: Image, m: Member, stage: StageName): TxDir {
    var listed := if copy.record.Some? then copy.record.value.files else map[];
    var entry := if m in active then Some(Digest(active[m])) else None;
    TxDir(Some(TxRecord(listed[m := entry], stage)), Put(copy.files, m, Lookup(active, m)))
  }

  /** Copies one original aside and notes its digest in the record being built. */
  function DoProtect(c: Config, m: Member): Config
    requires Enabled(c, Protect(m))
  {
    c.(pc := c.pc.(copy := WithOriginal(c.pc.copy, c.active, m, c.pc.job.stage), left := c.pc.left - {m}))
  }

  function DoReplace(c: Config): Config
    requires Enabled(c, Replace)
  {
    var job, n := c.pc.job, c.pc.n;
    var c' := c.(pc := c.pc.(n := n + 1));
    if Source(c, job, n).Some? then
      c'.(active := Put(c.active, ORDER[n], Some(c.stages[job.stage].files[Source(c, job, n).value])))
    else if Removes(job, n) then
      c'.(active := Put(c.active, ORDER[n], None))
    else
      c'
  }

  function DoCommit(c: Config): Config
    requires Enabled(c, Commit)
  {
    c.(previous := c.tx, tx := None, pc := Idle,
       hist := c.hist.(committed := c.hist.committed + [c.pc.job.uid]))
  }

  function Do(c: Config, a: Action): Config
    requires Enabled(c, a)
  {
    match a
    case Begin(name) => DoBegin(c, name)
    case Protect(m) => DoProtect(c, m)
    case Publish =>
      var job := c.pc.job;
      c.(tx := Some(c.pc.copy), pc := Replacing(job, 0),
         hist := c.hist.(begun := c.hist.begun + (if job.stage.Pending? then {job.uid} else {})))
    case Replace => DoReplace(c)
    case RetireFile(f) => WithoutFile(c, c.pc.job.stage, f)
    case RetireReceipt => WithoutReceipt(c, c.pc.job.stage)
    case Replaced => c.(pc := Retiring(c.pc.job))
    case Retired => c.(stages := c.stages - {c.pc.job.stage}, pc := Archiving(c.pc.job))
    case SetAside => c.(kept := c.kept + [c.previous.value], previous := None)
    case Commit => DoCommit(c)
    case Fail => c.(pc := Checking)
    case Recover => c.(pc := Checking)
    case Check => c.(pc := RollingBack(0))
    case RollBack =>
      c.(active := Put(c.active, ORDER[c.pc.n], Original(c.tx.value, ORDER[c.pc.n])),
         pc := RollingBack(c.pc.n + 1))
    case DropFile(f) => WithoutFile(c, Pending, f)
    case DropReceipt => WithoutReceipt(c, Pending)
    case RolledBack =>
      c.(pc := if c.tx.value.record.value.stage.Pending? then Dropping else Clearing)
    case Dropped => c.(stages := c.stages - {Pending}, pc := Clearing)
    case ClearFile(m) => c.(tx := Some(c.tx.value.(files := c.tx.value.files - {m})))
    case ClearRecord => c.(tx := Some(c.tx.value.(record := None)))
    case Cleared => c.(tx := None, pc := Idle)
    case Crash => c.(pc := Idle)
    case Write(img) => c.(active := img, hist := c.hist.(pre := img, post := img))
    case NewPreview(r, files) =>
      c.(stages := c.stages[Preview(c.nextUid) := Stage(c.nextUid, r, files)], nextUid := c.nextUid + 1)
    case Approve(uid) =>
      c.(stages := (c.stages - {Preview(uid)})[Pending := c.stages[Preview(uid)]])
    case LoseFile(name, f) => WithoutFile(c, name, f)
    case LoseReceipt(name) => WithoutReceipt(c, name)
    case LoseDir(name) => c.(stages := c.stages - {name})
  }

  // ---- runs --------------------------------------------------------------------

  predicate Feasible(c: Config, run: seq<Action>)
    decreases |run|
  {
    run == [] || (Enabled(c, run[0]) && Feasible(Do(c, run[0]), run[1..]))
  }

  function After(c: Config, run: seq<Action>): Config
    requires Feasible(c, run)
    decreases |run|
  {
    if run == [] then c else After(Do(c, run[0]), run[1..])
  }

  /** A node before its first restore. */
  predicate Initial(c: Config) {
    && c.pc.Idle? && c.tx.None? && c.stages == map[]
    && c.hist == History(c.active, c.active, {}, [])
  }

  /** A run together with every configuration it passes through. */
  ghost predicate IsTrace(states: seq<Config>, log: seq<Action>) {
    && |states| == |log| + 1
    && forall i {:trigger log[i]} | 0 <= i < |log| ::
         Enabled(states[i], log[i]) && states[i + 1] == Do(states[i], log[i])
  }

  lemma TraceSnoc(states: seq<Config>, log: seq<Action>, a: Action)
    requires IsTrace(states, log) && Enabled(states[|log|], a)
    ensures IsTrace(states + [Do(states[|log|], a)], log + [a])
  {
    var states', log' := states + [Do(states[|log|], a)], log + [a];
    forall i {:trigger log'[i]} | 0 <= i < |log'|
      ensures Enabled(states'[i], log'[i]) && states'[i + 1] == Do(states'[i], log'[i])
    {
      if i < |log| {
        assert log'[i] == log[i];
      }
    }
  }

  /** A trace is a run, and so is each of its beginnings. */
  lemma {:induction false} TraceIsRun(states: seq<Config>, log: seq<Action>)
    requires IsTrace(states, log)
    ensures Feasible(states[0], log) && After(states[0], log) == states[|log|]
    decreases |log|
  {
    if log != [] {
      assert Enabled(states[0], log[0]) && states[1] == Do(states[0], log[0]);
      forall i {:trigger log[1..][i]} | 0 <= i < |log[1..]|
        ensures Enabled(states[1..][i], log[1..][i]) && states[1..][i + 1] == Do(states[1..][i], log[1..][i])
      {
        assert log[1..][i] == log[i + 1];
      }
      TraceIsRun(states[1..], log[1..]);
    }
  }
}
