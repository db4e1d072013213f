/**
 What every run of the restore protocol keeps: whenever the data may be opened
 the five files are one complete image, and an approval is never replayed.
 */
module RestoreSafety {
  import opened Wrappers
  import opened RestoreProtocol

  // ---- the invariant -----------------------------------------------------------

  /** What the record must say about `m` when the protected image is `pre`. */
  function Entry(pre: Image, m: Member): Option<Digest> {
    if m in pre then Some(Digest(pre[m])) else None
  }

  /** The transaction directory holds only originals, and a record of all of them. */
  ghost predicate Faithful(t: TxDir, pre: Image) {
    && (forall m | m in t.files :: m in pre && t.files[m] == pre[m])
    && (t.record.Some? ==>
          forall m :: m in t.record.value.files && t.record.value.files[m] == Entry(pre, m))
  }

  /** A protective copy in progress: `left` is still to be copied. */
  ghost predicate CopyOk(t: TxDir, pre: Image, left: set<Member>, stage: StageName) {
    && (forall m :: Lookup(t.files, m) == if m in left then None else Lookup(pre, m))
    && (t.record.None? ==> forall m: Member :: m in left)
    && (t.record.Some? ==>
          && t.record.value.stage == stage
          && (forall m :: m in t.record.value.files <==> m !in left)
          && (forall m | m !in left :: t.record.value.files[m] == Entry(pre, m)))
  }

  ghost predicate StagesOk(c: Config) {
    && (forall name | name in c.stages ::
          c.stages[name].uid < c.nextUid && (name.Preview? ==> c.stages[name].uid == name.uid))
    && (Pending in c.stages ==> Preview(c.stages[Pending].uid) !in c.stages)
  }

  /** No stage carries `uid`, and none ever will again. */
  ghost predicate Dead(c: Config, uid: nat) {
    && uid < c.nextUid
    && Preview(uid) !in c.stages
    && (Pending in c.stages ==> c.stages[Pending].uid != uid)
  }

  ghost predicate JobOk(c: Config, job: Job) {
    && WellFormed(job.receipt)
    && job.uid < c.nextUid
    && job.uid !in c.hist.committed
    && (job.stage.Preview? ==> job.stage.uid == job.uid)
    && (job.stage.Pending? ==> Preview(job.uid) !in c.stages)
    && (job.stage in c.stages ==> c.stages[job.stage].uid == job.uid)
    && (job.stage.Preview? ==> (Pending in c.stages ==> c.stages[Pending].uid != job.uid))
    && c.hist.post == Restored(c.hist.pre, job.receipt)
  }

  /** What is left of the job's stage is what its receipt lists. */
  ghost predicate SourceOk(c: Config, job: Job) {
    job.stage in c.stages ==>
      forall f | f in c.stages[job.stage].files ::
        f in job.receipt.files && Digest(c.stages[job.stage].files[f]) == job.receipt.files[f]
  }

  /** The transaction can still undo the apply of `job`. */
  ghost predicate Undoable(c: Config, job: Job) {
    && c.tx.Some? && Verified(c.tx.value)
    && c.tx.value.record.value.stage == job.stage
    && JobOk(c, job)
  }

  ghost predicate ImagesOk(c: Config) {
    match c.pc
    case Idle => true
    case Protecting(job, copy, left) =>
      && c.tx.None? && c.active == c.hist.pre && JobOk(c, job) && SourceOk(c, job)
      && CopyOk(copy, c.hist.pre, left, job.stage)
    case Replacing(job, n) =>
      && Undoable(c, job) && SourceOk(c, job)
      && n <= 5 && Blended(c.active, c.hist.pre, c.hist.post, n)
    case Retiring(job) => Undoable(c, job) && c.active == c.hist.post
    case Archiving(job) => Undoable(c, job) && c.active == c.hist.post && Dead(c, job.uid)
    case Checking => c.tx.Some?
    case RollingBack(n) =>
      && c.tx.Some? && Verified(c.tx.value) && n <= 5
      && forall m | Rank(m) < n :: Lookup(c.active, m) == Lookup(c.hist.pre, m)
    case Dropping =>
      && c.tx.Some? && Verified(c.tx.value) && c.active == c.hist.pre
      && c.tx.value.record.value.stage.Pending?
    case Clearing => c.tx.Some? && c.active == c.hist.pre
  }

  ghost predicate TxOk(c: Config) {
    && (c.tx.None? ==>
          (c.pc.Idle? || c.pc.Protecting?) && (c.active == c.hist.pre || c.active == c.hist.post))
    && (c.tx.Some? ==>
          && Faithful(c.tx.value, c.hist.pre)
          && (!Verified(c.tx.value) ==>
                c.active == c.hist.pre && (c.pc.Idle? || c.pc.Checking? || c.pc.Clearing?)))
  }

  /** A pending stage whose replacement has begun outlives only an undoable transaction. */
  ghost predicate BegunOk(c: Config) {
    forall u | u in c.hist.begun ::
      && u < c.nextUid
      && Preview(u) !in c.stages
      && (Pending in c.stages && c.stages[Pending].uid == u ==>
            && c.tx.Some? && Verified(c.tx.value) && c.tx.value.record.value.stage.Pending?
            && !c.pc.Protecting? && !c.pc.Archiving? && !c.pc.Clearing?)
  }

  ghost predicate CommittedOk(c: Config) {
    && (forall i, j | 0 <= i < j < |c.hist.committed| :: c.hist.committed[i] != c.hist.committed[j])
    && (forall u | u in c.hist.committed :: Dead(c, u))
  }

  ghost predicate Inv(c: Config) {
    StagesOk(c) && ImagesOk(c) && TxOk(c) && BegunOk(c) && CommittedOk(c)
  }

  // ---- every step keeps it -------------------------------------------------------

  lemma FaithfulImage(t: TxDir, pre: Image)
    requires Faithful(t, pre) && Verified(t)
    ensures t.files == pre
    ensures forall m :: Original(t, m) == Lookup(pre, m)
  {
    forall m ensures m in t.files <==> m in pre {
      assert m in t.record.value.files && t.record.value.files[m] == Entry(pre, m);
    }
  }

  lemma CopyComplete(t: TxDir, pre: Image, left: set<Member>, stage: StageName)
    requires CopyOk(t, pre, left, stage) && left == {}
    ensures Faithful(t, pre) && Verified(t) && t.record.value.stage == stage
  {
    assert Db !in left;
    forall m | m in t.files ensures m in pre && t.files[m] == pre[m] {
      assert Lookup(t.files, m) == Lookup(pre, m);
    }
    forall m | m in t.record.value.files && t.record.value.files[m].Some?
      ensures m in t.files && Digest(t.files[m]) == t.record.value.files[m].value
    {
      assert Lookup(t.files, m) == Lookup(pre, m);
    }
  }

  lemma BeginKeeps(c: Config, name: StageName)
    requires Inv(c) && Enabled(c, Begin(name))
    ensures Inv(Do(c, Begin(name)))
  {
    var c' := Do(c, Begin(name));
    assert CopyOk(c'.pc.copy, c'.hist.pre, c'.pc.left, name) by {
      forall m: Member ensures m in c'.pc.left {
        assert m.Db? || m.Key? || m.Wal? || m.Shm? || m.KeyPrev?;
      }
    }
    assert SourceOk(c', c'.pc.job);
    assert c.stages[name].uid !in c.hist.committed;
  }

  /** One more original copied aside. */
  lemma CopyStep(copy: TxDir, pre: Image, left: set<Member>, stage: StageName, m: Member)
    requires CopyOk(copy, pre, left, stage) && m in left
    ensures var listed := if copy.record.Some? then copy.record.value.files else map[];
            CopyOk(TxDir(Some(TxRecord(listed[m := Entry(pre, m)], stage)), Put(copy.files, m, Lookup(pre, m))),
                   pre, left - {m}, stage)
  {
    var files := Put(copy.files, m, Lookup(pre, m));
    forall x ensures Lookup(files, x) == if x in left - {m} then None else Lookup(pre, x) {
      assert Lookup(copy.files, x) == if x in left then None else Lookup(pre, x);
    }
    if copy.record.None? {
      assert forall x: Member :: x in left;
    }
  }

  lemma ProtectKeeps(c: Config, m: Member)
    requires Inv(c) && Enabled(c, Protect(m))
    ensures Inv(Do(c, Protect(m)))
  {
    var c' := Do(c, Protect(m));
    CopyStep(c.pc.copy, c.hist.pre, c.pc.left, c.pc.job.stage, m);
    assert CopyOk(c'.pc.copy, c.hist.pre, c'.pc.left, c.pc.job.stage);
    assert JobOk(c', c'.pc.job) && SourceOk(c', c'.pc.job);
  }

  lemma PublishKeeps(c: Config)
    requires Inv(c) && Enabled(c, Publish)
    ensures Inv(Do(c, Publish))
  {
    var c' := Do(c, Publish);
    CopyComplete(c.pc.copy, c.hist.pre, c.pc.left, c.pc.job.stage);
    assert Blended(c'.active, c'.hist.pre, c'.hist.post, 0);
  }

  /** What replacement step `n` copies in is what the finished restore needs there. */
  lemma CopiedIn(c: Config, job: Job, n: nat)
    requires JobOk(c, job) && SourceOk(c, job) && Source(c, job, n).Some? && job.stage in c.stages
    requires Source(c, job, n).value in c.stages[job.stage].files && n < 5
    ensures Lookup(c.hist.post, ORDER[n]) == Some(c.stages[job.stage].files[Source(c, job, n).value])
  {
    var f := Source(c, job, n).value;
    assert Digest(c.stages[job.stage].files[f]) == job.receipt.files[f];
    assert Lookup(c.hist.post, ORDER[n]) == Target(c.hist.pre, job.receipt, ORDER[n]);
  }

  /** And so is what it removes or leaves alone. */
  lemma NotCopied(c: Config, job: Job, n: nat)
    requires JobOk(c, job) && Source(c, job, n).None? && n < 5
    ensures Lookup(c.hist.post, ORDER[n]) == if Removes(job, n) then None else Lookup(c.hist.pre, ORDER[n])
  {
    assert Lookup(c.hist.post, ORDER[n]) == Target(c.hist.pre, job.receipt, ORDER[n]);
  }

  lemma PutSame(img: Image, m: Member)
    ensures Put(img, m, Lookup(img, m)) == img
  {
  }

  /** Replacement step `n` leaves at its member exactly what the finished restore needs. */
  lemma ReplaceWrites(c: Config)
    requires Inv(c) && Enabled(c, Replace)
    ensures Do(c, Replace) == c.(pc := c.pc.(n := c.pc.n + 1),
                                 active := Put(c.active, ORDER[c.pc.n], Lookup(c.hist.post, ORDER[c.pc.n])))
  {
    var job, n := c.pc.job, c.pc.n;
    if Source(c, job, n).Some? {
      CopiedIn(c, job, n);
    } else {
      NotCopied(c, job, n);
      assert Rank(ORDER[n]) == n;
      PutSame(c.active, ORDER[n]);
    }
  }

  lemma ReplaceKeeps(c: Config)
    requires Inv(c) && Enabled(c, Replace)
    ensures Inv(Do(c, Replace))
  {
    var n, pre, post := c.pc.n, c.hist.pre, c.hist.post;
    var img := Put(c.active, ORDER[n], Lookup(post, ORDER[n]));
    ReplaceWrites(c);
    BlendedStep(c.active, pre, post, n, Lookup(post, ORDER[n]));
    AdvanceKeeps(c, c.(pc := c.pc.(n := n + 1), active := img));
  }

  /** Moving on to the next member keeps everything but the image. */
  lemma AdvanceKeeps(c: Config, c': Config)
    requires Inv(c) && c.pc.Replacing? && c.pc.n < 5
    requires c' == c.(pc := c.pc.(n := c.pc.n + 1), active := c'.active)
    requires Blended(c'.active, c.hist.pre, c.hist.post, c.pc.n + 1)
    ensures Inv(c')
  {
    assert StagesOk(c') && BegunOk(c') && CommittedOk(c');
    assert JobOk(c', c'.pc.job) && SourceOk(c', c'.pc.job);
  }

  /** `c'` is `c` with some stages holding less. */
  ghost predicate Shrunk(c: Config, c': Config) {
    && c' == c.(stages := c'.stages)
    && c'.stages.Keys == c.stages.Keys
    && forall s | s in c.stages ::
         && c'.stages[s].uid == c.stages[s].uid
         && forall f | f in c'.stages[s].files ::
              f in c.stages[s].files && c'.stages[s].files[f] == c.stages[s].files[f]
  }

  lemma ShrunkWithoutFile(c: Config, name: StageName, f: StageFile)
    requires name in c.stages
    ensures Shrunk(c, WithoutFile(c, name, f))
  {
  }

  lemma ShrunkWithoutReceipt(c: Config, name: StageName)
    requires name in c.stages
    ensures Shrunk(c, WithoutReceipt(c, name))
  {
  }

  /** Removing part of a stage, whoever does it, keeps the invariant. */
  lemma LossKeeps(c: Config, c': Config)
    requires Inv(c) && Shrunk(c, c')
    ensures Inv(c')
  {
    assert StagesOk(c') && BegunOk(c') && TxOk(c');
    forall u | u in c'.hist.committed ensures Dead(c', u) {
      assert Dead(c, u);
    }
    if c.pc.Replacing? || c.pc.Protecting? {
      assert JobOk(c', c.pc.job) && SourceOk(c', c.pc.job);
    }
  }

  /** So does removing a whole stage directory. */
  lemma DirLossKeeps(c: Config, name: StageName)
    requires Inv(c)
    ensures Inv(c.(stages := c.stages - {name}))
  {
  }

  lemma ReplacedKeeps(c: Config)
    requires Inv(c) && Enabled(c, Replaced)
    ensures Inv(Do(c, Replaced))
  {
    BlendedEnds(c.active, c.hist.pre, c.hist.post, 5);
    assert JobOk(Do(c, Replaced), c.pc.job);
  }

  lemma RetiredKeeps(c: Config)
    requires Inv(c) && Enabled(c, Retired)
    ensures Inv(Do(c, Retired))
  {
    DirLossKeeps(c, c.pc.job.stage);
    var d := c.(stages := c.stages - {c.pc.job.stage});
    assert Dead(d, c.pc.job.uid);
    assert JobOk(Do(c, Retired), c.pc.job);
  }

  lemma CommitKeeps(c: Config)
    requires Inv(c) && Enabled(c, Commit)
    ensures Inv(Do(c, Commit))
    ensures Do(c, Commit).previous.value.files == c.hist.pre
  {
    var c' := Do(c, Commit);
    FaithfulImage(c.tx.value, c.hist.pre);
    forall u | u in c'.hist.committed ensures Dead(c', u) {
      assert u in c.hist.committed || u == c.pc.job.uid;
      assert Dead(c, u);
    }
    forall u | u in c'.hist.begun
      ensures !(Pending in c'.stages && c'.stages[Pending].uid == u)
    {
      assert u in c.hist.begun;
    }
  }

  lemma SetAsideKeeps(c: Config)
    requires Inv(c) && Enabled(c, SetAside)
    ensures Inv(Do(c, SetAside))
  {
    assert JobOk(Do(c, SetAside), c.pc.job);
  }

  /** Putting back original n leaves the first n + 1 members as they were. */
  lemma PutBackNext(t: TxDir, pre: Image, active: Image, n: nat)
    requires Faithful(t, pre) && Verified(t) && n < 5
    requires forall m | Rank(m) < n :: Lookup(active, m) == Lookup(pre, m)
    ensures var now := Put(active, ORDER[n], Original(t, ORDER[n]));
            forall m | Rank(m) < n + 1 :: Lookup(now, m) == Lookup(pre, m)
  {
    FaithfulImage(t, pre);
    var now := Put(active, ORDER[n], Original(t, ORDER[n]));
    forall m | Rank(m) < n + 1 ensures Lookup(now, m) == Lookup(pre, m) {
      assert ORDER[Rank(m)] == m;
    }
  }

  lemma RollBackKeeps(c: Config)
    requires Inv(c) && Enabled(c, RollBack)
    ensures Inv(Do(c, RollBack))
  {
    PutBackNext(c.tx.value, c.hist.pre, c.active, c.pc.n);
    assert BegunOk(Do(c, RollBack));
  }

  /** All five members put back are the whole image. */
  lemma AllBack(active: Image, pre: Image)
    requires forall m | Rank(m) < 5 :: Lookup(active, m) == Lookup(pre, m)
    ensures active == pre
  {
    forall m ensures Lookup(active, m) == Lookup(pre, m) {
      assert Rank(m) < 5;
    }
    SameImage(active, pre);
  }

  lemma RolledBackKeeps(c: Config)
    requires Inv(c) && Enabled(c, RolledBack)
    ensures Inv(Do(c, RolledBack))
  {
    AllBack(c.active, c.hist.pre);
    assert BegunOk(Do(c, RolledBack));
  }

  lemma DroppedKeeps(c: Config)
    requires Inv(c) && Enabled(c, Dropped)
    ensures Inv(Do(c, Dropped))
  {
    DirLossKeeps(c, Pending);
    assert BegunOk(Do(c, Dropped));
  }

  lemma ClearFileKeeps(c: Config, m: Member)
    requires Inv(c) && Enabled(c, ClearFile(m))
    ensures Inv(Do(c, ClearFile(m)))
  {
    NoneBegun(c);
    assert BegunOk(Do(c, ClearFile(m)));
  }

  lemma ClearRecordKeeps(c: Config)
    requires Inv(c) && Enabled(c, ClearRecord)
    ensures Inv(Do(c, ClearRecord))
  {
    NoneBegun(c);
    assert BegunOk(Do(c, ClearRecord));
  }

  lemma ClearedKeeps(c: Config)
    requires Inv(c) && Enabled(c, Cleared)
    ensures Inv(Do(c, Cleared))
  {
    NoneBegun(c);
    assert BegunOk(Do(c, Cleared));
  }

  /** While the transaction is being removed the pending stage is not one whose replacement has begun. */
  lemma NoneBegun(c: Config)
    requires BegunOk(c) && c.pc.Clearing?
    ensures Pending in c.stages ==> c.stages[Pending].uid !in c.hist.begun
  {
  }

  lemma WriteKeeps(c: Config, img: Image)
    requires Inv(c) && Enabled(c, Write(img))
    ensures Inv(Do(c, Write(img)))
  {
    assert BegunOk(Do(c, Write(img)));
  }

  lemma NewPreviewKeeps(c: Config, a: Action)
    requires Inv(c) && Enabled(c, a) && a.NewPreview?
    ensures Inv(Do(c, a))
  {
    var c' := Do(c, a);
    forall u | u in c'.hist.committed ensures Dead(c', u) {
      assert Dead(c, u);
    }
    assert StagesOk(c') && BegunOk(c') && CommittedOk(c') && TxOk(c');
    PreviewImages(c, a);
  }

  lemma PreviewImages(c: Config, a: Action)
    requires Inv(c) && Enabled(c, a) && a.NewPreview?
    ensures ImagesOk(Do(c, a))
  {
    var c' := Do(c, a);
    if c.pc.Protecting? || c.pc.Replacing? || c.pc.Retiring? || c.pc.Archiving? {
      assert JobOk(c', c.pc.job);
      assert SourceOk(c, c.pc.job) ==> SourceOk(c', c.pc.job);
    }
  }

  lemma ApproveKeeps(c: Config, uid: nat)
    requires Inv(c) && Enabled(c, Approve(uid))
    ensures Inv(Do(c, Approve(uid)))
  {
    var c' := Do(c, Approve(uid));
    assert c'.stages[Pending] == c.stages[Preview(uid)];
    forall u | u in c'.hist.committed ensures Dead(c', u) {
      assert Dead(c, u);
    }
    assert StagesOk(c') && BegunOk(c');
  }

  lemma ReplacingKeeps(c: Config, a: Action)
    requires Inv(c) && Enabled(c, a) && OfReplacing(a)
    ensures Inv(Do(c, a))
  {
    match a
    case Begin(name) => BeginKeeps(c, name);
    case Protect(m) => ProtectKeeps(c, m);
    case Publish => PublishKeeps(c);
    case Replace => ReplaceKeeps(c);
  }

  lemma EndingKeeps(c: Config, a: Action)
    requires Inv(c) && Enabled(c, a) && OfEnding(a)
    ensures Inv(Do(c, a))
  {
    match a
    case Replaced => ReplacedKeeps(c);
    case Retired => RetiredKeeps(c);
    case SetAside => SetAsideKeeps(c);
    case Commit => CommitKeeps(c);
  }

  lemma TurningKeeps(c: Config, a: Action)
    requires Inv(c) && Enabled(c, a) && OfTurning(a)
    ensures Inv(Do(c, a))
  {
    assert BegunOk(Do(c, a)) && TxOk(Do(c, a));
  }

  lemma RollingBackKeeps(c: Config, a: Action)
    requires Inv(c) && Enabled(c, a) && OfRollingBack(a)
    ensures Inv(Do(c, a))
  {
    match a
    case RollBack => RollBackKeeps(c);
    case RolledBack => RolledBackKeeps(c);
    case Dropped => DroppedKeeps(c);
    case Cleared => ClearedKeeps(c);
  }

  lemma FileLossKeeps(c: Config, name: StageName, f: StageFile)
    requires Inv(c) && name in c.stages
    ensures Inv(WithoutFile(c, name, f))
  {
    ShrunkWithoutFile(c, name, f);
    LossKeeps(c, WithoutFile(c, name, f));
  }

  lemma ReceiptLossKeeps(c: Config, name: StageName)
    requires Inv(c) && name in c.stages
    ensures Inv(WithoutReceipt(c, name))
  {
    ShrunkWithoutReceipt(c, name);
    LossKeeps(c, WithoutReceipt(c, name));
  }

  lemma RemovingKeeps(c: Config, a: Action)
    requires Inv(c) && Enabled(c, a) && OfRemoving(a)
    ensures Inv(Do(c, a))
  {
    match a
    case RetireFile(f) => FileLossKeeps(c, c.pc.job.stage, f);
    case RetireReceipt => ReceiptLossKeeps(c, c.pc.job.stage);
    case DropFile(f) => FileLossKeeps(c, Pending, f);
    case DropReceipt => ReceiptLossKeeps(c, Pending);
    case ClearFile(m) => ClearFileKeeps(c, m);
    case ClearRecord => ClearRecordKeeps(c);
  }

  lemma LosingKeeps(c: Config, a: Action)
    requires Inv(c) && Enabled(c, a) && OfLosing(a)
    ensures Inv(Do(c, a))
  {
    match a
    case LoseFile(name, f) => FileLossKeeps(c, name, f);
    case LoseReceipt(name) => ReceiptLossKeeps(c, name);
    case LoseDir(name) => DirLossKeeps(c, name);
  }

  lemma OthersKeep(c: Config, a: Action)
    requires Inv(c) && Enabled(c, a) && OfOthers(a)
    ensures Inv(Do(c, a))
  {
    match a
    case Write(img) => WriteKeeps(c, img);
    case NewPreview(r, files) => NewPreviewKeeps(c, a);
    case Approve(uid) => ApproveKeeps(c, uid);
  }

  lemma StepKeeps(c: Config, a: Action)
    requires Inv(c) && Enabled(c, a)
    ensures Inv(Do(c, a))
  {
    if OfReplacing(a) {
      ReplacingKeeps(c, a);
    } else if OfEnding(a) {
      EndingKeeps(c, a);
    } else if OfTurning(a) {
      TurningKeeps(c, a);
    } else if OfRollingBack(a) {
      RollingBackKeeps(c, a);
    } else if OfRemoving(a) {
      RemovingKeeps(c, a);
    } else if OfLosing(a) {
      LosingKeeps(c, a);
    } else {
      OthersKeep(c, a);
    }
  }

  lemma InitialInv(c: Config)
    requires Initial(c)
    ensures Inv(c)
  {
  }

  /** The invariant holds after every run. */
  lemma {:induction false} RunKeeps(c: Config, run: seq<Action>)
    requires Inv(c) && Feasible(c, run)
    ensures Inv(After(c, run))
    decreases |run|
  {
    if run != [] {
      StepKeeps(c, run[0]);
      RunKeeps(Do(c, run[0]), run[1..]);
    }
  }
}
