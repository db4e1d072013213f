/** Whole-run guarantees of the restore protocol, stated without its bookkeeping. */
module RestoreTheorems {
  import opened Wrappers
  import opened RestoreProtocol
  import opened RestoreSafety

  /** CheckOpen lets a process open the data. */
  predicate OpenPermitted(c: Config) {
    c.tx.None?
  }

  /** No other restore starts and nobody opens the data for writing. */
  predicate Undisturbed(run: seq<Action>) {
    forall a | a in run :: !a.Begin? && !a.Write?
  }

  ghost predicate Reachable(c: Config) {
    exists c0, run {:trigger Initial(c0), Feasible(c0, run)} ::
      Initial(c0) && Feasible(c0, run) && After(c0, run) == c
  }

  lemma ReachableInv(c: Config)
    requires Reachable(c)
    ensures Inv(c)
  {
    var c0, run :| Initial(c0) && Feasible(c0, run) && After(c0, run) == c;
    InitialInv(c0);
    RunKeeps(c0, run);
  }

  // ---- all or nothing --------------------------------------------------------------

  ghost predicate SameImages(c: Config, c': Config) {
    c'.hist.pre == c.hist.pre && c'.hist.post == c.hist.post
  }

  lemma ProtectingStep(c: Config, a: Action)
    requires Inv(c) && Enabled(c, a) && (a.Protect? || a.Publish?)
    ensures SameImages(c, Do(c, a))
    ensures !c.pc.Idle? && Do(c, a).active == c.hist.pre
  {
  }

  /** A restore under way has its transaction in place, or has not touched the image yet. */
  lemma ReplacingStep(c: Config, a: Action)
    requires Inv(c) && Enabled(c, a) && OfReplacing(a) && !a.Begin?
    ensures SameImages(c, Do(c, a))
    ensures !c.pc.Idle? && (Do(c, a).tx.None? ==> Do(c, a).active == c.hist.pre)
  {
    if !a.Replace? {
      ProtectingStep(c, a);
    }
  }

  /** The commit opens the data with the new image, and no other step of the end opens it. */
  lemma EndingStep(c: Config, a: Action)
    requires Inv(c) && Enabled(c, a) && OfEnding(a)
    ensures SameImages(c, Do(c, a)) && !c.pc.Idle?
    ensures Do(c, a).tx.None? <==> a.Commit?
    ensures a.Commit? ==> Do(c, a).pc.Idle? && Do(c, a).active == c.hist.post
  {
    match a
    case Replaced =>
    case Retired =>
    case SetAside =>
    case Commit =>
  }

  lemma TurningStep(c: Config, a: Action)
    requires Inv(c) && Enabled(c, a) && OfTurning(a)
    ensures SameImages(c, Do(c, a)) && Do(c, a).tx == c.tx && Do(c, a).active == c.active
    ensures c.tx.None? ==> Do(c, a).pc.Idle?
  {
    match a
    case Fail =>
    case Recover =>
    case Check =>
    case Crash =>
  }

  /** A complete roll back opens the data with the old image. */
  lemma RollingBackStep(c: Config, a: Action)
    requires Inv(c) && Enabled(c, a) && OfRollingBack(a)
    ensures SameImages(c, Do(c, a)) && !c.pc.Idle?
    ensures Do(c, a).tx.None? ==> Do(c, a).active == c.hist.pre
  {
    match a
    case RollBack =>
    case RolledBack =>
    case Dropped =>
    case Cleared =>
  }

  lemma RemovingStep(c: Config, a: Action)
    requires Enabled(c, a) && OfRemoving(a)
    ensures SameImages(c, Do(c, a)) && Do(c, a).active == c.active && !c.pc.Idle?
    ensures Do(c, a).tx.None? <==> c.tx.None?
  {
    match a
    case RetireFile(f) =>
    case RetireReceipt =>
    case DropFile(f) =>
    case DropReceipt =>
    case ClearFile(m) =>
    case ClearRecord =>
  }

  /** Nobody but a restore, recovery and a writer touches the image. */
  lemma BystanderStep(c: Config, a: Action)
    requires Enabled(c, a) && (OfLosing(a) || OfOthers(a)) && !a.Write?
    ensures SameImages(c, Do(c, a)) && Do(c, a).active == c.active
    ensures Do(c, a).pc == c.pc && Do(c, a).tx == c.tx
  {
    match a
    case NewPreview(r, files) =>
    case Approve(uid) =>
    case LoseFile(name, f) =>
    case LoseReceipt(name) =>
    case LoseDir(name) =>
  }

  lemma UndisturbedStep(c: Config, a: Action, committed: bool)
    requires Inv(c) && Enabled(c, a) && !a.Begin? && !a.Write?
    requires c.tx.None? ==> c.active == if committed then c.hist.post else c.hist.pre
    requires committed ==> c.tx.None? && c.pc.Idle?
    ensures var c' := Do(c, a); var done := committed || a.Commit?;
            && c'.hist.pre == c.hist.pre && c'.hist.post == c.hist.post
            && (c'.tx.None? ==> c'.active == if done then c.hist.post else c.hist.pre)
            && (done ==> c'.tx.None? && c'.pc.Idle?)
  {
    if OfReplacing(a) {
      ReplacingStep(c, a);
    } else if OfEnding(a) {
      EndingStep(c, a);
    } else if OfTurning(a) {
      TurningStep(c, a);
    } else if OfRollingBack(a) {
      RollingBackStep(c, a);
    } else if OfRemoving(a) {
      RemovingStep(c, a);
    } else {
      BystanderStep(c, a);
    }
  }

  lemma {:induction false} UndisturbedRun(c: Config, run: seq<Action>, committed: bool)
    requires Inv(c) && Feasible(c, run) && Undisturbed(run)
    requires c.tx.None? ==> c.active == if committed then c.hist.post else c.hist.pre
    requires committed ==> c.tx.None? && c.pc.Idle?
    ensures var c' := After(c, run);
            c'.tx.None? ==>
              c'.active == if committed || Commit in run then c.hist.post else c.hist.pre
    decreases |run|
  {
    if run != [] {
      var a, c1 := run[0], Do(c, run[0]);
      assert a in run;
      StepKeeps(c, a);
      UndisturbedStep(c, a, committed);
      assert forall x | x in run[1..] :: x in run;
      UndisturbedRun(c1, run[1..], committed || a.Commit?);
      assert run == [a] + run[1..];
      assert Commit in run <==> a == Commit || Commit in run[1..];
    }
  }

  /**
   All or nothing: after a restore of stage `name` has started, through any
   number of failures, deaths and interrupted recoveries, whenever the data may
   be opened the five files are exactly the image before the restore or, once it
   committed, exactly the image it was asked to produce.
   */
  lemma AllOrNothing(c: Config, name: StageName, run: seq<Action>)
    requires Reachable(c) && Enabled(c, Begin(name))
    requires Feasible(Do(c, Begin(name)), run) && Undisturbed(run)
    requires OpenPermitted(After(Do(c, Begin(name)), run))
    ensures After(Do(c, Begin(name)), run).active
         == if Commit in run then Restored(c.active, c.stages[name].receipt.value) else c.active
  {
    ReachableInv(c);
    StepKeeps(c, Begin(name));
    UndisturbedRun(Do(c, Begin(name)), run, false);
  }

  /**
   The key pair is never mixed: an opening sees all five files of the old image,
   or the new database without the companions of the old one, together with the
   new key and no previous key.  An archive without a key, and only that,
   keeps the key files of the node.
   */
  lemma NeverAMixedPair(c: Config, name: StageName, run: seq<Action>)
    requires Reachable(c) && Enabled(c, Begin(name))
    requires Feasible(Do(c, Begin(name)), run) && Undisturbed(run)
    requires OpenPermitted(After(Do(c, Begin(name)), run))
    ensures var now := After(Do(c, Begin(name)), run).active;
            var files := c.stages[name].receipt.value.files;
            || (forall m :: Lookup(now, m) == Lookup(c.active, m))
            || (&& Lookup(now, Db) == Some(files[DbFile].of) && Lookup(now, Wal) == None && Lookup(now, Shm) == None
                && (if KeyFile in files then
                      Lookup(now, Key) == Some(files[KeyFile].of) && Lookup(now, KeyPrev) == None
                    else
                      Lookup(now, Key) == Lookup(c.active, Key) && Lookup(now, KeyPrev) == Lookup(c.active, KeyPrev)))
  {
    AllOrNothing(c, name, run);
    var receipt := c.stages[name].receipt.value;
    var img := Restored(c.active, receipt);
    assert forall m :: Lookup(img, m) == Target(c.active, receipt, m);
  }

  // ---- no replay -------------------------------------------------------------------

  lemma {:induction false} HistoryGrows(c: Config, run: seq<Action>)
    requires Feasible(c, run)
    ensures c.hist.begun <= After(c, run).hist.begun
    ensures c.hist.committed <= After(c, run).hist.committed
    decreases |run|
  {
    if run != [] {
      HistoryGrows(Do(c, run[0]), run[1..]);
    }
  }

  /**
   No replay: once the undo transaction of an approved pending stage is
   published, no state without a transaction still holds that stage.
   */
  lemma BegunStageIsConsumed(c: Config, run: seq<Action>, name: StageName)
    requires Reachable(c) && Enabled(c, Publish) && c.pc.job.stage.Pending?
    requires Feasible(Do(c, Publish), run)
    requires OpenPermitted(After(Do(c, Publish), run)) && name in After(Do(c, Publish), run).stages
    ensures After(Do(c, Publish), run).stages[name].uid != c.pc.job.uid
  {
    ReachableInv(c);
    StepKeeps(c, Publish);
    RunKeeps(Do(c, Publish), run);
    HistoryGrows(Do(c, Publish), run);
    assert c.pc.job.uid in After(Do(c, Publish), run).hist.begun;
  }

  /** A staged archive takes effect at most once. */
  lemma CommitsAtMostOnce(c: Config, run: seq<Action>)
    requires Reachable(c) && Enabled(c, Commit)
    requires Feasible(Do(c, Commit), run) && Enabled(After(Do(c, Commit), run), Commit)
    ensures After(Do(c, Commit), run).pc.job.uid != c.pc.job.uid
  {
    ReachableInv(c);
    StepKeeps(c, Commit);
    RunKeeps(Do(c, Commit), run);
    HistoryGrows(Do(c, Commit), run);
    var done := Do(c, Commit).hist.committed;
    assert done[|done| - 1] == c.pc.job.uid;
    assert After(Do(c, Commit), run).hist.committed[|done| - 1] == c.pc.job.uid;
  }

  // ---- what recovery can rely on -----------------------------------------------------

  /**
   Recovery refuses a transaction only after a complete roll back whose last
   clean-up was interrupted: the image is then whole already, and stays closed.
   */
  lemma RefusalLeavesWholeImage(c: Config, name: StageName, run: seq<Action>)
    requires Reachable(c) && Enabled(c, Begin(name))
    requires Feasible(Do(c, Begin(name)), run) && Undisturbed(run)
    requires var c' := After(Do(c, Begin(name)), run); c'.tx.Some? && !Verified(c'.tx.value)
    ensures After(Do(c, Begin(name)), run).active == c.active
  {
    ReachableInv(c);
    var c1 := Do(c, Begin(name));
    StepKeeps(c, Begin(name));
    RunKeeps(c1, run);
    PreStays(c1, run);
  }

  lemma {:induction false} PreStays(c: Config, run: seq<Action>)
    requires Feasible(c, run) && Undisturbed(run)
    ensures After(c, run).hist.pre == c.hist.pre
    decreases |run|
  {
    if run != [] {
      assert run[0] in run;
      assert forall x | x in run[1..] :: x in run;
      PreStays(Do(c, run[0]), run[1..]);
    }
  }

  /** The directory kept after a committed restore is the complete replaced image. */
  lemma CommitKeepsOriginals(c: Config, name: StageName, run: seq<Action>)
    requires Reachable(c) && Enabled(c, Begin(name))
    requires Feasible(Do(c, Begin(name)), run) && Undisturbed(run)
    requires Enabled(After(Do(c, Begin(name)), run), Commit)
    ensures var end := Do(After(Do(c, Begin(name)), run), Commit);
            end.previous.Some? && end.previous.value.files == c.active
  {
    ReachableInv(c);
    var c1 := Do(c, Begin(name));
    StepKeeps(c, Begin(name));
    RunKeeps(c1, run);
    PreStays(c1, run);
    CommitKeeps(After(c1, run));
  }
}
