/**
 The restore code itself: loops that copy, replace and remove files one system
 call at a time.  Every call is recorded as a step of the restore protocol, so
 each state a method passes through, and each state it could die in, is a state
 the protocol theorems speak about.
 */
module RestoreEngine {
  import opened Wrappers
  import opened RestoreProtocol
  import opened RestoreSafety

  datatype RecoverOutcome = NoTransaction | Recovered | Failed

  /** How turning the transaction into restore.previous can end. */
  datatype ArchiveOutcome =
    | Archived  // moved, and the directory synced
    | Unsynced  // moved, but the sync after it failed
    | Unmoved   // the transaction is still in place

  /** The stage may be applied: a current-schema pending one, or an original-schema preview with its key. */
  predicate Restorable(stages: map<StageName, Stage>, name: StageName) {
    && name in stages && Loadable(stages[name])
    && if name.Pending? then !stages[name].receipt.value.original
       else stages[name].receipt.value.original && KeyFile in stages[name].receipt.value.files
  }

  /** The preview may become the pending restore: loadable, of the current schema, and none is pending. */
  predicate Publishable(stages: map<StageName, Stage>, uid: nat) {
    && Preview(uid) in stages && Loadable(stages[Preview(uid)]) && !stages[Preview(uid)].receipt.value.original
    && Pending !in stages
  }

  /** Where the process goes on once the stage it was removing is gone. */
  function Emptied(pc: Pc): Pc {
    if pc.Retiring? then Archiving(pc.job) else Clearing
  }

  /** The directory entries of a stage. */
  function Entries(s: Stage): nat {
    |s.files.Keys| + if s.receipt.Some? then 1 else 0
  }

  class Engine {
    // the data directory
    var active: Image
    var tx: Option<TxDir>
    var stages: map<StageName, Stage>
    var previous: Option<TxDir>
    var kept: seq<TxDir>
    // how many more system calls fail, at most
    var faults: nat
    // the protocol run so far
    ghost var states: seq<Config>
    ghost var log: seq<Action>
    ghost var at: Config

    ghost predicate Traced()
      reads this`states, this`log, this`at
    {
      IsTrace(states, log) && Initial(states[0]) && at == states[|log|]
    }

    /** `states` and `log` are those of `s` and `l` with more steps at the end. */
    ghost predicate Extends(s: seq<Config>, l: seq<Action>)
      reads this`states, this`log
    {
      s <= states && l <= log
    }

    /** The run is a run of the protocol and has led to the directory as it is. */
    ghost predicate Valid()
      reads this
    {
      && Traced()
      && at.active == active && at.tx == tx && at.stages == stages
      && at.previous == previous && at.kept == kept
    }

    ghost predicate Resting()
      reads this
    {
      Valid() && at.pc.Idle?
    }

    /** A directory no restore has touched. */
    constructor (files: Image, faults: nat)
      ensures Resting() && active == files && tx.None? && stages == map[] && this.faults == faults
    {
      active, tx, stages, previous, kept := files, None, map[], None, [];
      this.faults := faults;
      at := Config(files, None, map[], None, [], Idle, 0, History(files, files, {}, []));
      states := [Config(files, None, map[], None, [], Idle, 0, History(files, files, {}, []))];
      log := [];
    }

    /** Records one protocol step. */
    ghost method Note(a: Action)
      requires Traced() && Enabled(at, a)
      modifies this`states, this`log, this`at
      ensures Traced() && Extends(old(states), old(log))
      ensures at == Do(old(at), a)
    {
      TraceSnoc(states, log, a);
      at := Do(at, a);
      states := states + [at];
      log := log + [a];
    }

    lemma Invariant()
      requires Traced()
      ensures Inv(at)
    {
      TraceIsRun(states, log);
      InitialInv(states[0]);
      RunKeeps(states[0], log);
    }

    /** The archive with metadata `p` staged as `name` has replaced the image `before`, kept aside. */
    ghost predicate Replacement(name: StageName, p: Receipt, before: Image)
      reads this`active, this`tx, this`stages, this`previous
    {
      && WellFormed(p) && active == Restored(before, p) && tx.None? && name !in stages
      && previous.Some? && previous.value.files == before
    }

    /**
     A system call fails at will, as long as there are faults left.  The sync of a
     directory is one too: when it fails, the change before it has been made.
     */
    method SystemCall() returns (ok: bool)
      modifies this`faults
      ensures Spent(old(faults), ok)
    {
      ok := *;
      if faults == 0 {
        ok := true;
      }
      if !ok {
        faults := faults - 1;
      }
    }

    /** Success met no fault, and an error exactly one. */
    ghost predicate Spent(before: nat, ok: bool)
      reads this`faults
    {
      before == faults + if ok then 0 else 1
    }

    /** The owner returns with an error; the directory stays as it is. */
    ghost method GiveUp()
      requires Valid()
      modifies this`states, this`log, this`at
      ensures Resting() && Extends(old(states), old(log)) && at.hist == old(at.hist)
    {
      Note(Crash);
    }

    // ---- removing directories --------------------------------------------------------

    /** `name` is the stage this process is removing. */
    ghost predicate Emptying(name: StageName)
      reads this`at
    {
      (at.pc.Retiring? && at.pc.job.stage == name) || (at.pc.Dropping? && name == Pending)
    }

    /** Unlinks one staged file. */
    method UnlinkStaged(name: StageName, f: StageFile) returns (ok: bool)
      requires Valid() && Emptying(name) && name in stages
      modifies this`stages, this`states, this`log, this`at, this`faults
      ensures Valid() && Extends(old(states), old(log)) && at.hist == old(at.hist) && at.pc == old(at.pc)
      ensures stages - {name} == old(stages) - {name} && name in stages
      ensures stages[name] == if ok then old(stages[name]).(files := old(stages[name]).files - {f}) else old(stages[name])
      ensures Spent(old(faults), ok)
    {
      ok := SystemCall();
      if ok {
        stages := stages[name := stages[name].(files := stages[name].files - {f})];
        Note(if at.pc.Retiring? then RetireFile(f) else DropFile(f));
      }
    }

    /** Unlinks the metadata file of a stage. */
    method UnlinkReceipt(name: StageName) returns (ok: bool)
      requires Valid() && Emptying(name) && name in stages
      modifies this`stages, this`states, this`log, this`at, this`faults
      ensures Valid() && Extends(old(states), old(log)) && at.hist == old(at.hist) && at.pc == old(at.pc)
      ensures stages - {name} == old(stages) - {name} && name in stages
      ensures stages[name] == if ok then old(stages[name]).(receipt := None) else old(stages[name])
      ensures Spent(old(faults), ok)
    {
      ok := SystemCall();
      if ok {
        stages := stages[name := stages[name].(receipt := None)];
        Note(if at.pc.Retiring? then RetireReceipt else DropReceipt);
      }
    }

    /** Removes the emptied stage directory. */
    method RmdirStage(name: StageName) returns (ok: bool)
      requires Valid() && Emptying(name) && (name in stages ==> EmptyStage(stages[name]))
      modifies this`stages, this`states, this`log, this`at, this`faults
      ensures Valid() && Extends(old(states), old(log)) && at.hist == old(at.hist)
      ensures stages == if ok then old(stages) - {name} else old(stages)
      ensures at.pc == if ok then Emptied(old(at.pc)) else old(at.pc)
      ensures Spent(old(faults), ok)
    {
      ok := SystemCall();
      if ok {
        stages := stages - {name};
        Note(if at.pc.Retiring? then Retired else Dropped);
      }
    }

    /** Unlinks the staged files and the metadata file in any order. */
    method UnlinkAllStaged(name: StageName) returns (ok: bool)
      requires Valid() && Emptying(name) && name in stages
      modifies this`stages, this`states, this`log, this`at, this`faults
      ensures Valid() && Extends(old(states), old(log)) && at.hist == old(at.hist) && at.pc == old(at.pc)
      ensures stages - {name} == old(stages) - {name} && name in stages
      ensures ok ==> EmptyStage(stages[name])
      ensures Spent(old(faults), ok)
    {
      ok := true;
      ghost var rest := stages - {name};
      while !EmptyStage(stages[name])
        invariant faults == old(faults)
        invariant Valid() && Extends(old(states), old(log)) && at.hist == old(at.hist) && at.pc == old(at.pc)
        invariant name in stages && stages - {name} == rest && ok
        decreases Entries(stages[name])
      {
        ok := UnlinkAnyStaged(name);
        if !ok {
          return;
        }
      }
    }

    /** Unlinks one of the entries of a stage. */
    method UnlinkAnyStaged(name: StageName) returns (ok: bool)
      requires Valid() && Emptying(name) && name in stages && !EmptyStage(stages[name])
      modifies this`stages, this`states, this`log, this`at, this`faults
      ensures Valid() && Extends(old(states), old(log)) && at.hist == old(at.hist) && at.pc == old(at.pc)
      ensures stages - {name} == old(stages) - {name} && name in stages
      ensures ok ==> Entries(stages[name]) < Entries(old(stages[name]))
      ensures Spent(old(faults), ok)
    {
      var metadata: bool := *;
      if stages[name].files == map[] || (metadata && stages[name].receipt.Some?) {
        ok := UnlinkReceipt(name);
      } else {
        var f :| f in stages[name].files;
        ghost var files := stages[name].files;
        assert (files - {f}).Keys == files.Keys - {f};
        ok := UnlinkStaged(name, f);
      }
    }

    /** os.RemoveAll of a stage, by apply or by recovery. */
    method RemoveStage(name: StageName) returns (ok: bool)
      requires Valid() && Emptying(name)
      modifies this`stages, this`states, this`log, this`at, this`faults
      ensures Valid() && Extends(old(states), old(log)) && at.hist == old(at.hist)
      ensures stages - {name} == old(stages) - {name}
      ensures ok ==> name !in stages
      ensures at.pc == if ok then Emptied(old(at.pc)) else old(at.pc)
      ensures Spent(old(faults), ok)
    {
      if name in stages {
        ok := UnlinkAllStaged(name);
        if !ok {
          return;
        }
      }
      ok := RmdirStage(name);
    }

    /** Unlinks one protected original. */
    method UnlinkOriginal(m: Member) returns (ok: bool)
      requires Valid() && at.pc.Clearing? && tx.Some?
      modifies this`tx, this`states, this`log, this`at, this`faults
      ensures Valid() && Extends(old(states), old(log)) && at.hist == old(at.hist) && at.pc == old(at.pc)
      ensures tx == if ok then Some(old(tx).value.(files := old(tx).value.files - {m})) else old(tx)
      ensures Spent(old(faults), ok)
    {
      ok := SystemCall();
      if ok {
        tx := Some(tx.value.(files := tx.value.files - {m}));
        Note(ClearFile(m));
      }
    }

    /** Unlinks the transaction record. */
    method UnlinkRecord() returns (ok: bool)
      requires Valid() && at.pc.Clearing? && tx.Some?
      modifies this`tx, this`states, this`log, this`at, this`faults
      ensures Valid() && Extends(old(states), old(log)) && at.hist == old(at.hist) && at.pc == old(at.pc)
      ensures tx == if ok then Some(old(tx).value.(record := None)) else old(tx)
      ensures Spent(old(faults), ok)
    {
      ok := SystemCall();
      if ok {
        tx := Some(tx.value.(record := None));
        Note(ClearRecord);
      }
    }

    /** Removes the emptied transaction directory, which reopens the data. */
    method RmdirTransaction() returns (ok: bool)
      requires Valid() && at.pc.Clearing? && tx == Some(TxDir(None, map[]))
      modifies this`tx, this`states, this`log, this`at, this`faults
      ensures Valid() && Extends(old(states), old(log)) && at.hist == old(at.hist)
      ensures ok <==> tx.None?
      ensures at.pc == if ok then Idle else old(at.pc)
      ensures Spent(old(faults), ok)
    {
      ok := SystemCall();
      if ok {
        tx := None;
        Note(Cleared);
      }
    }

    /** Unlinks the originals and the record in any order. */
    method UnlinkTransaction() returns (ok: bool)
      requires Valid() && at.pc.Clearing? && tx.Some?
      modifies this`tx, this`states, this`log, this`at, this`faults
      ensures Valid() && Extends(old(states), old(log)) && at.hist == old(at.hist) && at.pc.Clearing? && tx.Some?
      ensures ok ==> tx == Some(TxDir(None, map[]))
      ensures Spent(old(faults), ok)
    {
      ok := true;
      while tx.value.record.Some? || tx.value.files != map[]
        invariant faults == old(faults)
        invariant Valid() && Extends(old(states), old(log)) && at.hist == old(at.hist)
        invariant at.pc.Clearing? && tx.Some? && ok
        decreases |tx.value.files.Keys| + if tx.value.record.Some? then 1 else 0
      {
        var record: bool := *;
        if tx.value.files == map[] || (record && tx.value.record.Some?) {
          ok := UnlinkRecord();
        } else {
          var m :| m in tx.value.files;
          assert (tx.value.files - {m}).Keys == tx.value.files.Keys - {m};
          ok := UnlinkOriginal(m);
        }
        if !ok {
          return;
        }
      }
    }

    /** os.RemoveAll of the transaction directory after a complete roll back, and the sync. */
    method RemoveTransaction() returns (ok: bool)
      requires Valid() && at.pc.Clearing? && tx.Some?
      modifies this`tx, this`states, this`log, this`at, this`faults
      ensures Valid() && Extends(old(states), old(log)) && at.hist == old(at.hist)
      ensures ok ==> tx.None?
      ensures at.pc == if tx.None? then Idle else old(at.pc)
      ensures Spent(old(faults), ok)
    {
      ok := UnlinkTransaction();
      if !ok {
        return;
      }
      ok := RmdirTransaction();
      if ok {
        ok := SystemCall();
      }
    }

    // ---- recovery ----------------------------------------------------------------------

    /** Validates every original before the first one is put back. */
    method CheckOriginals(t: TxDir) returns (ok: bool)
      ensures ok <==> Verified(t)
    {
      if t.record.None? {
        return false;
      }
      var left := {Db, Key, Wal, Shm, KeyPrev};
      ghost var all := left;
      assert forall m: Member :: m in all by {
        forall m: Member ensures m in all {
          assert m.Db? || m.Key? || m.Wal? || m.Shm? || m.KeyPrev?;
        }
      }
      while left != {}
        invariant left <= all
        invariant forall m | m !in left ::
          && m in t.record.value.files
          && (t.record.value.files[m].Some? ==>
                m in t.files && Digest(t.files[m]) == t.record.value.files[m].value)
        decreases left
      {
        var m :| m in left;
        if m !in t.record.value.files {
          return false;
        }
        if t.record.value.files[m].Some?
           && (m !in t.files || Digest(t.files[m]) != t.record.value.files[m].value) {
          return false;
        }
        left := left - {m};
      }
      ok := true;
    }

    /** Puts original `n` back, or removes the member when there was none. */
    method PutBack(n: nat) returns (ok: bool)
      requires Valid() && at.pc == RollingBack(n) && n < 5 && tx.Some? && Verified(tx.value)
      modifies this`active, this`states, this`log, this`at, this`faults
      ensures Valid() && Extends(old(states), old(log)) && at.hist == old(at.hist)
      ensures at.pc == RollingBack(n) || at.pc == RollingBack(n + 1)
      ensures ok ==> at.pc == RollingBack(n + 1)
      ensures active == if at.pc == RollingBack(n) then old(active)
                        else Put(old(active), ORDER[n], Original(tx.value, ORDER[n]))
      ensures Spent(old(faults), ok)
    {
      ok := SystemCall();
      if ok {
        var m := ORDER[n];
        if tx.value.record.value.files[m].None? {
          active := active - {m};
        } else {
          active := active[m := tx.value.files[m]];
        }
        Note(RollBack);
        ok := SystemCall();
      }
    }

    /** All five originals back in place. */
    method PutAllBack() returns (ok: bool)
      requires Valid() && at.pc == RollingBack(0) && tx.Some? && Verified(tx.value)
      modifies this`active, this`states, this`log, this`at, this`faults
      ensures Valid() && Extends(old(states), old(log)) && at.hist == old(at.hist)
      ensures ok ==> at.pc == RollingBack(5)
      ensures Spent(old(faults), ok)
    {
      ok := true;
      for n := 0 to 5
        invariant faults == old(faults)
        invariant Valid() && Extends(old(states), old(log)) && at.hist == old(at.hist)
        invariant at.pc == RollingBack(n) && ok
      {
        ok := PutBack(n);
        if !ok {
          return;
        }
      }
    }

    /** Drops the consumed approval, if the restore was one, once the image is back. */
    method DropApproval() returns (ok: bool)
      requires Valid() && at.pc == RollingBack(5) && tx.Some? && Verified(tx.value)
      modifies this`stages, this`states, this`log, this`at, this`faults
      ensures Valid() && Extends(old(states), old(log)) && at.hist == old(at.hist)
      ensures ok ==> at.pc.Clearing? && (tx.value.record.value.stage.Pending? ==> Pending !in stages)
      ensures stages - {Pending} == old(stages) - {Pending}
      ensures !tx.value.record.value.stage.Pending? ==> stages == old(stages)
      ensures Spent(old(faults), ok)
    {
      ok := true;
      Note(RolledBack);
      if tx.value.record.value.stage.Pending? {
        ok := RemoveStage(Pending);
      }
    }

    /** Drops the consumed approval and the transaction once the image is back. */
    method FinishRecovery() returns (ok: bool)
      requires Valid() && at.pc == RollingBack(5) && tx.Some? && Verified(tx.value)
      modifies this`tx, this`stages, this`states, this`log, this`at, this`faults
      ensures Resting() && Extends(old(states), old(log)) && at.hist == old(at.hist)
      ensures ok ==> tx.None?
      ensures tx.None? ==> active == at.hist.pre
      ensures tx.None? && old(tx).value.record.value.stage.Pending? ==> Pending !in stages
      ensures stages - {Pending} == old(stages) - {Pending}
      ensures !old(tx).value.record.value.stage.Pending? ==> stages == old(stages)
      ensures Spent(old(faults), ok)
    {
      ok := DropApproval();
      if !ok {
        GiveUp();
        return;
      }
      Invariant();
      ok := RemoveTransaction();
      if !ok {
        GiveUp();
      }
    }

    /** Everything recoverPair does once the originals are verified. */
    method RollBackAll() returns (ok: bool)
      requires Valid() && at.pc == RollingBack(0) && tx.Some? && Verified(tx.value)
      modifies this`active, this`tx, this`stages, this`states, this`log, this`at, this`faults
      ensures Resting() && Extends(old(states), old(log)) && at.hist == old(at.hist)
      ensures ok ==> tx.None?
      ensures tx.None? ==> active == at.hist.pre
      ensures tx.None? && old(tx).value.record.value.stage.Pending? ==> Pending !in stages
      ensures stages - {Pending} == old(stages) - {Pending}
      ensures !old(tx).value.record.value.stage.Pending? ==> stages == old(stages)
      ensures Spent(old(faults), ok)
    {
      ok := PutAllBack();
      if !ok {
        GiveUp();
        return;
      }
      ok := FinishRecovery();
    }

    /** recoverPair: restores every original, then retires the transaction. */
    method RecoverPair() returns (ok: bool)
      requires Valid() && at.pc.Checking? && tx.Some?
      modifies this`active, this`tx, this`stages, this`states, this`log, this`at, this`faults
      ensures Resting() && Extends(old(states), old(log)) && at.hist == old(at.hist)
      ensures ok ==> tx.None?
      ensures tx.None? ==> Verified(old(tx).value) && active == at.hist.pre && active == old(tx).value.files
      ensures tx.None? && old(tx).value.record.value.stage.Pending? ==> Pending !in stages
      ensures !Verified(old(tx).value) ==> active == old(active) && tx == old(tx) && stages == old(stages)
      ensures stages - {Pending} == old(stages) - {Pending}
      ensures !old(tx).value.record.Some? || !old(tx).value.record.value.stage.Pending? ==> stages == old(stages)
      ensures if Verified(old(tx).value) then Spent(old(faults), ok) else !ok && faults == old(faults)
    {
      ok := CheckOriginals(tx.value);
      if !ok {
        GiveUp();
        return;
      }
      Invariant();
      FaithfulImage(tx.value, at.hist.pre);
      Note(Check);
      ok := RollBackAll();
    }

    /** recoverInterrupted: runs before anybody opens the data. */
    method RecoverInterrupted() returns (out: RecoverOutcome)
      requires Resting()
      modifies this
      ensures Resting() && Extends(old(states), old(log)) && at.hist == old(at.hist)
      ensures out.NoTransaction? <==> old(tx).None?
      ensures out.NoTransaction? ==> active == old(active) && stages == old(stages) && tx.None?
      ensures out.Recovered? ==> tx.None?
      ensures old(tx).Some? && tx.None? ==> Verified(old(tx).value) && active == old(tx).value.files
      ensures old(tx).Some? && tx.None? && old(tx).value.record.value.stage.Pending? ==> Pending !in stages
      ensures old(tx).Some? && !Verified(old(tx).value) ==>
                out.Failed? && active == old(active) && tx == old(tx) && stages == old(stages)
      ensures stages - {Pending} == old(stages) - {Pending}
      ensures old(tx).Some? && Verified(old(tx).value) ==> Spent(old(faults), out.Recovered?)
      ensures old(tx).None? || !Verified(old(tx).value) ==> faults == old(faults)
    {
      if tx.None? {
        return NoTransaction;
      }
      Note(Recover);
      var ok := RecoverPair();
      out := if ok then Recovered else Failed;
    }

    // ---- applying ------------------------------------------------------------------------

    /** loadStaged, as the check every apply and approval repeats. */
    method LoadStaged(name: StageName) returns (p: Option<Receipt>)
      ensures p.Some? <==> name in stages && Loadable(stages[name])
      ensures p.Some? ==> Some(p.value) == stages[name].receipt
      ensures p.Some? ==> DbFile in stages[name].files && ManifestFile in stages[name].files
    {
      if name !in stages || stages[name].receipt.None? {
        return None;
      }
      var s := stages[name];
      var r := s.receipt.value;
      if DbFile !in r.files || ManifestFile !in r.files || s.files.Keys != r.files.Keys {
        return None;
      }
      var left := s.files.Keys;
      while left != {}
        invariant left <= s.files.Keys
        invariant forall f | f in s.files && f !in left :: Digest(s.files[f]) == r.files[f]
        decreases left
      {
        var f :| f in left;
        if Digest(s.files[f]) != r.files[f] {
          return None;
        }
        left := left - {f};
      }
      p := Some(r);
    }

    /** Copies one original and notes its digest, or that there is none. */
    method CopyAside(stage: StageName, m: Member, copy: TxDir) returns (copy': TxDir)
      ensures copy' == WithOriginal(copy, active, m, stage)
    {
      var listed := if copy.record.Some? then copy.record.value.files else map[];
      if m in active {
        copy' := TxDir(Some(TxRecord(listed[m := Some(Digest(active[m]))], stage)), copy.files[m := active[m]]);
      } else {
        copy' := TxDir(Some(TxRecord(listed[m := None], stage)), copy.files - {m});
      }
    }

    /** Copies one original aside and notes it in the record. */
    method ProtectOne(stage: StageName, m: Member, copy: TxDir) returns (ok: bool, copy': TxDir)
      requires Valid() && at.pc.Protecting? && at.pc.job.stage == stage && at.pc.copy == copy && m in at.pc.left
      modifies this`states, this`log, this`at, this`faults
      ensures Valid() && Extends(old(states), old(log)) && at.hist == old(at.hist)
      ensures at.pc == if ok then Protecting(old(at.pc).job, copy', old(at.pc).left - {m}) else old(at.pc)
      ensures Spent(old(faults), ok)
    {
      copy' := copy;
      ok := SystemCall();
      if ok {
        copy' := CopyAside(stage, m, copy);
        Note(Protect(m));
      }
    }

    /** Renames the complete copy into place. */
    method PublishCopy(stage: StageName, copy: TxDir) returns (ok: bool)
      requires Valid() && at.pc.Protecting? && at.pc.job.stage == stage && at.pc.copy == copy && at.pc.left == {}
      requires tx.None?
      modifies this`tx, this`states, this`log, this`at, this`faults
      ensures Valid() && Extends(old(states), old(log))
      ensures at.hist.pre == old(at.hist.pre) && at.hist.post == old(at.hist.post)
      ensures ok ==> tx.Some?
      ensures tx.Some? ==>
        && at.pc == Replacing(old(at.pc).job, 0)
        && Verified(tx.value) && tx.value.files == active && tx.value.record.value.stage == stage
      ensures Spent(old(faults), ok)
    {
      ok := SystemCall();
      if !ok {
        return;
      }
      Invariant();
      CopyComplete(copy, at.hist.pre, {}, stage);
      FaithfulImage(copy, at.hist.pre);
      tx := Some(copy);
      Note(Publish);
      ok := SystemCall();
    }

    /**
     Copies the originals aside in any order, then publishes them as the
     transaction.  The rename decides: when only the sync after it fails, the
     caller gets an error with the transaction in place.
     */
    method ProtectOriginals(stage: StageName) returns (ok: bool)
      requires Valid() && at.pc.Protecting? && at.pc.job.stage == stage
      requires at.pc.Protecting? && at.pc.left == {Db, Key, Wal, Shm, KeyPrev}
      requires at.pc.copy == TxDir(None, map[]) && tx.None?
      modifies this`tx, this`states, this`log, this`at, this`faults
      ensures Valid() && Extends(old(states), old(log))
      ensures at.hist.pre == old(at.hist.pre) && at.hist.post == old(at.hist.post)
      ensures ok ==> tx.Some?
      ensures tx.Some? ==>
        && at.pc == Replacing(old(at.pc).job, 0)
        && Verified(tx.value) && tx.value.files == active && tx.value.record.value.stage == stage
      ensures Spent(old(faults), ok)
    {
      ghost var job := at.pc.job;
      var left := {Db, Key, Wal, Shm, KeyPrev};
      var copy := TxDir(None, map[]);
      while left != {}
        invariant faults == old(faults)
        invariant Valid() && Extends(old(states), old(log)) && at.hist == old(at.hist)
        invariant at.pc == Protecting(job, copy, left) && tx.None?
        decreases left
      {
        var m :| m in left;
        ok, copy := ProtectOne(stage, m, copy);
        if !ok {
          return;
        }
        left := left - {m};
      }
      ok := PublishCopy(stage, copy);
    }

    /** Replaces a member by a staged file. */
    method CopyIn(name: StageName, n: nat, f: StageFile) returns (ok: bool)
      requires Valid() && at.pc.Replacing? && n < 5
      requires at.pc.n == n && at.pc.job.stage == name && Source(at, at.pc.job, n) == Some(f)
      requires name in stages && f in stages[name].files
      modifies this`active, this`states, this`log, this`at, this`faults
      ensures Valid() && Extends(old(states), old(log)) && at.hist == old(at.hist)
      ensures at.pc == old(at.pc) || at.pc == Replacing(old(at.pc).job, n + 1)
      ensures ok ==> at.pc == Replacing(old(at.pc).job, n + 1)
      ensures Spent(old(faults), ok)
    {
      ok := SystemCall();
      if ok {
        active := active[ORDER[n] := stages[name].files[f]];
        Note(Replace);
        ok := SystemCall();
      }
    }

    /** Removes a companion of the old pair. */
    method TakeOut(n: nat) returns (ok: bool)
      requires Valid() && at.pc.Replacing? && n < 5
      requires at.pc.n == n && Source(at, at.pc.job, n).None? && Removes(at.pc.job, n)
      modifies this`active, this`states, this`log, this`at, this`faults
      ensures Valid() && Extends(old(states), old(log)) && at.hist == old(at.hist)
      ensures at.pc == old(at.pc) || at.pc == Replacing(old(at.pc).job, n + 1)
      ensures ok ==> at.pc == Replacing(old(at.pc).job, n + 1)
      ensures Spent(old(faults), ok)
    {
      ok := SystemCall();
      if ok {
        active := active - {ORDER[n]};
        Note(Replace);
        ok := SystemCall();
      }
    }

    /** Replaces or removes member `n`, or leaves it alone when the archive has no key. */
    method ReplaceMember(name: StageName, p: Receipt, n: nat) returns (ok: bool)
      requires Valid() && at.pc.Replacing? && n < 5
      requires at.pc.n == n && at.pc.job.stage == name && at.pc.job.receipt == p
      requires name in stages && Loadable(stages[name]) && stages[name].receipt == Some(p)
      modifies this`active, this`states, this`log, this`at, this`faults
      ensures Valid() && Extends(old(states), old(log)) && at.hist == old(at.hist)
      ensures at.pc == old(at.pc) || at.pc == Replacing(old(at.pc).job, n + 1)
      ensures ok ==> at.pc == Replacing(old(at.pc).job, n + 1)
      ensures Spent(old(faults), ok)
    {
      if (n == 1 || n == 4) && KeyFile !in p.files {
        Note(Replace);
        ok := true;
      } else if n == 0 {
        ok := CopyIn(name, n, DbFile);
      } else if n == 1 {
        ok := CopyIn(name, n, KeyFile);
      } else {
        ok := TakeOut(n);
      }
    }

    /** Swaps the database and the key in, then removes the companions of the old pair. */
    method ReplaceMembers(name: StageName, p: Receipt) returns (ok: bool)
      requires Valid() && at.pc.Replacing? && at.pc.n == 0 && at.pc.job.stage == name && at.pc.job.receipt == p
      requires name in stages && Loadable(stages[name]) && stages[name].receipt == Some(p)
      modifies this`active, this`states, this`log, this`at, this`faults
      ensures Valid() && Extends(old(states), old(log)) && at.hist == old(at.hist)
      ensures at.pc.Replacing? && at.pc.job == old(at.pc).job
      ensures ok ==> at.pc.n == 5 && WellFormed(p) && active == Restored(at.hist.pre, p)
      ensures Spent(old(faults), ok)
    {
      ghost var job := at.pc.job;
      for n := 0 to 5
        invariant faults == old(faults)
        invariant Valid() && Extends(old(states), old(log)) && at.hist == old(at.hist)
        invariant at.pc == Replacing(job, n)
      {
        ok := ReplaceMember(name, p, n);
        if !ok {
          return;
        }
      }
      Invariant();
      BlendedEnds(active, at.hist.pre, at.hist.post, 5);
      ok := true;
    }

    /** Sets an older restore.previous aside. */
    method MovePrevious() returns (ok: bool)
      requires Valid() && at.pc.Archiving?
      modifies this`previous, this`kept, this`states, this`log, this`at, this`faults
      ensures Valid() && Extends(old(states), old(log)) && at.hist == old(at.hist) && at.pc == old(at.pc)
      ensures ok ==> previous.None? && kept == old(kept) + (if old(previous).Some? then [old(previous).value] else [])
      ensures Spent(old(faults), ok)
    {
      ok := true;
      if previous.Some? {
        ok := SystemCall();
        if ok {
          kept := kept + [previous.value];
          previous := None;
          Note(SetAside);
        }
      }
    }

    /** Sets an older restore.previous aside and turns the transaction into the new one. */
    method ArchiveTransaction() returns (out: ArchiveOutcome)
      requires Valid() && at.pc.Archiving? && tx.Some?
      modifies this`tx, this`previous, this`kept, this`states, this`log, this`at, this`faults
      ensures Valid() && Extends(old(states), old(log))
      ensures at.hist.pre == old(at.hist.pre) && at.hist.post == old(at.hist.post)
      ensures out.Unmoved? ==> at.pc == old(at.pc) && tx == old(tx)
      ensures !out.Unmoved? ==> at.pc.Idle? && tx.None? && previous == old(tx)
      ensures !out.Unmoved? ==> kept == old(kept) + (if old(previous).Some? then [old(previous).value] else [])
      ensures Spent(old(faults), out.Archived?)
    {
      var ok := MovePrevious();
      if !ok {
        return Unmoved;
      }
      ok := SystemCall();
      if !ok {
        return Unmoved;
      }
      previous := tx;
      tx := None;
      Note(Commit);
      ok := SystemCall();
      out := if ok then Archived else Unsynced;
    }

    /** Rolls back in the same process after a failed step: that leaves no transaction unless another call fails. */
    method UndoApply()
      requires Valid() && tx.Some? && (at.pc.Replacing? || at.pc.Retiring? || at.pc.Archiving?)
      modifies this`active, this`tx, this`stages, this`states, this`log, this`at, this`faults
      ensures Resting() && Extends(old(states), old(log)) && at.hist == old(at.hist)
      ensures tx.None? ==> active == at.hist.pre
      ensures tx.None? && old(at.pc).job.stage.Pending? ==> Pending !in stages
      ensures stages - {old(at.pc).job.stage} == old(stages) - {old(at.pc).job.stage}
      ensures faults <= old(faults) && (old(faults) == 0 ==> tx.None?)
    {
      Invariant();
      Note(Fail);
      var _ := RecoverPair();
    }

    /** Removes the consumed stage and syncs the directory it was in. */
    method RetireStage(name: StageName) returns (ok: bool)
      requires Valid() && at.pc.Replacing? && at.pc.n == 5 && at.pc.job.stage == name && tx.Some?
      modifies this`stages, this`states, this`log, this`at, this`faults
      ensures Valid() && Extends(old(states), old(log)) && at.hist == old(at.hist)
      ensures stages - {name} == old(stages) - {name}
      ensures (at.pc.Retiring? || at.pc.Archiving?) && at.pc.job == old(at.pc).job
      ensures ok ==> at.pc.Archiving? && name !in stages
      ensures Spent(old(faults), ok)
    {
      Note(Replaced);
      ok := RemoveStage(name);
      if ok {
        ok := SystemCall();
      }
    }

    /** The end of a restore whose stage is gone. */
    method CommitOrUndo(name: StageName, p: Receipt) returns (ok: bool)
      requires Valid() && at.pc.Archiving? && at.pc.job.stage == name && tx.Some? && name !in stages
      requires WellFormed(p) && active == Restored(at.hist.pre, p)
      modifies this
      ensures Resting() && Extends(old(states), old(log)) && at.hist.pre == old(at.hist.pre)
      ensures ok ==> Replacement(name, p, at.hist.pre)
      ensures tx.None? ==> active == at.hist.pre || Replacement(name, p, at.hist.pre)
      ensures tx.None? && name.Pending? ==> Pending !in stages
      ensures stages - {name} == old(stages) - {name}
      ensures if ok then faults == old(faults) else faults < old(faults) && (old(faults) == 1 ==> tx.None?)
    {
      Invariant();
      FaithfulImage(tx.value, at.hist.pre);
      var out := ArchiveTransaction();
      ok := out.Archived?;
      if out.Unmoved? {
        UndoApply();
      }
    }

    /**
     Everything between the publication of the transaction and its end.  The
     rename that retires the transaction decides: an error before it rolls back, a
     failed sync after it is an error with the new image in place.  One fault alone
     never leaves the node closed.
     */
    method Transact(name: StageName, p: Receipt) returns (ok: bool)
      requires Valid() && at.pc.Replacing? && at.pc.n == 0 && at.pc.job.stage == name && at.pc.job.receipt == p
      requires tx.Some? && name in stages && Loadable(stages[name]) && stages[name].receipt == Some(p)
      modifies this
      ensures Resting() && Extends(old(states), old(log)) && at.hist.pre == old(at.hist.pre)
      ensures ok ==> Replacement(name, p, at.hist.pre)
      ensures tx.None? ==> active == at.hist.pre || Replacement(name, p, at.hist.pre)
      ensures tx.None? && name.Pending? ==> Pending !in stages
      ensures stages - {name} == old(stages) - {name}
      ensures if ok then faults == old(faults) else faults < old(faults) && (old(faults) == 1 ==> tx.None?)
    {
      ok := ReplaceMembers(name, p);
      if ok {
        ok := RetireStage(name);
      }
      if !ok {
        UndoApply();
        return;
      }
      ok := CommitOrUndo(name, p);
    }

    /**
     apply: the whole restore of the staged archive `name`.  Without a fault it
     succeeds; one fault leaves a transaction behind only where the sync after the
     publication is the call that failed, with nothing replaced yet.
     */
    method Apply(name: StageName, p: Receipt) returns (ok: bool)
      requires Resting()
      requires name in stages && stages[name].receipt == Some(p) && Applicable(name, stages[name])
      modifies this
      ensures Resting() && Extends(old(states), old(log))
      ensures ok ==> Replacement(name, p, old(active))
      ensures tx.None? ==> active == old(active) || Replacement(name, p, old(active))
      ensures stages - {name} == old(stages) - {name}
      ensures old(tx).Some? ==> !ok && tx == old(tx) && active == old(active) && stages == old(stages) && faults == old(faults)
      ensures old(tx).None? ==> if ok then faults == old(faults) else faults < old(faults)
      ensures old(tx).None? && old(faults) <= 1 && tx.Some? ==>
                active == old(active) && stages == old(stages) && Verified(tx.value) && tx.value.files == active
    {
      if tx.Some? {
        return false;
      }
      Note(Begin(name));
      ok := ProtectOriginals(name);
      if !ok {
        GiveUp();
        return;
      }
      ok := Transact(name, p);
    }

    /** applyStaged: the approved archive, or a refusal. */
    method ApplyStaged() returns (ok: bool)
      requires Resting()
      modifies this
      ensures Resting() && Extends(old(states), old(log))
      ensures ok ==> Restorable(old(stages), Pending) && Replacement(Pending, old(stages)[Pending].receipt.value, old(active))
      ensures !ok && tx.None? ==>
        || active == old(active)
        || (Restorable(old(stages), Pending) && Replacement(Pending, old(stages)[Pending].receipt.value, old(active)))
      ensures stages - {Pending} == old(stages) - {Pending}
      ensures old(tx).Some? ==> !ok && active == old(active) && tx == old(tx) && stages == old(stages)
      // the answer when no call fails
      ensures faults <= old(faults)
      ensures old(tx).None? && faults == old(faults) ==>
        (ok <==> Pending in old(stages) && Loadable(old(stages)[Pending]) && !old(stages)[Pending].receipt.value.original)
      ensures old(tx).None? && faults == old(faults) && !ok ==> active == old(active) && stages == old(stages) && tx.None?
    {
      var p := LoadStaged(Pending);
      if p.None? || p.value.original {
        return false;
      }
      ok := Apply(Pending, p.value);
    }

    /** ApplyOriginal: an original-schema preview that carries its key. */
    method ApplyOriginal(uid: nat) returns (ok: bool)
      requires Resting()
      modifies this
      ensures Resting() && Extends(old(states), old(log))
      ensures ok ==>
        && Restorable(old(stages), Preview(uid))
        && Replacement(Preview(uid), old(stages)[Preview(uid)].receipt.value, old(active))
      ensures !ok && tx.None? ==>
        || active == old(active)
        || (&& Restorable(old(stages), Preview(uid))
            && Replacement(Preview(uid), old(stages)[Preview(uid)].receipt.value, old(active)))
      ensures stages - {Preview(uid)} == old(stages) - {Preview(uid)}
      ensures old(tx).Some? ==> !ok && active == old(active) && tx == old(tx) && stages == old(stages)
      // the answer when no call fails
      ensures faults <= old(faults)
      ensures old(tx).None? && faults == old(faults) ==>
        (ok <==> && Preview(uid) in old(stages) && Loadable(old(stages)[Preview(uid)])
                 && old(stages)[Preview(uid)].receipt.value.original
                 && KeyFile in old(stages)[Preview(uid)].receipt.value.files)
      ensures old(tx).None? && faults == old(faults) && !ok ==> active == old(active) && stages == old(stages) && tx.None?
    {
      var p := LoadStaged(Preview(uid));
      if p.None? || !p.value.original || KeyFile !in p.value.files {
        return false;
      }
      ok := Apply(Preview(uid), p.value);
    }

    /**
     approve: publishes a checked preview as the pending restore, never over
     another one.  The rename decides, whatever the sync after it answers.
     */
    method Approve(uid: nat) returns (ok: bool)
      requires Resting()
      modifies this`stages, this`states, this`log, this`at, this`faults
      ensures Resting() && Extends(old(states), old(log))
      ensures ok ==> Publishable(old(stages), uid)
      ensures stages == old(stages)
           || (Publishable(old(stages), uid) && stages == (old(stages) - {Preview(uid)})[Pending := old(stages)[Preview(uid)]])
      ensures ok ==> stages == (old(stages) - {Preview(uid)})[Pending := old(stages)[Preview(uid)]]
      // the answer when no call fails
      ensures Publishable(old(stages), uid) ==> Spent(old(faults), ok)
      ensures !Publishable(old(stages), uid) ==> !ok && faults == old(faults)
    {
      var p := LoadStaged(Preview(uid));
      if p.None? || p.value.original || Pending in stages {
        return false;
      }
      ok := SystemCall();
      if !ok {
        return;
      }
      stages := (stages - {Preview(uid)})[Pending := stages[Preview(uid)]];
      Note(RestoreProtocol.Approve(uid));
      ok := SystemCall();
    }

    /**
     consumePendingRestore at boot: recovery first (which ends this boot with an
     error), then the approved archive if there is one.
     */
    method ConsumePending(guarded: bool) returns (r: Result<bool, ()>)
      requires Resting()
      modifies this
      ensures Resting() && Extends(old(states), old(log))
      ensures guarded ==> r.Err? && active == old(active) && tx == old(tx) && stages == old(stages)
      ensures r.Ok? ==> old(tx).None? && tx.None? && Pending !in stages
      ensures r == Ok(false) ==> Pending !in old(stages) && active == old(active)
      ensures r == Ok(true) ==>
        Restorable(old(stages), Pending) && active == Restored(old(active), old(stages)[Pending].receipt.value)
      ensures r.Err? && old(tx).Some? && tx.None? ==> active == old(tx).value.files
      ensures r.Err? && old(tx).None? && tx.None? ==>
        || active == old(active)
        || (Restorable(old(stages), Pending) && Replacement(Pending, old(stages)[Pending].receipt.value, old(active)))
      ensures stages - {Pending} == old(stages) - {Pending}
      // a transaction that cannot be verified stays, and keeps the node closed
      ensures old(tx).Some? && !Verified(old(tx).value) ==>
        r.Err? && active == old(active) && tx == old(tx) && stages == old(stages)
      // the answer when no call fails: recover, or start, or apply the approved archive and nothing else
      ensures faults <= old(faults)
      ensures !guarded && faults == old(faults) && old(tx).Some? && Verified(old(tx).value) ==>
        r.Err? && tx.None? && active == old(tx).value.files
      ensures !guarded && faults == old(faults) && old(tx).None? ==>
        r == if Pending !in old(stages) then Ok(false)
             else if Loadable(old(stages)[Pending]) && !old(stages)[Pending].receipt.value.original then Ok(true)
             else Err(())
      ensures faults == old(faults) && old(tx).None? && r.Err? ==> active == old(active) && stages == old(stages) && tx.None?
    {
      if guarded {
        return Err(());
      }
      var recovered := RecoverInterrupted();
      if !recovered.NoTransaction? {
        return Err(());
      }
      if Pending !in stages {
        return Ok(false);
      }
      var ok := ApplyStaged();
      r := if ok then Ok(true) else Err(());
    }

    // ---- cancelling ------------------------------------------------------------------

    /** Unlinks one of the entries of the pending stage while no restore uses it. */
    method DiscardAny() returns (ok: bool)
      requires Resting() && Pending in stages && !EmptyStage(stages[Pending])
      modifies this`stages, this`states, this`log, this`at, this`faults
      ensures Resting() && Extends(old(states), old(log))
      ensures Pending in stages && stages - {Pending} == old(stages) - {Pending}
      ensures ok ==> Entries(stages[Pending]) < Entries(old(stages[Pending]))
      ensures Spent(old(faults), ok)
    {
      ok := SystemCall();
      if !ok {
        return;
      }
      var metadata: bool := *;
      if stages[Pending].files == map[] || (metadata && stages[Pending].receipt.Some?) {
        stages := stages[Pending := stages[Pending].(receipt := None)];
        Note(LoseReceipt(Pending));
      } else {
        var f :| f in stages[Pending].files;
        DiscardFile(f);
      }
    }

    method DiscardFile(f: StageFile)
      requires Resting() && Pending in stages && f in stages[Pending].files
      modifies this`stages, this`states, this`log, this`at
      ensures Resting() && Extends(old(states), old(log))
      ensures Pending in stages && stages - {Pending} == old(stages) - {Pending}
      ensures Entries(stages[Pending]) < Entries(old(stages[Pending]))
    {
      var s := stages[Pending];
      assert (s.files - {f}).Keys == s.files.Keys - {f};
      stages := stages[Pending := s.(files := s.files - {f})];
      Note(LoseFile(Pending, f));
    }

    /** Unlinks all of them, in any order. */
    method DiscardAll() returns (ok: bool)
      requires Resting() && Pending in stages
      modifies this`stages, this`states, this`log, this`at, this`faults
      ensures Resting() && Extends(old(states), old(log))
      ensures Pending in stages && stages - {Pending} == old(stages) - {Pending}
      ensures ok ==> EmptyStage(stages[Pending])
      ensures Spent(old(faults), ok)
    {
      ok := true;
      ghost var rest := stages - {Pending};
      while !EmptyStage(stages[Pending])
        invariant faults == old(faults)
        invariant Resting() && Extends(old(states), old(log)) && ok
        invariant Pending in stages && stages - {Pending} == rest
        decreases Entries(stages[Pending])
      {
        ok := DiscardAny();
        if !ok {
          return;
        }
      }
    }

    /** os.RemoveAll of the pending stage while no restore uses it. */
    method Discard() returns (ok: bool)
      requires Resting() && Pending in stages
      modifies this`stages, this`states, this`log, this`at, this`faults
      ensures Resting() && Extends(old(states), old(log))
      ensures stages - {Pending} == old(stages) - {Pending}
      ensures ok ==> Pending !in stages
      ensures Spent(old(faults), ok)
    {
      ok := DiscardAll();
      if ok {
        ok := SystemCall();
      }
      if ok {
        stages := stages - {Pending};
        Note(LoseDir(Pending));
      }
    }

    /**
     CancelPending: removes the approved restore the caller was shown, and leaves
     any other one alone.
     */
    method CancelPending(expected: Receipt) returns (ok: bool)
      requires Resting()
      modifies this`stages, this`states, this`log, this`at, this`faults
      ensures Resting() && Extends(old(states), old(log))
      ensures stages - {Pending} == old(stages) - {Pending}
      ensures ok ==> Pending in old(stages) && old(stages)[Pending].receipt == Some(expected) && Pending !in stages
      ensures Pending !in old(stages) || old(stages)[Pending].receipt != Some(expected) ==> !ok && stages == old(stages)
      // the answer when no call fails
      ensures Shown(old(stages), expected) ==> Spent(old(faults), ok)
      ensures !Shown(old(stages), expected) ==> !ok && stages == old(stages) && faults == old(faults)
    {
      if !Shown(stages, expected) {
        return false;
      }
      ok := Discard();
      if ok {
        ok := SystemCall();
      }
    }
  }

  /** The pending restore is the one with this metadata. */
  predicate Shown(stages: map<StageName, Stage>, expected: Receipt) {
    Pending in stages && stages[Pending].receipt == Some(expected) && WellFormed(expected)
  }
}
