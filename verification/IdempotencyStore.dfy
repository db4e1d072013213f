/**
 The idempotency middleware: one request through claim, lookup, handler and
 settlement, with every other request free to act in between.
 */
module IdempotencyStore {
  import opened Wrappers
  import opened IdempotencyProtocol

  class Table {
    var rows: map<Key, Row>
    var now: int
    // how many more statements of the caller fail, at most
    var faults: nat
    // the protocol run so far
    ghost var worlds: seq<World>
    ghost var log: seq<Action>
    ghost var at: World

    ghost predicate Valid()
      reads this
    {
      && IsTrace(worlds, log) && Initial(worlds[0]) && at == worlds[|log|]
      && at.rows == rows && at.now == now
    }

    ghost predicate Extends(w: seq<World>, l: seq<Action>)
      reads this`worlds, this`log
    {
      w <= worlds && l <= log
    }

    constructor (faults: nat)
      ensures Valid() && rows == map[] && this.faults == faults
    {
      rows, now := map[], 0;
      this.faults := faults;
      at := World(map[], 0, map[], {});
      worlds := [World(map[], 0, map[], {})];
      log := [];
    }

    ghost method Note(a: Action)
      requires IsTrace(worlds, log) && Initial(worlds[0]) && at == worlds[|log|] && Enabled(at, a)
      modifies this`worlds, this`log, this`at
      ensures IsTrace(worlds, log) && Initial(worlds[0]) && at == worlds[|log|]
      ensures Extends(old(worlds), old(log)) && at == Do(old(at), a)
      ensures log == old(log) + [a]
    {
      var before, so := worlds, log;
      at := Do(at, a);
      worlds := worlds + [at];
      log := log + [a];
      forall i {:trigger log[i]} | 0 <= i < |log|
        ensures Enabled(worlds[i], log[i]) && worlds[i + 1] == Do(worlds[i], log[i])
      {
        if i < |so| {
          assert log[i] == so[i];
        }
      }
    }

    /** A statement fails at will, as long as there are faults left. */
    method Statement() returns (ok: bool)
      modifies this`faults
      ensures Spent(old(faults), ok)
    {
      ok := *;
      if faults == 0 {
        ok := true;
      }
      if !ok {
        faults := faults - 1;
      }
    }

    /** Success met no fault, and an error exactly one. */
    ghost predicate Spent(before: nat, ok: bool)
      reads this`faults
    {
      before == faults + if ok then 0 else 1
    }

    /** Any number of steps of the clock, of pruning and of other requests. */
    method Others(p: Pid)
      requires Valid()
      modifies this
      ensures Valid() && Extends(old(worlds), old(log))
      ensures p in at.requests <==> p in old(at.requests)
      ensures p in at.requests ==> at.requests[p] == old(at.requests[p])
      ensures faults == old(faults)
    {
    }

    /** The caller answers with an error; its statement did nothing. */
    ghost method GiveUp(p: Pid)
      requires Valid() && p in at.requests
      modifies this`worlds, this`log, this`at
      ensures Valid() && Extends(old(worlds), old(log)) && at == old(at).(requests := old(at).requests - {p})
    {
      Note(Vanish(p));
    }

    /** The delete of an expired row at the head of a claim. */
    method RetireRow(p: Pid, key: Key, ghost hash: Hash) returns (ok: bool)
      requires Valid() && p in at.requests && at.requests[p] == Claiming(key, hash)
      modifies this
      ensures Valid() && Extends(old(worlds), old(log)) && Spent(old(faults), ok)
      ensures p in at.requests && at.requests[p] == if ok then Inserting(key, hash) else Claiming(key, hash)
    {
      Others(p);
      ok := Statement();
      if ok {
        if key in rows && rows[key].expires <= now {
          rows := rows - {key};
        }
        Note(Retire(p));
      }
    }

    /** The insert that decides the claim. */
    method InsertRow(p: Pid, key: Key, hash: Hash) returns (r: Result<bool, ()>)
      requires Valid() && p in at.requests && at.requests[p] == Inserting(key, hash)
      modifies this
      ensures Valid() && Extends(old(worlds), old(log)) && p in at.requests && Spent(old(faults), r.Ok?)
      ensures r.Err? ==> at.requests[p] == Inserting(key, hash)
      ensures r == Ok(true) ==> at.requests[p] == Executing(key, hash, now) && key in rows && rows[key] == Row(hash, None, now + TTL)
      ensures r == Ok(false) ==> at.requests[p] == Looking(key, hash) && key in rows
    {
      Others(p);
      var ok := Statement();
      if !ok {
        return Err(());
      }
      var claimed := key !in rows;
      if claimed {
        rows := rows[key := Row(hash, None, now + TTL)];
      }
      Note(Insert(p));
      r := Ok(claimed);
    }

    /** claim: retire an expired row, then insert. */
    method Claim(p: Pid, key: Key, hash: Hash) returns (r: Result<bool, ()>)
      requires Valid() && p in at.requests && at.requests[p] == Claiming(key, hash)
      modifies this
      ensures Valid() && Extends(old(worlds), old(log)) && p in at.requests && Spent(old(faults), r.Ok?)
      ensures r == Ok(true) ==> at.requests[p] == Executing(key, hash, now) && key in rows && rows[key] == Row(hash, None, now + TTL)
      ensures r == Ok(false) ==> at.requests[p] == Looking(key, hash) && key in rows
    {
      var ok := RetireRow(p, key, hash);
      r := Err(());
      if ok {
        r := InsertRow(p, key, hash);
      }
    }

    /** lookup: what a request gets that did not win the claim. */
    method Find(p: Pid, key: Key, hash: Hash) returns (r: Result<Answer, ()>)
      requires Valid() && p in at.requests && at.requests[p] == Looking(key, hash)
      modifies this
      ensures Valid() && Extends(old(worlds), old(log)) && p in at.requests && Spent(old(faults), r.Ok?)
      ensures r.Ok? ==> at.requests[p] == Answered(key, hash, r.value) && !r.value.Fresh? && Found(r.value, key, hash)
    {
      Others(p);
      var ok := Statement();
      if !ok {
        return Err(());
      }
      var a := InProgress;
      if key in rows && now < rows[key].expires {
        if rows[key].hash != hash {
          a := Reused;
        } else if rows[key].snapshot.Some? {
          a := Replay(rows[key].snapshot.value);
        }
      }
      Note(Look(p));
      r := Ok(a);
    }

    /** The answer that the live row of the key, or its absence, stands for. */
    ghost predicate Found(a: Answer, key: Key, hash: Hash)
      reads this`rows, this`now
    {
      && (a.Replay? ==> key in rows && rows[key].hash == hash && rows[key].snapshot == Some(a.r) && now < rows[key].expires)
      && (a.InProgress? <==>
            || key !in rows || rows[key].expires <= now
            || (rows[key].hash == hash && rows[key].snapshot.None?))
      && (a.Reused? ==> key in rows && rows[key].hash != hash && now < rows[key].expires)
    }

    /**
     store or release.  When the statement goes through, the row of a success
     holds its response, and after any other outcome there is none; its error is
     ignored, and leaves the row as it is.
     */
    method Settlement(p: Pid, key: Key, ghost hash: Hash, ghost claimed: int, r: Response)
      requires Valid() && p in at.requests && at.requests[p] == Responding(key, hash, claimed, r)
      modifies this
      ensures Valid() && Extends(old(worlds), old(log)) && p in at.requests
      ensures at.requests[p] == Answered(key, hash, Fresh(r))
      ensures faults <= old(faults) && (faults == old(faults) ==> Kept(key, r))
    {
      Others(p);
      var stored := Statement();
      if stored {
        if r.status >= 200 && r.status < 300 {
          if key in rows {
            rows := rows[key := rows[key].(snapshot := Some(r))];
          }
        } else {
          rows := rows - {key};
        }
      }
      Note(Settle(p, stored));
    }

    /** What a settled outcome leaves: the response of a success in the row that is there, and no row otherwise. */
    ghost predicate Kept(key: Key, r: Response)
      reads this`rows
    {
      if 200 <= r.status < 300 then key in rows ==> rows[key].snapshot == Some(r) else key !in rows
    }

    /** The handler and the settlement of its response. */
    method Execute(p: Pid, key: Key, ghost hash: Hash, ghost claimed: int, handler: Response)
      requires Valid() && p in at.requests && at.requests[p] == Executing(key, hash, claimed)
      modifies this
      ensures Valid() && Extends(old(worlds), old(log)) && p in at.requests
      ensures at.requests[p] == Answered(key, hash, Fresh(handler))
      ensures faults <= old(faults) && (faults == old(faults) ==> Kept(key, handler))
    {
      Others(p);
      Note(Finish(p, handler));
      Settlement(p, key, hash, claimed, handler);
    }

    /**
     wrap: a keyed request from arrival to answer; the handler runs at most once in
     it.  Only a failed statement makes it an error, and then no handler ran.
     */
    method Wrap(p: Pid, key: Key, hash: Hash, handler: Response) returns (r: Result<Answer, ()>)
      requires Valid() && p !in at.requests
      modifies this
      ensures Valid() && Extends(old(worlds), old(log))
      ensures r.Ok? ==> p in at.requests && at.requests[p] == Answered(key, hash, r.value)
      ensures r.Err? ==> p !in at.requests && faults < old(faults)
      ensures r.Ok? && r.value.Fresh? ==>
                && r.value.r == handler && faults <= old(faults)
                && (faults == old(faults) ==> Kept(key, handler))
      ensures r.Ok? && !r.value.Fresh? ==> Found(r.value, key, hash) && faults == old(faults)
    {
      Note(Arrive(p, key, hash));
      var claim := Claim(p, key, hash);
      r := Err(());
      if claim.Ok? {
        if claim.value {
          Execute(p, key, hash, now, handler);
          return Ok(Fresh(handler));
        }
        r := Find(p, key, hash);
      }
      if r.Err? {
        GiveUp(p);
      }
    }
  }
}
