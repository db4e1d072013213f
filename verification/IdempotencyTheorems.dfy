/** What idempotency keys promise over every run, and what the promise needs. */
module IdempotencyTheorems {
  import opened Wrappers
  import opened IdempotencyProtocol

  lemma {:induction false} HistoryGrows(worlds: seq<World>, log: seq<Action>, i: nat, j: nat)
    requires IsTrace(worlds, log) && i <= j <= |log|
    ensures worlds[i].wins <= worlds[j].wins && worlds[i].now <= worlds[j].now
    decreases j
  {
    if i < j {
      HistoryGrows(worlds, log, i, j - 1);
      assert log[j - 1] == log[j - 1];
    }
  }

  /** Two handlers of one token and key never run at the same time. */
  lemma ExecutionsNeverOverlap(worlds: seq<World>, log: seq<Action>, i: nat, p: Pid, q: Pid)
    requires IsRun(worlds, log) && i <= |log|
    requires p in worlds[i].requests && q in worlds[i].requests
    requires Active(worlds[i].requests[p]) && Active(worlds[i].requests[q])
    requires worlds[i].requests[p].key == worlds[i].requests[q].key
    ensures p == q
  {
    RunKeeps(worlds, log, i);
  }

  /** One key has at most one successful execution per lifetime of 24 hours. */
  lemma OneEffectPerLifetime(worlds: seq<World>, log: seq<Action>, i: nat, a: Win, b: Win)
    requires IsRun(worlds, log) && i <= |log|
    requires a in worlds[i].wins && b in worlds[i].wins && a.key == b.key && a.claimed <= b.claimed < a.claimed + 86400
    ensures a == b
  {
    RunKeeps(worlds, log, i);
  }

  /**
   After a 2xx outcome no handler starts for the key until the row expires,
   whether or not the response could be stored and whatever dies or is pruned
   in between.
   */
  lemma NoHandlerAfterSuccess(worlds: seq<World>, log: seq<Action>, i: nat, j: nat, v: Win, p: Pid)
    requires IsRun(worlds, log) && i <= j < |log| && v in worlds[i].wins
    requires log[j] == Insert(p) && p in worlds[j + 1].requests
    requires worlds[j + 1].requests[p].Executing? && worlds[j + 1].requests[p].key == v.key
    ensures v.claimed + TTL <= worlds[j].now
  {
    HistoryGrows(worlds, log, i, j);
    RunKeeps(worlds, log, j);
    assert log[j] == log[j];
    InsertIsLate(worlds[j], v.key, v);
  }

  /** A request executes under its own row only: never while a row with another hash is there. */
  lemma OtherHashNeverExecutes(worlds: seq<World>, log: seq<Action>, i: nat, p: Pid)
    requires IsRun(worlds, log) && i <= |log| && p in worlds[i].requests && worlds[i].requests[p].Executing?
    ensures var q := worlds[i].requests[p];
            q.key in worlds[i].rows && worlds[i].rows[q.key].hash == q.hash
  {
    RunKeeps(worlds, log, i);
    assert OwnsRow(worlds[i], worlds[i].requests[p]);
  }

  /** A replay repeats the response of the one success of the key that is still alive, for the same request. */
  lemma ReplayIsTheFirstResponse(worlds: seq<World>, log: seq<Action>, i: nat, p: Pid, v: Win)
    requires IsRun(worlds, log) && i < |log| && log[i] == Look(p)
    requires worlds[i + 1].requests[p].answer.Replay?
    requires v in worlds[i].wins && v.key == worlds[i].requests[p].key && worlds[i].now < v.claimed + TTL
    ensures worlds[i + 1].requests[p].answer == Replay(v.response)
    ensures v.hash == worlds[i].requests[p].hash
  {
    RunKeeps(worlds, log, i);
    assert log[i] == log[i];
  }

  /** Nothing is replayed that did not succeed. */
  lemma ReplayHasASuccess(worlds: seq<World>, log: seq<Action>, i: nat, p: Pid)
    requires IsRun(worlds, log) && i < |log| && log[i] == Look(p)
    requires worlds[i + 1].requests[p].answer.Replay?
    ensures exists v :: v in worlds[i].wins && v.key == worlds[i].requests[p].key && worlds[i].now < v.claimed + TTL
  {
    RunKeeps(worlds, log, i);
    assert log[i] == log[i];
    var q := worlds[i].requests[p];
    var row := worlds[i].rows[q.key];
    assert Win(q.key, row.hash, row.expires - TTL, row.snapshot.value) in worlds[i].wins;
  }

  /** A stored response stays until its row expires, so every retry in that time replays it. */
  lemma {:induction false} StoredStays(worlds: seq<World>, log: seq<Action>, i: nat, j: nat, key: Key)
    requires IsRun(worlds, log) && i <= j <= |log|
    requires key in worlds[i].rows && worlds[i].rows[key].snapshot.Some?
    requires worlds[j].now < worlds[i].rows[key].expires
    ensures key in worlds[j].rows && worlds[j].rows[key] == worlds[i].rows[key]
    ensures Lookup(worlds[j].rows, key, worlds[i].rows[key].hash, worlds[j].now) == Replay(worlds[i].rows[key].snapshot.value)
    decreases j
  {
    if i < j {
      HistoryGrows(worlds, log, j - 1, j);
      StoredStays(worlds, log, i, j - 1, key);
      RunKeeps(worlds, log, j - 1);
      assert log[j - 1] == log[j - 1];
      StepKeepsStored(worlds[j - 1], log[j - 1], key);
    }
  }

  lemma StepKeepsStored(w: World, a: Action, key: Key)
    requires Inv(w) && Enabled(w, a) && key in w.rows && w.rows[key].snapshot.Some? && w.now < w.rows[key].expires
    ensures key in Do(w, a).rows && Do(w, a).rows[key] == w.rows[key]
  {
    if a.Settle? {
      assert OwnsRow(w, w.requests[a.p]);
    }
  }

  // ---- handlers that are not in time -----------------------------------------------------

  lemma Extend(worlds: seq<World>, log: seq<Action>, a: Action) returns (worlds': seq<World>, log': seq<Action>)
    requires IsTrace(worlds, log) && Enabled(worlds[|log|], a)
    ensures IsTrace(worlds', log') && worlds'[0] == worlds[0] && worlds'[|log'|] == Do(worlds[|log|], a)
    ensures log' == log + [a]
  {
    worlds', log' := worlds + [Do(worlds[|log|], a)], log + [a];
    forall i {:trigger log'[i]} | 0 <= i < |log'|
      ensures Enabled(worlds'[i], log'[i]) && worlds'[i + 1] == Do(worlds'[i], log'[i])
    {
      assert i < |log| ==> log'[i] == log[i];
    }
  }

  lemma {:induction false} Wait(worlds: seq<World>, log: seq<Action>, n: nat) returns (worlds': seq<World>, log': seq<Action>)
    requires IsTrace(worlds, log)
    ensures IsTrace(worlds', log') && worlds'[0] == worlds[0]
    ensures worlds'[|log'|] == worlds[|log|].(now := worlds[|log|].now + n)
    decreases n
  {
    worlds', log' := worlds, log;
    if n > 0 {
      worlds', log' := Wait(worlds, log, n - 1);
      worlds', log' := Extend(worlds', log', Tick);
    }
  }

  /** A new request of the key, from its arrival to its insert, without a pause. */
  lemma Retry(worlds: seq<World>, log: seq<Action>, q: Pid, key: Key, hash: Hash)
    returns (worlds': seq<World>, log': seq<Action>)
    requires IsTrace(worlds, log) && q !in worlds[|log|].requests
    ensures IsTrace(worlds', log') && worlds'[0] == worlds[0]
    ensures log' == log + [Arrive(q, key, hash), Retire(q), Insert(q)]
    ensures var w, v := worlds[|log|], worlds'[|log'|];
            var free := key !in w.rows || w.rows[key].expires <= w.now;
            && v.now == w.now
            && v.requests == w.requests[q := if free then Executing(key, hash, w.now) else Looking(key, hash)]
            && v.rows == if free then w.rows[key := Row(hash, None, w.now + TTL)] else w.rows
  {
    var w := worlds[|log|];
    worlds', log' := Extend(worlds, log, Arrive(q, key, hash));
    worlds', log' := Extend(worlds', log', Retire(q));
    worlds', log' := Extend(worlds', log', Insert(q));
    assert w.requests[q := Claiming(key, hash)][q := Inserting(key, hash)] == w.requests[q := Inserting(key, hash)];
  }

  /**
   What a new request of the key gets right after an outcome was settled: it
   executes, whatever it asks, exactly when the outcome was no success and the
   release went through.  Otherwise another request is refused and the same one
   gets the stored response, or is in progress when storing it failed.
   */
  lemma RetryAfterOutcome(w: World, p: Pid, stored: bool, q: Pid, hash: Hash)
    returns (worlds: seq<World>, log: seq<Action>)
    requires Inv(w) && InTime(w) && p in w.requests && w.requests[p].Responding? && q !in w.requests
    ensures IsTrace(worlds, log) && worlds[0] == w
    ensures [Settle(p, stored), Arrive(q, w.requests[p].key, hash), Retire(q), Insert(q)] <= log
    ensures var a := w.requests[p];
            && q in worlds[|log|].requests
            && worlds[|log|].requests[q] ==
                 if stored && !Succeeded(a.response) then Executing(a.key, hash, w.now)
                 else Answered(a.key, hash, if hash != a.hash then Reused
                                            else if stored then Replay(a.response) else InProgress)
  {
    var a := w.requests[p];
    assert OwnsRow(w, a);
    SettledOutcome(w, p, stored);
    worlds, log := Extend([w], [], Settle(p, stored));
    worlds, log := Retry(worlds, log, q, a.key, hash);
    if worlds[|log|].requests[q].Looking? {
      worlds, log := Extend(worlds, log, Look(q));
    }
  }

  /** Once the row of a running handler has expired or is gone, a retry of the key executes beside it. */
  lemma LateHandlerOverlaps(w: World, p: Pid, q: Pid) returns (worlds: seq<World>, log: seq<Action>)
    requires p in w.requests && w.requests[p].Executing? && q !in w.requests
    requires var k := w.requests[p].key; k in w.rows ==> w.rows[k].expires <= w.now
    ensures IsTrace(worlds, log) && worlds[0] == w
    ensures var v := worlds[|log|];
            && p in v.requests && q in v.requests && v.requests[p].Executing? && v.requests[q].Executing?
            && v.requests[p].key == v.requests[q].key
  {
    worlds, log := Retry([w], [], q, w.requests[p].key, w.requests[p].hash);
  }

  /** A run from the empty table in which two handlers of one key execute at the same time. */
  lemma TwoHandlersAtOnce(key: Key, hash: Hash) returns (worlds: seq<World>, log: seq<Action>)
    ensures IsTrace(worlds, log) && Initial(worlds[0])
    ensures worlds[|log|].requests == map[0 := Executing(key, hash, 0), 1 := Executing(key, hash, 86400)]
  {
    worlds, log := Retry([World(map[], 0, map[], {})], [], 0, key, hash);
    worlds, log := Wait(worlds, log, TTL);
    worlds, log := Retry(worlds, log, 1, key, hash);
  }

  /** A retry executes beside a running handler exactly when that handler has outlived its row. */
  lemma RetryOverlapsExactly(w: World, p: Pid, q: Pid) returns (worlds: seq<World>, log: seq<Action>)
    requires Inv(w) && p in w.requests && w.requests[p].Executing? && q !in w.requests
    ensures IsTrace(worlds, log) && worlds[0] == w
    ensures p in worlds[|log|].requests && worlds[|log|].requests[p] == w.requests[p]
    ensures q in worlds[|log|].requests
    ensures worlds[|log|].requests[q].Executing? <==> w.requests[p].claimed + TTL <= w.now
  {
    assert OwnsRow(w, w.requests[p]);
    worlds, log := Retry([w], [], q, w.requests[p].key, w.requests[p].hash);
  }

  /** Whenever two handlers of one key run at once, some handler was late before that. */
  lemma OverlapNeedsALateHandler(worlds: seq<World>, log: seq<Action>, i: nat, p: Pid, q: Pid)
    requires IsTrace(worlds, log) && Initial(worlds[0]) && i <= |log| && p != q
    requires p in worlds[i].requests && q in worlds[i].requests
    requires Active(worlds[i].requests[p]) && Active(worlds[i].requests[q])
    requires worlds[i].requests[p].key == worlds[i].requests[q].key
    ensures exists j :: 0 <= j <= i && !InTime(worlds[j])
  {
    if forall j | 0 <= j <= i :: InTime(worlds[j]) {
      var front, steps := worlds[..i + 1], log[..i];
      forall k {:trigger steps[k]} | 0 <= k < |steps|
        ensures Enabled(front[k], steps[k]) && front[k + 1] == Do(front[k], steps[k])
      {
        assert steps[k] == log[k];
      }
      ExecutionsNeverOverlap(front, steps, i, p, q);
    }
  }

  // ---- the request hash ------------------------------------------------------------------

  type Byte = nat

  /** The bytes that are hashed: method, NUL, path, NUL, body. */
  function Frame(method': seq<Byte>, path: seq<Byte>, body: seq<Byte>): seq<Byte> {
    method' + [0] + path + [0] + body
  }

  lemma NulNotLater(a: seq<Byte>, x: seq<Byte>, b: seq<Byte>, y: seq<Byte>)
    requires 0 !in b && |a| < |b|
    ensures a + [0] + x != b + [0] + y
  {
    assert b[|a|] in b;
    assert (a + [0] + x)[|a|] == 0;
    assert (b + [0] + y)[|a|] == b[|a|];
  }

  lemma FirstNul(a: seq<Byte>, x: seq<Byte>, b: seq<Byte>, y: seq<Byte>)
    requires 0 !in a && 0 !in b && a + [0] + x == b + [0] + y
    ensures a == b && x == y
  {
    var s := a + [0] + x;
    if |a| < |b| {
      NulNotLater(a, x, b, y);
    } else if |b| < |a| {
      NulNotLater(b, y, a, x);
    } else {
      assert a == s[..|a|] && b == s[..|b|];
      assert x == s[|a| + 1..] && y == s[|b| + 1..];
    }
  }

  /** Requests without NUL in method and path are told apart. */
  lemma FrameInjective(m: seq<Byte>, p: seq<Byte>, b: seq<Byte>, m': seq<Byte>, p': seq<Byte>, b': seq<Byte>)
    requires 0 !in m && 0 !in p && 0 !in m' && 0 !in p' && Frame(m, p, b) == Frame(m', p', b')
    ensures m == m' && p == p' && b == b'
  {
    assert Frame(m, p, b) == m + [0] + (p + [0] + b);
    assert Frame(m', p', b') == m' + [0] + (p' + [0] + b');
    FirstNul(m, p + [0] + b, m', p' + [0] + b');
    FirstNul(p, b, p', b');
  }

  /** Two different requests hash alike exactly when one path continues the other over a NUL, and the bodies make up for it. */
  lemma SameFrameExactly(m: seq<Byte>, p: seq<Byte>, b: seq<Byte>, m': seq<Byte>, p': seq<Byte>, b': seq<Byte>)
    requires 0 !in m && 0 !in m'
    ensures Frame(m, p, b) == Frame(m', p', b') <==>
              m == m' && ((p == p' && b == b') || Shifted(p, b, p', b') || Shifted(p', b', p, b))
  {
    assert Frame(m, p, b) == m + [0] + (p + [0] + b);
    assert Frame(m', p', b') == m' + [0] + (p' + [0] + b');
    if Frame(m, p, b) == Frame(m', p', b') {
      FirstNul(m, p + [0] + b, m', p' + [0] + b');
      SameTail(p, b, p', b');
    } else if m == m' && Shifted(p, b, p', b') {
      ShiftedFrames(m, p, b, p', b');
    } else if m == m' && Shifted(p', b', p, b) {
      ShiftedFrames(m, p', b', p, b);
    }
  }

  /** The longer path p' is p, a NUL and the start q of the body b. */
  ghost predicate Shifted(p: seq<Byte>, b: seq<Byte>, p': seq<Byte>, b': seq<Byte>) {
    exists q :: p' == p + [0] + q && b == q + [0] + b'
  }

  lemma ShiftedFrames(m: seq<Byte>, p: seq<Byte>, b: seq<Byte>, p': seq<Byte>, b': seq<Byte>)
    requires Shifted(p, b, p', b')
    ensures Frame(m, p, b) == Frame(m, p', b')
  {
    var q :| p' == p + [0] + q && b == q + [0] + b';
    NulInPathIsAmbiguous(m, p, q, b');
  }

  lemma SameTail(p: seq<Byte>, b: seq<Byte>, p': seq<Byte>, b': seq<Byte>)
    requires p + [0] + b == p' + [0] + b'
    ensures (p == p' && b == b') || Shifted(p, b, p', b') || Shifted(p', b', p, b)
  {
    if |p| < |p'| {
      LongerPath(p, b, p', b');
    } else if |p'| < |p| {
      LongerPath(p', b', p, b);
    } else {
      assert p == (p + [0] + b)[..|p|] && p' == (p' + [0] + b')[..|p|];
      assert b == (p + [0] + b)[|p| + 1..] && b' == (p' + [0] + b')[|p| + 1..];
    }
  }

  lemma LongerPath(p: seq<Byte>, b: seq<Byte>, p': seq<Byte>, b': seq<Byte>)
    requires p + [0] + b == p' + [0] + b' && |p| < |p'|
    ensures Shifted(p, b, p', b')
  {
    var s := p + [0] + b;
    var q := p'[|p| + 1..];
    assert p' == s[..|p'|] && p == s[..|p|] && s[|p|] == 0;
    assert p' == p + [0] + q;
    assert b == s[|p| + 1..] && b' == s[|p'| + 1..] && s[|p'|] == (p' + [0] + b')[|p'|] == 0;
    assert b == q + [0] + b';
  }

  /** A path with a NUL hashes like a shorter path with a longer body. */
  lemma NulInPathIsAmbiguous(m: seq<Byte>, p: seq<Byte>, q: seq<Byte>, b: seq<Byte>)
    ensures Frame(m, p + [0] + q, b) == Frame(m, p, q + [0] + b)
  {
    assert m + [0] + (p + [0] + q) + [0] + b == m + [0] + p + [0] + (q + [0] + b);
  }
}
