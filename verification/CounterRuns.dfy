/**
 Metering over whole runs of one device: traffic, counter resets (reboots, link
 recreation, peer re-adds), dumps, committed cycles and cycles whose transaction
 fails, in any order.
 */
module CounterRuns {
  import opened Wrappers
  import opened Metering

  /** Both directions of one device's counters, kernel side and database side. */
  datatype Meters = Meters(
    rx: nat, tx: nat,                      // kernel counters since the last reset
    lastRX: nat, lastTX: nat,              // stored baselines
    dump: Reading,                         // dumped, cycle not committed yet
    carriedRX: nat, carriedTX: nat,        // bytes the device really carried
    chargedRX: nat, chargedTX: nat)        // bytes the cycles charged

  datatype Reading = NoDump | Dumped(rx: nat, tx: nat)

  datatype Event =
    | Traffic(moreRX: nat, moreTX: nat)
    | CounterReset
    | Dump
    | Abort                                // the transaction fails and the dump is dropped
    | Commit(otherwiseTouched: bool)       // a newer handshake or another endpoint also writes the row

  predicate Enabled(m: Meters, e: Event) {
    match e
    case Traffic(rx, tx) => true
    case CounterReset => true
    case Dump => m.dump.NoDump?              // cycles are serialized
    case Abort => m.dump.Dumped?
    case Commit(t) => m.dump.Dumped?
  }

  function Do(m: Meters, e: Event): Meters
    requires Enabled(m, e)
  {
    match e
    case Traffic(rx, tx) =>
      m.(rx := m.rx + rx, tx := m.tx + tx, carriedRX := m.carriedRX + rx, carriedTX := m.carriedTX + tx)
    case CounterReset => m.(rx := 0, tx := 0)
    case Dump => m.(dump := Dumped(m.rx, m.tx))
    case Abort => m.(dump := NoDump)
    case Commit(touched) =>
      var rx, tx := m.dump.rx, m.dump.tx;
      var dRX, dTX := Delta(m.lastRX, rx), Delta(m.lastTX, tx);
      if dRX == 0 && dTX == 0 && !touched then m.(dump := NoDump)
      else m.(dump := NoDump, lastRX := rx, lastTX := tx,
              chargedRX := m.chargedRX + dRX, chargedTX := m.chargedTX + dTX)
  }

  predicate Feasible(m: Meters, run: seq<Event>)
    decreases |run|
  {
    run == [] || (Enabled(m, run[0]) && Feasible(Do(m, run[0]), run[1..]))
  }

  function After(m: Meters, run: seq<Event>): Meters
    requires Feasible(m, run)
    decreases |run|
  {
    if run == [] then m else After(Do(m, run[0]), run[1..])
  }

  /** A freshly added device. */
  const START := Meters(0, 0, 0, 0, NoDump, 0, 0, 0, 0)

  /** One direction: what is charged, or still can be, was carried. */
  predicate Covered(counter: nat, last: nat, dumped: Option<nat>, carried: nat, charged: nat) {
    && charged + Delta(last, counter) <= carried
    && (dumped.Some? ==>
          && charged + Delta(last, dumped.value) <= carried
          // after the commit the counter may have gone on from the dump, or been reset
          && charged + Delta(last, dumped.value) + Delta(dumped.value, counter) <= carried)
  }

  predicate Inv(m: Meters) {
    && Covered(m.rx, m.lastRX, if m.dump.Dumped? then Some(m.dump.rx) else None, m.carriedRX, m.chargedRX)
    && Covered(m.tx, m.lastTX, if m.dump.Dumped? then Some(m.dump.tx) else None, m.carriedTX, m.chargedTX)
  }

  lemma StepKeeps(m: Meters, e: Event)
    requires Inv(m) && Enabled(m, e)
    ensures Inv(Do(m, e))
  {
  }

  /** Never an overcount: whatever happens to a new device or in any state it can reach, cycles charge at most what was carried. */
  lemma {:induction false} NeverOvercharges(m: Meters, run: seq<Event>)
    requires Inv(m) && Feasible(m, run)
    ensures Inv(START) && Inv(After(m, run))
    ensures After(m, run).chargedRX <= After(m, run).carriedRX
    ensures After(m, run).chargedTX <= After(m, run).carriedTX
    decreases |run|
  {
    if run != [] {
      StepKeeps(m, run[0]);
      NeverOvercharges(Do(m, run[0]), run[1..]);
    }
  }

  // ---- what one interval is charged ----------------------------------------------------

  datatype Direction = RX | TX

  function Counter(m: Meters, d: Direction): nat {
    if d.RX? then m.rx else m.tx
  }

  function Baseline(m: Meters, d: Direction): nat {
    if d.RX? then m.lastRX else m.lastTX
  }

  function Charged(m: Meters, d: Direction): nat {
    if d.RX? then m.chargedRX else m.chargedTX
  }

  /** Nothing but traffic and counter resets: what can lie between a dump and its commit. */
  predicate Carries(g: seq<Event>) {
    forall e | e in g :: e.Traffic? || e.CounterReset?
  }

  /** No cycle commits: what can lie between one committed cycle and the next. */
  predicate Uncommitted(g: seq<Event>) {
    forall e | e in g :: !e.Commit?
  }

  predicate HasReset(g: seq<Event>) {
    CounterReset in g
  }

  function More(e: Event, d: Direction): nat {
    if e.Traffic? then (if d.RX? then e.moreRX else e.moreTX) else 0
  }

  /** The bytes carried. */
  function Bytes(g: seq<Event>, d: Direction): nat {
    if g == [] then 0 else More(g[0], d) + Bytes(g[1..], d)
  }

  /** The bytes carried after the last reset, or all of them without one. */
  function Since(g: seq<Event>, d: Direction): nat {
    if g == [] then 0
    else if HasReset(g[1..]) then Since(g[1..], d)
    else More(g[0], d) + Since(g[1..], d)
  }

  lemma {:induction false} SinceAtMostBytes(g: seq<Event>, d: Direction)
    ensures Since(g, d) <= Bytes(g, d)
    ensures !HasReset(g) ==> Since(g, d) == Bytes(g, d)
  {
    if g != [] {
      SinceAtMostBytes(g[1..], d);
    }
  }

  /** Until a cycle commits, counters follow traffic and resets, and the rows stay. */
  lemma {:induction false} CarryThen(m: Meters, g: seq<Event>, rest: seq<Event>, d: Direction)
    requires Uncommitted(g) && Feasible(m, g + rest)
    ensures Feasible(m, g) && Feasible(After(m, g), rest) && After(m, g + rest) == After(After(m, g), rest)
    ensures var m' := After(m, g);
            && Counter(m', d) == Since(g, d) + (if HasReset(g) then 0 else Counter(m, d))
            && m' == m.(rx := m'.rx, tx := m'.tx, carriedRX := m'.carriedRX, carriedTX := m'.carriedTX, dump := m'.dump)
            && (Carries(g) ==> m'.dump == m.dump)
    decreases |g|
  {
    if g == [] {
      assert g + rest == rest;
    } else {
      assert g[0] in g;
      assert forall e | e in g[1..] :: e in g;
      assert (g + rest)[1..] == g[1..] + rest;
      CarryThen(Do(m, g[0]), g[1..], rest, d);
      assert HasReset(g) <==> g[0].CounterReset? || HasReset(g[1..]);
    }
  }

  /** A dump, whatever the device does while the cycle prepares its transaction, and the commit. */
  predicate MeteringCycle(m: Meters, g: seq<Event>, x: bool, m': Meters) {
    Feasible(m, [Dump] + g + [Commit(x)]) && m' == After(m, [Dump] + g + [Commit(x)])
  }

  /** One cycle charges the delta of the dumped counter and makes it the baseline, unless it was idle. */
  lemma OneCycle(m: Meters, g: seq<Event>, x: bool, m': Meters, d: Direction)
    requires m.dump.NoDump? && Carries(g)
    requires MeteringCycle(m, g, x, m')
    ensures m'.dump.NoDump?
    ensures Counter(m', d) == Since(g, d) + (if HasReset(g) then 0 else Counter(m, d))
    ensures Charged(m', d) == Charged(m, d) + Delta(Baseline(m, d), Counter(m, d))
    ensures Baseline(m', d) == Counter(m, d) || (Baseline(m', d) == Baseline(m, d) && Counter(m, d) == 0)
  {
    var m1 := Do(m, Dump);
    assert ([Dump] + g + [Commit(x)])[1..] == g + [Commit(x)];
    CarryThen(m1, g, [Commit(x)], d);
    assert [Commit(x)][1..] == [];
    assert m' == Do(After(m1, g), Commit(x));
  }

  lemma {:induction false} BytesConcat(a: seq<Event>, b: seq<Event>, d: Direction)
    ensures Bytes(a + b, d) == Bytes(a, d) + Bytes(b, d)
    decreases |a|
  {
    if a == [] {
      assert a + b == b;
    } else {
      assert (a + b)[1..] == a[1..] + b;
      BytesConcat(a[1..], b, d);
    }
  }

  lemma {:induction false} SinceConcat(a: seq<Event>, b: seq<Event>, d: Direction)
    ensures HasReset(a + b) <==> HasReset(a) || HasReset(b)
    ensures Since(a + b, d) == Since(b, d) + if HasReset(b) then 0 else Since(a, d)
    decreases |a|
  {
    if a == [] {
      assert a + b == b;
    } else {
      assert (a + b)[1..] == a[1..] + b;
      SinceConcat(a[1..], b, d);
    }
  }

  /** Two committed cycles of one device with `g1 + g2` between their dumps, and in `g2` any cycles that failed. */
  predicate TwoCycles(m: Meters, g1: seq<Event>, x: bool, first: Meters,
                      g2: seq<Event>, middle: Meters, g3: seq<Event>, y: bool, second: Meters)
  {
    && m.dump.NoDump? && Carries(g1) && Uncommitted(g2) && Carries(g3)
    && MeteringCycle(m, g1, x, first)
    && Feasible(first, g2) && middle == After(first, g2)
    && MeteringCycle(middle, g3, y, second)
  }

  /** What the second cycle charges for the interval between the two dumps. */
  lemma IntervalCharge(m: Meters, g1: seq<Event>, x: bool, first: Meters,
                       g2: seq<Event>, middle: Meters, g3: seq<Event>, y: bool, second: Meters, d: Direction)
    requires TwoCycles(m, g1, x, first, g2, middle, g3, y, second)
    ensures var g := g1 + g2;
            Charged(second, d) - Charged(first, d)
              == Delta(Baseline(first, d), Since(g, d) + if HasReset(g) then 0 else Counter(m, d))
    ensures Baseline(first, d) == Counter(m, d) || Counter(m, d) == 0
  {
    OneCycle(m, g1, x, first, d);
    assert g2 + [] == g2;
    CarryThen(first, g2, [], d);
    OneCycle(middle, g3, y, second, d);
    SinceConcat(g1, g2, d);
  }

  /**
   No loss, exactly: the bytes of an interval are all charged if and only if
   - without a reset, the baseline is the counter of the previous dump, or too
     little was carried to reach the older baseline an idle cycle left;
   - with a reset, nothing was carried before the last reset and the counter
     did not come back to the baseline (which may be zero).
   */
  lemma IntervalChargedExactly(m: Meters, g1: seq<Event>, x: bool, first: Meters,
                               g2: seq<Event>, middle: Meters, g3: seq<Event>, y: bool, second: Meters, d: Direction)
    requires TwoCycles(m, g1, x, first, g2, middle, g3, y, second)
    ensures var g := g1 + g2;
            Charged(second, d) - Charged(first, d) == Bytes(g, d) <==>
              if HasReset(g)
              then Since(g, d) == Bytes(g, d) && (Since(g, d) < Baseline(first, d) || Baseline(first, d) == 0)
              else Baseline(first, d) == Counter(m, d) || Bytes(g, d) < Baseline(first, d)
  {
    IntervalCharge(m, g1, x, first, g2, middle, g3, y, second, d);
    SinceAtMostBytes(g1 + g2, d);
  }

  /** The same, read off the interval around its last reset. */
  lemma ResetChargedExactly(m: Meters, g1: seq<Event>, x: bool, first: Meters,
                            g2: seq<Event>, middle: Meters, g3: seq<Event>, y: bool, second: Meters,
                            a: seq<Event>, b: seq<Event>, d: Direction)
    requires TwoCycles(m, g1, x, first, g2, middle, g3, y, second)
    requires g1 + g2 == a + [CounterReset] + b && !HasReset(b)
    ensures Charged(second, d) - Charged(first, d) == Bytes(a, d) + Bytes(b, d) <==>
              Bytes(a, d) == 0 && (Bytes(b, d) < Baseline(first, d) || Baseline(first, d) == 0)
    ensures Charged(second, d) - Charged(first, d)
              == Bytes(b, d) - if Bytes(b, d) < Baseline(first, d) then 0 else Baseline(first, d)
  {
    IntervalChargedExactly(m, g1, x, first, g2, middle, g3, y, second, d);
    IntervalCharge(m, g1, x, first, g2, middle, g3, y, second, d);
    var reset := [CounterReset];
    assert HasReset(reset) && reset[1..] == [];
    BytesConcat(a + reset, b, d);
    BytesConcat(a, reset, d);
    SinceConcat(a + reset, b, d);
    SinceConcat(a, reset, d);
    SinceAtMostBytes(b, d);
  }

  /** Every interval is free of resets or splits at its last one. */
  lemma {:induction false} SplitAtLastReset(g: seq<Event>) returns (a: seq<Event>, b: seq<Event>)
    requires HasReset(g)
    ensures g == a + [CounterReset] + b && !HasReset(b)
    decreases |g|
  {
    var n := |g| - 1;
    assert g == g[..n] + [g[n]];
    if g[n].CounterReset? {
      a, b := g[..n], [];
    } else {
      assert HasReset(g[..n]);
      a, b := SplitAtLastReset(g[..n]);
      assert g == a + [CounterReset] + (b + [g[n]]);
      b := b + [g[n]];
    }
  }

  /** Every interval with a reset is of that form. */
  lemma ResetIntervalCharged(m: Meters, g1: seq<Event>, x: bool, first: Meters,
                             g2: seq<Event>, middle: Meters, g3: seq<Event>, y: bool, second: Meters, d: Direction)
    returns (a: seq<Event>, b: seq<Event>)
    requires TwoCycles(m, g1, x, first, g2, middle, g3, y, second) && HasReset(g1 + g2)
    ensures g1 + g2 == a + [CounterReset] + b && !HasReset(b)
    ensures Charged(second, d) - Charged(first, d) == Bytes(a, d) + Bytes(b, d) <==>
              Bytes(a, d) == 0 && (Bytes(b, d) < Baseline(first, d) || Baseline(first, d) == 0)
    ensures Charged(second, d) - Charged(first, d)
              == Bytes(b, d) - if Bytes(b, d) < Baseline(first, d) then 0 else Baseline(first, d)
  {
    a, b := SplitAtLastReset(g1 + g2);
    ResetChargedExactly(m, g1, x, first, g2, middle, g3, y, second, a, b, d);
  }

  // ---- the losses, from a freshly added device ---------------------------------------------

  lemma {:induction false} Extend(m: Meters, run: seq<Event>, e: Event) returns (more: seq<Event>)
    requires Feasible(m, run) && Enabled(After(m, run), e)
    ensures more == run + [e] && Feasible(m, more) && After(m, more) == Do(After(m, run), e)
    decreases |run|
  {
    more := run + [e];
    if run == [] {
      assert more == [e] && more[1..] == [];
    } else {
      var rest := Extend(Do(m, run[0]), run[1..], e);
      assert more[0] == run[0] && more[1..] == rest;
    }
  }

  /** A device that carried l bytes and was charged for them. */
  lemma MeteredOnce(l: nat) returns (run: seq<Event>)
    requires l > 0
    ensures run == [Traffic(l, 0), Dump, Commit(false)]
    ensures Feasible(START, run) && After(START, run) == Meters(l, 0, l, 0, NoDump, l, 0, l, 0)
  {
    run := Extend(START, [], Traffic(l, 0));
    run := Extend(START, run, Dump);
    run := Extend(START, run, Commit(false));
  }

  /**
   First loss: after a reset the counter comes back to its old value l before
   the next dump, and l bytes go uncharged.
   */
  lemma ReachingBaselineLosesBytes(l: nat, n: nat) returns (run: seq<Event>)
    requires 0 < l <= n
    ensures run == [Traffic(l, 0), Dump, Commit(false), CounterReset, Traffic(n, 0), Dump, Commit(false)]
    ensures Feasible(START, run)
    ensures After(START, run).carriedRX == l + n && After(START, run).chargedRX == n
    ensures After(START, run).dump.NoDump? && After(START, run).rx == After(START, run).lastRX
  {
    run := MeteredOnce(l);
    run := Extend(START, run, CounterReset);
    run := Extend(START, run, Traffic(n, 0));
    run := Extend(START, run, Dump);
    run := Extend(START, run, Commit(false));
  }

  /**
   Second loss: a dump of zero after the reset changes nothing in the row, so the
   old baseline l outlives even a cycle, and l bytes of what follows go uncharged.
   */
  lemma IdleResetLosesBytes(l: nat, n: nat) returns (run: seq<Event>)
    requires 0 < l <= n
    ensures run == [Traffic(l, 0), Dump, Commit(false), CounterReset, Dump, Commit(false),
                    Traffic(n, 0), Dump, Commit(false)]
    ensures Feasible(START, run)
    ensures After(START, run).carriedRX == l + n && After(START, run).chargedRX == n
  {
    run := MeteredOnce(l);
    run := Extend(START, run, CounterReset);
    run := Extend(START, run, Dump);
    run := Extend(START, run, Commit(false));
    run := Extend(START, run, Traffic(n, 0));
    run := Extend(START, run, Dump);
    run := Extend(START, run, Commit(false));
  }

  /** Third loss: what was carried between a dump and a reset is never seen. */
  lemma ResetLosesUnseenBytes(n: nat) returns (run: seq<Event>)
    ensures run == [Traffic(n, 0), CounterReset, Dump, Commit(false)]
    ensures Feasible(START, run)
    ensures After(START, run).carriedRX == n && After(START, run).chargedRX == 0
    ensures After(START, run).dump.NoDump? && After(START, run).rx == After(START, run).lastRX
  {
    run := Extend(START, [], Traffic(n, 0));
    run := Extend(START, run, CounterReset);
    run := Extend(START, run, Dump);
    run := Extend(START, run, Commit(false));
  }
}
