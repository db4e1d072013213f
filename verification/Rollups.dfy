/**
 Sample persistence: the in-memory buffer of metered deltas and the three
 tables a flush writes.  Times are counted from Go's zero time in seconds.
 */
module Rollups {
  import opened Sums

  type ID = nat

  const HOUR := 3600
  const DAY := 24 * 3600

  datatype Slot = Slot(device: ID, ts: nat)

  datatype Volume = Volume(rx: nat, tx: nat)

  datatype Direction = RX | TX

  function Pick(v: Volume, d: Direction): nat {
    if d.RX? then v.rx else v.tx
  }

  function Plus(a: Volume, b: Volume): Volume {
    Volume(a.rx + b.rx, a.tx + b.tx)
  }

  /** time.Truncate: down to a multiple of the width; no width, no change. */
  function Truncate(ts: nat, width: int): nat {
    if width > 0 then ts - ts % width else ts
  }

  /** The bucket of width `width` that starts at `start` holds the time. */
  predicate Covers(start: nat, width: int, ts: nat) {
    if width > 0 then start % width == 0 && start <= ts < start + width else start == ts
  }

  lemma Apart(i: int, j: int, w: nat)
    requires i < j
    ensures i * w + w <= j * w
  {
    assert (j - i - 1) * w >= 0;
  }

  /** Two buckets that hold the same time are one. */
  lemma SameBucket(i: int, j: int, w: nat, ts: int)
    requires i * w <= ts < i * w + w && j * w <= ts < j * w + w
    ensures i == j
  {
    if i < j {
      Apart(i, j, w);
    } else if j < i {
      Apart(j, i, w);
    }
  }

  lemma Quotient(x: nat, w: nat) returns (q: int)
    requires w > 0
    ensures x == q * w + x % w && q == x / w
  {
    q := x / w;
  }

  lemma MultipleMod(q: nat, w: nat)
    requires w > 0
    ensures (q * w) % w == 0
  {
    var p := Quotient(q * w, w);
    SameBucket(p, q, w, q * w);
  }

  /** Truncating a time gives the start of the bucket that holds it. */
  lemma TruncateExactly(ts: nat, width: int, start: nat)
    ensures Covers(start, width, ts) <==> start == Truncate(ts, width)
  {
    if width > 0 {
      var q := Quotient(ts, width);
      MultipleMod(q, width);
      if Covers(start, width, ts) {
        var p := Quotient(start, width);
        SameBucket(p, q, width, ts);
      }
    }
  }

  /** Add to a row, or insert it: the accumulating upsert. */
  function Bump<K>(m: map<K, Volume>, k: K, v: Volume): map<K, Volume> {
    m[k := if k in m then Plus(m[k], v) else v]
  }

  function At<K>(m: map<K, Volume>, k: K, d: Direction): nat {
    if k in m then Pick(m[k], d) else 0
  }

  // ---- sums over rows ------------------------------------------------------------------

  /** The rows of a device whose time falls into the bucket. */
  ghost function Bucket(m: map<Slot, Volume>, b: Slot, width: nat, d: Direction): map<Slot, int> {
    map k | k in m && k.device == b.device && Truncate(k.ts, width) == b.ts :: Pick(m[k], d) as int
  }

  ghost function InBucket(m: map<Slot, Volume>, b: Slot, width: nat, d: Direction): int {
    Sum(Bucket(m, b, width, d))
  }

  /** All rows of a device. */
  ghost function OfDevice(m: map<Slot, Volume>, device: ID, d: Direction): map<Slot, int> {
    map k | k in m && k.device == device :: Pick(m[k], d) as int
  }

  ghost function Total(m: map<Slot, Volume>, device: ID, d: Direction): int {
    Sum(OfDevice(m, device, d))
  }

  lemma BucketBumped(m: map<Slot, Volume>, k: Slot, v: Volume, b: Slot, width: nat, d: Direction)
    ensures var now, was := Bump(m, k, v), Bucket(m, b, width, d);
            Bucket(now, b, width, d) ==
              if k.device == b.device && Truncate(k.ts, width) == b.ts then was[k := Pick(now[k], d)] else was
  {
  }

  lemma BumpInBucket(m: map<Slot, Volume>, k: Slot, v: Volume, b: Slot, width: nat, d: Direction)
    ensures InBucket(Bump(m, k, v), b, width, d) ==
              InBucket(m, b, width, d) + if k.device == b.device && Truncate(k.ts, width) == b.ts then Pick(v, d) else 0
  {
    BucketBumped(m, k, v, b, width, d);
    if k.device == b.device && Truncate(k.ts, width) == b.ts {
      SumPut(Bucket(m, b, width, d), k, Pick(Bump(m, k, v)[k], d));
    }
  }

  lemma DeviceBumped(m: map<Slot, Volume>, k: Slot, v: Volume, device: ID, d: Direction)
    ensures var now, was := Bump(m, k, v), OfDevice(m, device, d);
            OfDevice(now, device, d) == if k.device == device then was[k := Pick(now[k], d)] else was
  {
  }

  lemma BumpTotal(m: map<Slot, Volume>, k: Slot, v: Volume, device: ID, d: Direction)
    ensures Total(Bump(m, k, v), device, d) == Total(m, device, d) + if k.device == device then Pick(v, d) else 0
  {
    DeviceBumped(m, k, v, device, d);
    if k.device == device {
      SumPut(OfDevice(m, device, d), k, Pick(Bump(m, k, v)[k], d));
    }
  }

  lemma EmptySums(b: Slot, width: nat, device: ID, d: Direction)
    ensures InBucket(map[], b, width, d) == 0 && Total(map[], device, d) == 0
  {
    assert Bucket(map[], b, width, d) == map[];
    assert OfDevice(map[], device, d) == map[];
  }

  /** An hour lies in one day. */
  lemma HourInDay(ts: nat)
    ensures Truncate(Truncate(ts, HOUR), DAY) == Truncate(ts, DAY)
  {
    var h := ts / HOUR;
    assert Truncate(ts, HOUR) == h * HOUR;
    assert (h * HOUR) / DAY == ts / DAY;
  }

  // ---- the tables ------------------------------------------------------------------------

  datatype Tables = Tables(
    devices: set<ID>,
    samples: map<Slot, Volume>,
    hourly: map<Slot, Volume>,
    daily: map<Slot, Volume>)

  /** Each hourly rollup is the sum of the samples of its hour, each daily one of the hours of its day. */
  ghost predicate Kept(t: Tables) {
    && (forall b, d :: At(t.hourly, b, d) == InBucket(t.samples, b, HOUR, d))
    && (forall b, d :: At(t.daily, b, d) == InBucket(t.hourly, b, DAY, d))
    && (forall k | k in t.samples :: k.device in t.devices)
  }

  lemma EmptyKept(devices: set<ID>)
    ensures Kept(Tables(devices, map[], map[], map[]))
  {
    forall b, d ensures InBucket(map[], b, HOUR, d) == 0 && InBucket(map[], b, DAY, d) == 0 {
      EmptySums(b, HOUR, 0, d);
      EmptySums(b, DAY, 0, d);
    }
  }

  /** One flushed entry: the sample, its hour and its day. */
  function Upserted(t: Tables, k: Slot, v: Volume): Tables {
    t.(samples := Bump(t.samples, k, v),
       hourly := Bump(t.hourly, Slot(k.device, Truncate(k.ts, HOUR)), v),
       daily := Bump(t.daily, Slot(k.device, Truncate(k.ts, DAY)), v))
  }

  lemma UpsertKeeps(t: Tables, k: Slot, v: Volume)
    requires Kept(t) && k.device in t.devices
    ensures Kept(Upserted(t, k, v))
  {
    var u := Upserted(t, k, v);
    var hour := Slot(k.device, Truncate(k.ts, HOUR));
    HourInDay(k.ts);
    forall b, d ensures At(u.hourly, b, d) == InBucket(u.samples, b, HOUR, d) {
      BumpInBucket(t.samples, k, v, b, HOUR, d);
    }
    forall b, d ensures At(u.daily, b, d) == InBucket(u.hourly, b, DAY, d) {
      BumpInBucket(t.hourly, hour, v, b, DAY, d);
    }
  }

  function Without(m: map<Slot, Volume>, device: ID): map<Slot, Volume> {
    map k | k in m && k.device != device :: m[k]
  }

  /** Deleting a device cascades to its rows. */
  function Deleted(t: Tables, device: ID): Tables {
    Tables(t.devices - {device}, Without(t.samples, device), Without(t.hourly, device), Without(t.daily, device))
  }

  lemma WithoutInBucket(m: map<Slot, Volume>, device: ID, b: Slot, width: nat, d: Direction)
    ensures InBucket(Without(m, device), b, width, d) == if b.device == device then 0 else InBucket(m, b, width, d)
  {
    if b.device == device {
      assert Bucket(Without(m, device), b, width, d) == map[];
    } else {
      assert Bucket(Without(m, device), b, width, d) == Bucket(m, b, width, d);
    }
  }

  lemma DeleteKeeps(t: Tables, device: ID)
    requires Kept(t)
    ensures Kept(Deleted(t, device))
  {
    var u := Deleted(t, device);
    forall b, d ensures At(u.hourly, b, d) == InBucket(u.samples, b, HOUR, d) {
      WithoutInBucket(t.samples, device, b, HOUR, d);
    }
    forall b, d ensures At(u.daily, b, d) == InBucket(u.hourly, b, DAY, d) {
      WithoutInBucket(t.hourly, device, b, DAY, d);
    }
  }

  // ---- a whole flush -----------------------------------------------------------------------

  /** Which entries of a batch can be written. */
  ghost function Live(batch: map<Slot, Volume>, devices: set<ID>): map<Slot, Volume> {
    map k | k in batch && k.device in devices :: batch[k]
  }

  /** Every live entry added once to its sample. */
  ghost predicate SamplesAdded(before: map<Slot, Volume>, live: map<Slot, Volume>, after: map<Slot, Volume>) {
    && after.Keys == before.Keys + live.Keys
    && (forall k, d :: At(after, k, d) == At(before, k, d) + At(live, k, d))
  }

  /** Every live entry added once to its bucket of the given width. */
  ghost predicate RollupsAdded(before: map<Slot, Volume>, live: map<Slot, Volume>, width: nat, after: map<Slot, Volume>) {
    forall b, d :: At(after, b, d) == At(before, b, d) + InBucket(live, b, width, d)
  }

  /** The tables after a flush. */
  ghost predicate Flushed(before: Tables, batch: map<Slot, Volume>, after: Tables) {
    var live := Live(batch, before.devices);
    && after.devices == before.devices
    && SamplesAdded(before.samples, live, after.samples)
    && RollupsAdded(before.hourly, live, HOUR, after.hourly)
    && RollupsAdded(before.daily, live, DAY, after.daily)
  }

  lemma NothingFlushed(t: Tables)
    ensures Flushed(t, map[], t)
  {
    assert Live(map[], t.devices) == map[];
    forall b, d ensures InBucket(map[], b, HOUR, d) == 0 && InBucket(map[], b, DAY, d) == 0 {
      EmptySums(b, HOUR, 0, d);
      EmptySums(b, DAY, 0, d);
    }
  }

  lemma SampleStep(before: map<Slot, Volume>, live: map<Slot, Volume>, after: map<Slot, Volume>, k: Slot, v: Volume)
    requires SamplesAdded(before, live, after) && k !in live
    ensures SamplesAdded(before, Bump(live, k, v), Bump(after, k, v))
  {
  }

  lemma RollupStep(before: map<Slot, Volume>, live: map<Slot, Volume>, width: nat, after: map<Slot, Volume>, k: Slot, v: Volume)
    requires RollupsAdded(before, live, width, after)
    ensures RollupsAdded(before, Bump(live, k, v), width, Bump(after, Slot(k.device, Truncate(k.ts, width)), v))
  {
    var now := Bump(after, Slot(k.device, Truncate(k.ts, width)), v);
    forall b, d ensures At(now, b, d) == At(before, b, d) + InBucket(Bump(live, k, v), b, width, d) {
      BumpInBucket(live, k, v, b, width, d);
    }
  }

  /** The entries may be written in any order: one more entry is one more upsert. */
  lemma FlushStep(before: Tables, done: map<Slot, Volume>, t: Tables, k: Slot, v: Volume)
    requires Flushed(before, done, t) && k !in done
    ensures Flushed(before, done[k := v], if k.device in before.devices then Upserted(t, k, v) else t)
  {
    var live := Live(done, before.devices);
    if k.device in before.devices {
      assert Live(done[k := v], before.devices) == Bump(live, k, v);
      SampleStep(before.samples, live, t.samples, k, v);
      RollupStep(before.hourly, live, HOUR, t.hourly, k, v);
      RollupStep(before.daily, live, DAY, t.daily, k, v);
    } else {
      assert Live(done[k := v], before.devices) == live;
    }
  }

  /** Some order of the entries of a batch, as a map iteration gives it. */
  ghost predicate IsOrder(order: seq<Slot>, batch: map<Slot, Volume>) {
    && (forall k :: k in order <==> k in batch)
    && (forall i, j | 0 <= i < j < |order| :: order[i] != order[j])
  }

  /** The upserts of the entries in the given order; an entry of a deleted device writes nothing. */
  function Written(t: Tables, batch: map<Slot, Volume>, order: seq<Slot>): Tables
    requires forall k | k in order :: k in batch
  {
    if order == [] then t
    else
      var n := |order| - 1;
      var so := Written(t, batch, order[..n]);
      var k := order[n];
      if k.device in so.devices then Upserted(so, k, batch[k]) else so
  }

  lemma {:induction false} WrittenKeeps(t: Tables, batch: map<Slot, Volume>, order: seq<Slot>)
    requires (forall k | k in order :: k in batch) && Kept(t)
    ensures Kept(Written(t, batch, order))
    decreases |order|
  {
    if order != [] {
      var n := |order| - 1;
      WrittenKeeps(t, batch, order[..n]);
      var so := Written(t, batch, order[..n]);
      if order[n].device in so.devices {
        UpsertKeeps(so, order[n], batch[order[n]]);
      }
    }
  }

  function Chosen(batch: map<Slot, Volume>, order: seq<Slot>): map<Slot, Volume> {
    map k | k in order && k in batch :: batch[k]
  }

  lemma {:induction false} WrittenFlushes(t: Tables, batch: map<Slot, Volume>, order: seq<Slot>)
    requires (forall k | k in order :: k in batch) && forall i, j | 0 <= i < j < |order| :: order[i] != order[j]
    ensures Flushed(t, Chosen(batch, order), Written(t, batch, order))
    decreases |order|
  {
    if order == [] {
      NothingFlushed(t);
      assert Chosen(batch, order) == map[];
    } else {
      var n := |order| - 1;
      var k := order[n];
      WrittenFlushes(t, batch, order[..n]);
      assert k !in order[..n];
      assert order == order[..n] + [k];
      assert Chosen(batch, order) == Chosen(batch, order[..n])[k := batch[k]];
      FlushStep(t, Chosen(batch, order[..n]), Written(t, batch, order[..n]), k, batch[k]);
    }
  }

  /** A flush adds every live entry exactly once, whatever order the map iteration takes. */
  lemma FlushAddsOnce(t: Tables, batch: map<Slot, Volume>, order: seq<Slot>)
    requires IsOrder(order, batch)
    ensures Flushed(t, batch, Written(t, batch, order))
  {
    WrittenFlushes(t, batch, order);
    assert Chosen(batch, order) == batch;
  }

  /** Two flushes of the same batch over the same tables leave the same rows, whatever the iteration order. */
  lemma FlushIsDeterministic(before: Tables, batch: map<Slot, Volume>, t: Tables, u: Tables)
    requires Flushed(before, batch, t) && Flushed(before, batch, u)
    ensures t.samples == u.samples
    ensures forall b, d :: At(t.hourly, b, d) == At(u.hourly, b, d) && At(t.daily, b, d) == At(u.daily, b, d)
  {
    forall k | k in t.samples ensures t.samples[k] == u.samples[k] {
      assert At(t.samples, k, RX) == At(u.samples, k, RX);
      assert At(t.samples, k, TX) == At(u.samples, k, TX);
    }
  }

  // ---- conservation --------------------------------------------------------------------------

  lemma AddedTotal(before: map<Slot, Volume>, live: map<Slot, Volume>, after: map<Slot, Volume>, device: ID, d: Direction)
    requires SamplesAdded(before, live, after)
    ensures Total(after, device, d) == Total(before, device, d) + Total(live, device, d)
  {
    var a, b := OfDevice(before, device, d), OfDevice(live, device, d);
    SumAdded(a, b);
    var c := OfDevice(after, device, d);
    assert c.Keys == Added(a, b).Keys;
    forall k | k in c ensures c[k] == Added(a, b)[k] {
      assert At(after, k, d) == At(before, k, d) + At(live, k, d);
    }
    assert c == Added(a, b);
  }

  /** The sampler as a whole, with what was pushed and what was dropped so far for each device. */
  datatype Ledger = Ledger(buffer: map<Slot, Volume>, tables: Tables, pushed: map<ID, Volume>, dropped: map<ID, Volume>)

  datatype Event =
    | Push(device: ID, at: nat, interval: int, v: Volume)
    | Clear(ids: set<ID>)
    | Flush(committed: bool)
    | Delete(gone: ID)
    | Register(added: ID)

  /** What an event takes out of the books of a device. */
  ghost function Lost(l: Ledger, e: Event, device: ID, d: Direction): int {
    match e
    case Push(_, _, _, _) => 0
    case Clear(ids) => if device in ids then Total(l.buffer, device, d) else 0
    case Flush(committed) => if committed && device in l.tables.devices then 0 else Total(l.buffer, device, d)
    case Delete(gone) => if device == gone then Total(l.tables.samples, device, d) else 0
    case Register(_) => 0
  }

  function Others(m: map<Slot, Volume>, ids: set<ID>): map<Slot, Volume> {
    map k | k in m && k.device !in ids :: m[k]
  }

  function Pushed(buffer: map<Slot, Volume>, device: ID, at: nat, interval: int, v: Volume): map<Slot, Volume> {
    if v.rx == 0 && v.tx == 0 then buffer else Bump(buffer, Slot(device, Truncate(at, interval)), v)
  }

  /** A push adds its bytes to the one slot of its device that holds the time, and to no other. */
  lemma PushedExactly(buffer: map<Slot, Volume>, device: ID, at: nat, interval: int, v: Volume, k: Slot, d: Direction)
    ensures At(Pushed(buffer, device, at, interval, v), k, d) ==
              At(buffer, k, d) + if k.device == device && Covers(k.ts, interval, at) then Pick(v, d) else 0
  {
    TruncateExactly(at, interval, k.ts);
  }

  ghost predicate Step(l: Ledger, e: Event, n: Ledger) {
    && (forall device, d :: At(n.dropped, device, d) == At(l.dropped, device, d) + Lost(l, e, device, d))
    && n.pushed == (if e.Push? then Bump(l.pushed, e.device, e.v) else l.pushed)
    && n.buffer == (match e
                    case Push(device, at, interval, v) => Pushed(l.buffer, device, at, interval, v)
                    case Clear(ids) => Others(l.buffer, ids)
                    case Flush(_) => map[]
                    case Delete(_) => l.buffer
                    case Register(_) => l.buffer)
    && (match e
        case Push(_, _, _, _) => n.tables == l.tables
        case Clear(_) => n.tables == l.tables
        case Flush(committed) =>
          if committed then exists order :: IsOrder(order, l.buffer) && n.tables == Written(l.tables, l.buffer, order)
          else n.tables == l.tables
        case Delete(gone) => n.tables == Deleted(l.tables, gone)
        case Register(added) => n.tables == l.tables.(devices := l.tables.devices + {added}))
  }

  /** Everything pushed is buffered, sampled or dropped. */
  ghost predicate Balanced(l: Ledger) {
    forall device, d ::
      At(l.pushed, device, d) == Total(l.buffer, device, d) + Total(l.tables.samples, device, d) + At(l.dropped, device, d)
  }

  ghost predicate Good(l: Ledger) {
    Balanced(l) && Kept(l.tables)
  }

  lemma {:induction false} OthersTotal(m: map<Slot, Volume>, ids: set<ID>, device: ID, d: Direction)
    ensures Total(Others(m, ids), device, d) == if device in ids then 0 else Total(m, device, d)
  {
    if device in ids {
      assert OfDevice(Others(m, ids), device, d) == map[];
    } else {
      assert OfDevice(Others(m, ids), device, d) == OfDevice(m, device, d);
    }
  }

  lemma LiveTotal(m: map<Slot, Volume>, devices: set<ID>, device: ID, d: Direction)
    ensures Total(Live(m, devices), device, d) == if device in devices then Total(m, device, d) else 0
  {
    if device in devices {
      assert OfDevice(Live(m, devices), device, d) == OfDevice(m, device, d);
    } else {
      assert OfDevice(Live(m, devices), device, d) == map[];
    }
  }

  lemma BufferBalance(l: Ledger, e: Event, n: Ledger, device: ID, d: Direction)
    requires Balanced(l) && Step(l, e, n) && (e.Push? || e.Clear? || e.Register?)
    ensures At(n.pushed, device, d) == Total(n.buffer, device, d) + Total(n.tables.samples, device, d) + At(n.dropped, device, d)
  {
    match e
    case Push(id, at, interval, v) =>
      BumpTotal(l.buffer, Slot(id, Truncate(at, interval)), v, device, d);
    case Clear(ids) => OthersTotal(l.buffer, ids, device, d);
    case Register(_) =>
  }

  lemma FlushBalance(l: Ledger, e: Event, n: Ledger, device: ID, d: Direction)
    requires Balanced(l) && Step(l, e, n) && e.Flush?
    ensures At(n.pushed, device, d) == Total(n.buffer, device, d) + Total(n.tables.samples, device, d) + At(n.dropped, device, d)
  {
    EmptySums(Slot(0, 0), HOUR, device, d);
    if e.committed {
      var order :| IsOrder(order, l.buffer) && n.tables == Written(l.tables, l.buffer, order);
      FlushAddsOnce(l.tables, l.buffer, order);
      var live := Live(l.buffer, l.tables.devices);
      AddedTotal(l.tables.samples, live, n.tables.samples, device, d);
      LiveTotal(l.buffer, l.tables.devices, device, d);
    }
  }

  lemma DeleteBalance(l: Ledger, e: Event, n: Ledger, device: ID, d: Direction)
    requires Balanced(l) && Step(l, e, n) && e.Delete?
    ensures At(n.pushed, device, d) == Total(n.buffer, device, d) + Total(n.tables.samples, device, d) + At(n.dropped, device, d)
  {
    OthersTotal(l.tables.samples, {e.gone}, device, d);
    assert Without(l.tables.samples, e.gone) == Others(l.tables.samples, {e.gone});
  }

  lemma StepKeeps(l: Ledger, e: Event, n: Ledger)
    requires Good(l) && Step(l, e, n)
    ensures Good(n)
  {
    forall device, d ensures At(n.pushed, device, d) ==
        Total(n.buffer, device, d) + Total(n.tables.samples, device, d) + At(n.dropped, device, d)
    {
      if e.Flush? {
        FlushBalance(l, e, n, device, d);
      } else if e.Delete? {
        DeleteBalance(l, e, n, device, d);
      } else {
        BufferBalance(l, e, n, device, d);
      }
    }
    if e.Flush? && e.committed {
      var order :| IsOrder(order, l.buffer) && n.tables == Written(l.tables, l.buffer, order);
      WrittenKeeps(l.tables, l.buffer, order);
    } else if e.Delete? {
      DeleteKeeps(l.tables, e.gone);
    }
  }

  const EMPTY := Ledger(map[], Tables({}, map[], map[], map[]), map[], map[])

  ghost predicate IsRun(ledgers: seq<Ledger>, events: seq<Event>) {
    && |ledgers| == |events| + 1
    && ledgers[0] == EMPTY
    && forall i {:trigger events[i]} | 0 <= i < |events| :: Step(ledgers[i], events[i], ledgers[i + 1])
  }

  /**
   Over any run of pushes, clears, flushes, failed flushes and deletions, with
   any flush interval: every hourly rollup is the sum of its samples, every
   daily one of its hours, and every pushed byte is buffered, sampled or was
   dropped by a clear, a failed flush or a deletion.
   */
  lemma {:induction false} RunKeeps(ledgers: seq<Ledger>, events: seq<Event>, i: nat)
    requires IsRun(ledgers, events) && i <= |events|
    ensures Kept(ledgers[i].tables) && Balanced(ledgers[i])
    decreases i
  {
    if i == 0 {
      EmptyKept({});
      forall device, d ensures Total(map[], device, d) == 0 {
        EmptySums(Slot(0, 0), HOUR, device, d);
      }
    } else {
      RunKeeps(ledgers, events, i - 1);
      assert events[i - 1] == events[i - 1];
      StepKeeps(ledgers[i - 1], events[i - 1], ledgers[i]);
    }
  }
}
