/** The sample accumulator and its flush, updating the buffer and the tables in place. */
module Sampler {
  import opened Rollups
  import opened Sums

  class Accounting {
    // the accumulator
    var m: map<Slot, Volume>
    // the tables
    var devices: set<ID>
    var samples: map<Slot, Volume>
    var hourly: map<Slot, Volume>
    var daily: map<Slot, Volume>
    // the books: what was pushed, and what was lost before it reached the tables or with its device
    ghost var pushed: map<ID, Volume>
    ghost var dropped: map<ID, Volume>

    ghost function T(): Tables
      reads this
    {
      Tables(devices, samples, hourly, daily)
    }

    ghost function L(): Ledger
      reads this
    {
      Ledger(m, T(), pushed, dropped)
    }

    constructor ()
      ensures L() == EMPTY && Good(L())
    {
      m, devices, samples, hourly, daily, pushed, dropped := map[], {}, map[], map[], map[], map[], map[];
      new;
      assert IsRun([EMPTY], []);
      RunKeeps([EMPTY], [], 0);
    }

    ghost method Account(before: Ledger, e: Event)
      requires dropped == before.dropped
      modifies this`dropped
      ensures forall device, d :: At(dropped, device, d) == At(before.dropped, device, d) + Lost(before, e, device, d)
    {
      dropped := DroppedAfter(before, e);
      forall device, d ensures At(dropped, device, d) == At(before.dropped, device, d) + Lost(before, e, device, d) {
        DroppedAt(before, e, device, d);
      }
    }

    /** One metered delta that is not empty. */
    method Accumulate(device: ID, at: nat, interval: int, rx: nat, tx: nat)
      modifies this`m
      ensures m == Bump(old(m), Slot(device, if interval > 0 then Truncate(at, interval) else at), Volume(rx, tx))
    {
      var bucket: nat := at;
      if interval > 0 {
        bucket := at - at % interval;
      }
      var k := Slot(device, bucket);
      var v := if k in m then m[k] else Volume(0, 0);
      m := m[k := Volume(v.rx + rx, v.tx + tx)];
    }

    /** accumulator.push: one metered delta into its bucket. */
    method Push(device: ID, at: nat, interval: int, rx: nat, tx: nat)
      requires Good(L())
      modifies this`m, this`pushed, this`dropped
      ensures Good(L()) && Step(old(L()), Event.Push(device, at, interval, Volume(rx, tx)), L())
    {
      ghost var before := L();
      ghost var e := Event.Push(device, at, interval, Volume(rx, tx));
      pushed := Bump(pushed, device, Volume(rx, tx));
      Account(before, e);
      if !(rx == 0 && tx == 0) {
        Accumulate(device, at, interval, rx, tx);
      }
      StepKeeps(before, e, L());
    }

    /** accumulator.clearDevices: drop what is buffered for the devices. */
    method ClearDevices(ids: set<ID>)
      requires Good(L())
      modifies this`m, this`dropped
      ensures Good(L()) && Step(old(L()), Clear(ids), L())
    {
      ghost var before := L();
      var rest := m.Keys;
      while rest != {}
        invariant rest <= before.buffer.Keys
        invariant L() == before.(buffer := m)
        invariant m == map k | k in before.buffer && (k in rest || k.device !in ids) :: before.buffer[k]
        decreases |rest|
      {
        var k :| k in rest;
        if k.device in ids {
          m := m - {k};
        }
        rest := rest - {k};
      }
      assert m == Others(before.buffer, ids);
      Account(before, Clear(ids));
      StepKeeps(before, Clear(ids), L());
    }

    /** accumulator.take: the buffered batch, and an empty buffer. */
    method Take() returns (batch: map<Slot, Volume>)
      modifies this`m
      ensures batch == old(m) && m == map[]
    {
      batch := m;
      m := map[];
    }

    /** The upserts of one entry; false when the device is gone. */
    method WriteEntry(k: Slot, v: Volume) returns (written: bool)
      modifies this`samples, this`hourly, this`daily
      ensures written <==> k.device in devices
      ensures T() == if written then Upserted(old(T()), k, v) else old(T())
    {
      if k.device !in devices {
        return false;
      }
      samples := Bump(samples, k, v);
      hourly := Bump(hourly, Slot(k.device, Truncate(k.ts, HOUR)), v);
      daily := Bump(daily, Slot(k.device, Truncate(k.ts, DAY)), v);
      written := true;
    }

    /** The transaction of a flush: every entry of the batch, in whatever order the map gives. */
    method WriteBatch(batch: map<Slot, Volume>) returns (written: nat, ghost order: seq<Slot>)
      modifies this`samples, this`hourly, this`daily
      ensures IsOrder(order, batch) && T() == Written(old(T()), batch, order)
      ensures written == |Live(batch, devices)|
    {
      written, order := 0, [];
      var rest := batch.Keys;
      BatchStart(T(), batch);
      while rest != {}
        invariant BatchSoFar(old(T()), batch, order, rest, T(), written)
        decreases |rest|
      {
        var k :| k in rest;
        BatchStep(old(T()), batch, order, rest, T(), written, k);
        var live := WriteEntry(k, batch[k]);
        if live {
          written := written + 1;
        }
        order := order + [k];
        rest := rest - {k};
      }
      BatchEnd(old(T()), batch, order, T(), written);
    }

    /** Drains the buffer into the tables, when the transaction commits. */
    method Drain(committed: bool) returns (written: nat, ghost order: seq<Slot>)
      modifies this`m, this`samples, this`hourly, this`daily
      ensures m == map[]
      ensures if committed || old(m) == map[]
              then IsOrder(order, old(m)) && T() == Written(old(T()), old(m), order)
              else T() == old(T())
      ensures written == if committed then |Live(old(m), devices)| else 0
    {
      var batch := Take();
      written, order := 0, [];
      if committed && batch != map[] {
        written, order := WriteBatch(batch);
      }
      assert batch == map[] ==> Live(batch, devices) == map[];
    }

    /**
     FlushSamples: drain the buffer, then write the batch in one transaction; a
     transaction that fails leaves the tables as they were and loses the batch.
     */
    method FlushSamples(committed: bool) returns (written: nat)
      requires Good(L())
      modifies this`m, this`samples, this`hourly, this`daily, this`dropped
      ensures Good(L())
      ensures Step(old(L()), Flush(committed || old(m) == map[]), L())
      ensures written == if committed then |Live(old(m), devices)| else 0
    {
      ghost var before := L();
      ghost var e := Flush(committed || m == map[]);
      Account(before, e);
      ghost var order;
      written, order := Drain(committed);
      assert e.committed ==> IsOrder(order, before.buffer) && T() == Written(before.tables, before.buffer, order);
      StepKeeps(before, e, L());
    }

    /** A deleted device takes its rows along. */
    method DeleteDevice(device: ID)
      requires Good(L())
      modifies this`devices, this`samples, this`hourly, this`daily, this`dropped
      ensures Good(L()) && Step(old(L()), Delete(device), L())
    {
      ghost var before := L();
      Account(before, Delete(device));
      devices := devices - {device};
      samples := Without(samples, device);
      hourly := Without(hourly, device);
      daily := Without(daily, device);
      StepKeeps(before, Delete(device), L());
    }
  }

  /** The entries outside `rest`, each once. */
  ghost predicate OrderedSoFar(order: seq<Slot>, batch: map<Slot, Volume>, rest: set<Slot>) {
    && rest <= batch.Keys
    && (forall k :: k in order <==> k in batch && k !in rest)
    && (forall i, j | 0 <= i < j < |order| :: order[i] != order[j])
  }

  lemma OrderedStep(order: seq<Slot>, batch: map<Slot, Volume>, rest: set<Slot>, k: Slot)
    requires OrderedSoFar(order, batch, rest) && k in rest
    ensures OrderedSoFar(order + [k], batch, rest - {k})
  {
  }

  /** The live entries that were written already. */
  ghost function LiveBut(batch: map<Slot, Volume>, devices: set<ID>, rest: set<Slot>): map<Slot, Volume> {
    map k | k in batch && k.device in devices && k !in rest :: batch[k]
  }

  lemma LiveStep(batch: map<Slot, Volume>, devices: set<ID>, rest: set<Slot>, k: Slot)
    requires k in rest && rest <= batch.Keys
    ensures |LiveBut(batch, devices, rest - {k})| == |LiveBut(batch, devices, rest)| + if k.device in devices then 1 else 0
  {
    var was, now := LiveBut(batch, devices, rest), LiveBut(batch, devices, rest - {k});
    if k.device in devices {
      assert now.Keys == was.Keys + {k};
    } else {
      assert now == was;
    }
  }

  lemma WrittenSnoc(t: Tables, batch: map<Slot, Volume>, order: seq<Slot>, k: Slot)
    requires (forall j | j in order :: j in batch) && k in batch
    ensures var so := Written(t, batch, order);
            Written(t, batch, order + [k]) == (if k.device in so.devices then Upserted(so, k, batch[k]) else so)
  {
    assert (order + [k])[..|order|] == order;
  }

  /** The tables and the count once the entries outside `rest` were written. */
  ghost predicate BatchSoFar(start: Tables, batch: map<Slot, Volume>, order: seq<Slot>, rest: set<Slot>,
                             now: Tables, written: nat)
  {
    && OrderedSoFar(order, batch, rest)
    && now == Written(start, batch, order) && now.devices == start.devices
    && written == |LiveBut(batch, start.devices, rest)|
  }

  lemma BatchStart(t: Tables, batch: map<Slot, Volume>)
    ensures BatchSoFar(t, batch, [], batch.Keys, t, 0)
  {
    assert LiveBut(batch, t.devices, batch.Keys) == map[];
  }

  lemma BatchEnd(start: Tables, batch: map<Slot, Volume>, order: seq<Slot>, now: Tables, written: nat)
    requires BatchSoFar(start, batch, order, {}, now, written)
    ensures IsOrder(order, batch) && now == Written(start, batch, order) && written == |Live(batch, start.devices)|
  {
    assert LiveBut(batch, start.devices, {}) == Live(batch, start.devices);
  }

  lemma BatchStep(start: Tables, batch: map<Slot, Volume>, order: seq<Slot>, rest: set<Slot>, now: Tables, written: nat, k: Slot)
    requires BatchSoFar(start, batch, order, rest, now, written) && k in rest
    ensures var live := k.device in now.devices;
            BatchSoFar(start, batch, order + [k], rest - {k},
                       if live then Upserted(now, k, batch[k]) else now, if live then written + 1 else written)
  {
    OrderedStep(order, batch, rest, k);
    WrittenSnoc(start, batch, order, k);
    LiveStep(batch, start.devices, rest, k);
  }

  lemma TotalNonNegative(m: map<Slot, Volume>, device: ID, d: Direction)
    ensures Total(m, device, d) >= 0
  {
    SumNonNegative(OfDevice(m, device, d));
  }

  ghost function Books(l: Ledger): set<ID> {
    l.dropped.Keys + (set k | k in l.buffer :: k.device) + (set k | k in l.tables.samples :: k.device)
  }

  ghost function LostNow(l: Ledger, e: Event, device: ID, d: Direction): (n: nat)
    ensures n == Lost(l, e, device, d)
  {
    TotalNonNegative(l.buffer, device, d);
    TotalNonNegative(l.tables.samples, device, d);
    Lost(l, e, device, d)
  }

  ghost function DroppedAfter(l: Ledger, e: Event): map<ID, Volume> {
    map device | device in Books(l) ::
      Volume(At(l.dropped, device, RX) + LostNow(l, e, device, RX), At(l.dropped, device, TX) + LostNow(l, e, device, TX))
  }

  lemma DroppedAt(l: Ledger, e: Event, device: ID, d: Direction)
    ensures At(DroppedAfter(l, e), device, d) == At(l.dropped, device, d) + Lost(l, e, device, d)
  {
    if device !in Books(l) {
      assert OfDevice(l.buffer, device, d) == map[];
      assert OfDevice(l.tables.samples, device, d) == map[];
    }
  }
}
