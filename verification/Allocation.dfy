/** First-free allocation of device addresses from an ordered list of pools. */
module Allocation {
  import opened Addresses
  import opened Wrappers

  /** The addresses of a pool, from network to broadcast. */
  datatype Block = Block(first: nat, last: nat)

  function BlockOf(p: Prefix): Block {
    Block(Base(p), BroadcastOf(p))
  }

  function Blocks(pools: seq<Prefix>): seq<Block> {
    seq(|pools|, i requires 0 <= i < |pools| => BlockOf(pools[i]))
  }

  /** A device address: after the gateway and before the broadcast address. */
  predicate Host(b: Block, a: nat) {
    b.first + 1 < a < b.last
  }

  /** A device address of one of the pools. */
  ghost predicate Housed(pools: seq<Prefix>, a: nat) {
    exists b :: b in Blocks(pools) && Host(b, a)
  }

  /** The shared policy: in the pool, and neither network, gateway nor broadcast. */
  predicate Assignable(p: Prefix, a: nat) {
    && Contains(p, a)
    && a != Base(p) && a != Base(p) + 1 && a != BroadcastOf(p)
  }

  /** The policy admits exactly the device addresses. */
  lemma AssignableIsHost(p: Prefix, a: nat)
    ensures Assignable(p, a) <==> Host(BlockOf(p), a)
  {
    ContainsExactly(p, a);
  }

  lemma HousedInPool(pools: seq<Prefix>, a: nat) returns (p: Prefix)
    requires Housed(pools, a)
    ensures p in pools && Host(BlockOf(p), a) && Contains(p, a)
  {
    var b :| b in Blocks(pools) && Host(b, a);
    var i :| 0 <= i < |Blocks(pools)| && Blocks(pools)[i] == b;
    p := pools[i];
    AssignableIsHost(p, a);
  }

  lemma PoolHouses(pools: seq<Prefix>, p: Prefix, a: nat)
    requires p in pools && Host(BlockOf(p), a)
    ensures Housed(pools, a)
  {
    var i :| 0 <= i < |pools| && pools[i] == p;
    assert Blocks(pools)[i] == BlockOf(p);
  }

  lemma HostStrictlyInside(p: Prefix, a: nat)
    requires Host(BlockOf(p), a)
    ensures Base(p) + 1 < a < Base(p) + Size(p) - 1
  {
  }

  /** No device address is a network, gateway or broadcast address. */
  lemma HousedStrictlyInside(pools: seq<Prefix>, a: nat)
    requires Housed(pools, a)
    ensures exists p :: p in pools && Base(p) + 1 < a < Base(p) + Size(p) - 1
  {
    var p := HousedInPool(pools, a);
    HostStrictlyInside(p, a);
  }

  /** The first unused device address from `a` on. */
  ghost function FreeFrom(b: Block, used: set<nat>, a: nat): Option<nat>
    decreases b.last + 1 - a
  {
    if a > b.last then None
    else if Host(b, a) && a !in used then Some(a)
    else FreeFrom(b, used, a + 1)
  }

  ghost function FreeIn(b: Block, used: set<nat>): Option<nat> {
    FreeFrom(b, used, b.first + 1)
  }

  /** The first free address of the first block that has one. */
  ghost function FirstFree(blocks: seq<Block>, used: set<nat>): Option<nat>
    decreases |blocks|
  {
    if blocks == [] then None
    else
      var a := FreeIn(blocks[0], used);
      if a.Some? then a else FirstFree(blocks[1..], used)
  }

  lemma {:induction false} FreeFromExact(b: Block, used: set<nat>, a: nat)
    ensures var r := FreeFrom(b, used, a);
            && (r.Some? ==> a <= r.value && Host(b, r.value) && r.value !in used)
            && (forall c | a <= c && Host(b, c) && (r.Some? ==> c < r.value) :: c in used)
    decreases b.last + 1 - a
  {
    if a <= b.last {
      FreeFromExact(b, used, a + 1);
    }
  }

  ghost predicate AllUsed(b: Block, used: set<nat>) {
    forall a: nat | Host(b, a) :: a in used
  }

  /** `a` is the lowest unused host of block i, and the blocks before it are full. */
  ghost predicate IsLowestFree(blocks: seq<Block>, used: set<nat>, i: nat, a: nat)
    requires i < |blocks|
  {
    && Host(blocks[i], a) && a !in used
    && (forall c: nat | Host(blocks[i], c) && c < a :: c in used)
    && (forall j | 0 <= j < i :: AllUsed(blocks[j], used))
  }

  lemma LowestFreeLater(blocks: seq<Block>, used: set<nat>, i: nat, a: nat)
    requires blocks != [] && AllUsed(blocks[0], used)
    requires i < |blocks[1..]| && IsLowestFree(blocks[1..], used, i, a)
    ensures IsLowestFree(blocks, used, i + 1, a)
  {
    assert blocks[i + 1] == blocks[1..][i];
    forall j | 0 <= j < i + 1 ensures AllUsed(blocks[j], used) {
      assert j > 0 ==> blocks[j] == blocks[1..][j - 1];
    }
  }

  /**
   Allocation is sound, least and complete: the lowest unused device address
   of the first block that has one, and nothing exactly when every device
   address of every block is used.
   */
  lemma {:induction false} FirstFreeExact(blocks: seq<Block>, used: set<nat>)
    ensures var r := FirstFree(blocks, used);
            if r.None? then forall i | 0 <= i < |blocks| :: AllUsed(blocks[i], used)
            else exists i :: 0 <= i < |blocks| && IsLowestFree(blocks, used, i, r.value)
    decreases |blocks|
  {
    if blocks != [] {
      var b := blocks[0];
      FreeFromExact(b, used, b.first + 1);
      var a := FreeIn(b, used);
      if a.Some? {
        assert IsLowestFree(blocks, used, 0, a.value);
      } else {
        FirstFreeExact(blocks[1..], used);
        var r := FirstFree(blocks[1..], used);
        if r.Some? {
          var i :| 0 <= i < |blocks[1..]| && IsLowestFree(blocks[1..], used, i, r.value);
          LowestFreeLater(blocks, used, i, r.value);
        } else {
          forall i | 0 <= i < |blocks| ensures AllUsed(blocks[i], used) {
            assert i > 0 ==> blocks[i] == blocks[1..][i - 1];
          }
        }
      }
    }
  }

  /** In terms of the pools: the address is free and housed, or every housed address is used. */
  lemma FirstFreeHoused(pools: seq<Prefix>, used: set<nat>)
    ensures var r := FirstFree(Blocks(pools), used);
            if r.Some? then Housed(pools, r.value) && r.value !in used
            else forall a: nat | Housed(pools, a) :: a in used
  {
    var blocks := Blocks(pools);
    FirstFreeExact(blocks, used);
    var r := FirstFree(blocks, used);
    if r.Some? {
      var i :| 0 <= i < |blocks| && IsLowestFree(blocks, used, i, r.value);
      assert blocks[i] in blocks;
    } else {
      forall a: nat | Housed(pools, a) ensures a in used {
        var b :| b in blocks && Host(b, a);
        var i :| 0 <= i < |blocks| && blocks[i] == b;
        assert AllUsed(blocks[i], used);
      }
    }
  }

  // ---- the code --------------------------------------------------------------------------

  /** Going on from an address of the pool, or past its end. */
  lemma ScanStep(p: Prefix, used: set<nat>, a: nat)
    requires Base(p) + 1 <= a
    ensures var b := BlockOf(p);
            FreeFrom(b, used, a) ==
              if !Contains(p, a) then None
              else if a != b.first + 1 && a != b.last && a !in used then Some(a)
              else FreeFrom(b, used, a + 1)
    ensures Contains(p, a) ==> a < WORD
  {
    ContainsExactly(p, a);
  }

  /** One pool: its hosts upwards from the gateway, skipping gateway and broadcast. */
  method ScanPool(p: Prefix, used: set<nat>) returns (r: Option<nat>)
    ensures r == FreeIn(BlockOf(p), used)
  {
    var gateway := Base(p) + 1;
    var bcast := BroadcastOf(p);
    var a := gateway;
    while Contains(p, a)
      invariant gateway <= a
      invariant FreeFrom(BlockOf(p), used, gateway) == FreeFrom(BlockOf(p), used, a)
      decreases WORD - a
    {
      ScanStep(p, used, a);
      if a != gateway && a != bcast && a !in used {
        return Some(a);
      }
      a := a + 1;
    }
    ScanStep(p, used, a);
    r := None;
  }

  lemma FirstFreeStep(blocks: seq<Block>, used: set<nat>, k: nat)
    requires k < |blocks|
    ensures var a := FreeIn(blocks[k], used);
            FirstFree(blocks[k..], used) == if a.Some? then a else FirstFree(blocks[k + 1..], used)
  {
    assert blocks[k..][0] == blocks[k] && blocks[k..][1..] == blocks[k + 1..];
  }

  /** allocateIP: the pools in order. */
  method AllocateIP(pools: seq<Prefix>, used: set<nat>) returns (r: Option<nat>)
    ensures r == FirstFree(Blocks(pools), used)
  {
    ghost var blocks := Blocks(pools);
    assert blocks[0..] == blocks;
    for k := 0 to |pools|
      invariant FirstFree(blocks, used) == FirstFree(blocks[k..], used)
    {
      FirstFreeStep(blocks, used, k);
      r := ScanPool(pools[k], used);
      if r.Some? {
        return;
      }
    }
    r := None;
  }

  // ---- capacity --------------------------------------------------------------------------

  ghost function Hosts(p: Prefix): set<nat> {
    set a: nat | a < WORD && Assignable(p, a)
  }

  lemma {:induction false} RangeCount(lo: nat, hi: nat) returns (s: set<nat>)
    requires lo <= hi
    ensures |s| == hi - lo && forall a :: a in s <==> lo <= a < hi
    decreases hi - lo
  {
    s := {};
    if lo < hi {
      s := RangeCount(lo, hi - 1);
      s := s + {hi - 1};
    }
  }

  /** A pool of at least eight addresses serves all but three of them. */
  lemma CapacityExact(p: Prefix)
    requires p.bits <= 29
    ensures |Hosts(p)| == Pow2(32 - p.bits) - 3
  {
    Pow2Monotone(3, HostBits(p));
    assert Pow2(3) == 8;
    NetBounds(p);
    var b := BlockOf(p);
    var s := RangeCount(b.first + 2, b.last);
    forall a: nat ensures a in s <==> a in Hosts(p) {
      AssignableIsHost(p, a);
    }
    assert s == Hosts(p);
  }
}
