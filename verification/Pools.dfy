/** The pool contract of an interface: private, canonical, large enough and disjoint networks. */
module Pools {
  import opened Addresses
  import opened Allocation
  import opened Wrappers

  const MAX_POOLS := 16

  datatype PoolFault = BadPool | OverlappingPools

  /** RFC 1918: 10/8, 172.16/12 and 192.168/16. */
  predicate IsPrivate(a: nat) {
    a / 0x100_0000 == 10 || a / 0x10_0000 == 0xAC1 || a / 0x1_0000 == 0xC0A8
  }

  /** A canonical private network with at least five device addresses. */
  predicate PoolOk(p: Prefix) {
    && p.addr == Base(p) && p.bits <= 29
    && IsPrivate(p.addr) && IsPrivate(BroadcastOf(p))
  }

  /** netip's test: the same network bits up to the shorter prefix. */
  predicate Overlaps(p: Prefix, q: Prefix) {
    var bits := if p.bits < q.bits then p.bits else q.bits;
    Net(CIDR(p.addr, bits)) == Net(CIDR(q.addr, bits))
  }

  predicate ValidPools(pools: seq<Prefix>) {
    && 1 <= |pools| <= MAX_POOLS
    && (forall i | 0 <= i < |pools| :: PoolOk(pools[i]))
    && (forall i, j | 0 <= i < j < |pools| :: !Overlaps(pools[j], pools[i]))
  }

  predicate OverlapsBefore(pools: seq<Prefix>, k: nat)
    requires k < |pools|
  {
    exists i :: 0 <= i < k && Overlaps(pools[k], pools[i])
  }

  /** What is wrong with pool k. */
  function FaultAt(pools: seq<Prefix>, k: nat): Option<PoolFault>
    requires k < |pools|
  {
    if !PoolOk(pools[k]) then Some(BadPool)
    else if OverlapsBefore(pools, k) then Some(OverlappingPools)
    else None
  }

  function Faults(pools: seq<Prefix>): seq<Option<PoolFault>> {
    seq(|pools|, k requires 0 <= k < |pools| => FaultAt(pools, k))
  }

  /** The first fault from index k on. */
  function First(faults: seq<Option<PoolFault>>, k: nat): Option<PoolFault>
    requires k <= |faults|
    decreases |faults| - k
  {
    if k == |faults| then None
    else if faults[k].Some? then faults[k]
    else First(faults, k + 1)
  }

  function Fault(pools: seq<Prefix>): Option<PoolFault> {
    if !(1 <= |pools| <= MAX_POOLS) then Some(BadPool) else First(Faults(pools), 0)
  }

  lemma {:induction false} FirstExact(faults: seq<Option<PoolFault>>, k: nat)
    requires k <= |faults|
    ensures First(faults, k).None? <==> forall j | k <= j < |faults| :: faults[j].None?
    decreases |faults| - k
  {
    if k < |faults| {
      FirstExact(faults, k + 1);
    }
  }

  lemma FaultAtExact(pools: seq<Prefix>, k: nat)
    requires k < |pools|
    ensures FaultAt(pools, k).None? <==>
              PoolOk(pools[k]) && forall i | 0 <= i < k :: !Overlaps(pools[k], pools[i])
  {
  }

  /** Validation passes exactly for 1..16 acceptable pools of which no two overlap. */
  lemma FaultExact(pools: seq<Prefix>)
    ensures Fault(pools).None? <==> ValidPools(pools)
  {
    FirstExact(Faults(pools), 0);
    forall k | 0 <= k < |pools|
      ensures Faults(pools)[k].None? <==>
                PoolOk(pools[k]) && forall i | 0 <= i < k :: !Overlaps(pools[k], pools[i])
    {
      FaultAtExact(pools, k);
    }
  }

  lemma {:induction false} FirstIsOne(faults: seq<Option<PoolFault>>, k: nat) returns (j: nat)
    requires k <= |faults| && First(faults, k).Some?
    ensures k <= j < |faults| && faults[j] == First(faults, k)
    decreases |faults| - k
  {
    j := k;
    if faults[k].None? {
      j := FirstIsOne(faults, k + 1);
    }
  }

  /** What a refusal says of the pools: their number or one of them is wrong, or two of them overlap. */
  lemma FaultNamed(pools: seq<Prefix>)
    ensures Fault(pools) == Some(BadPool) ==> !(1 <= |pools| <= 16) || exists i :: 0 <= i < |pools| && !PoolOk(pools[i])
    ensures Fault(pools) == Some(OverlappingPools) ==>
              exists i, j :: 0 <= i < j < |pools| && Overlaps(pools[j], pools[i])
  {
    if 1 <= |pools| <= MAX_POOLS && Fault(pools).Some? {
      var k := FirstIsOne(Faults(pools), 0);
      assert Faults(pools)[k] == FaultAt(pools, k);
      assert FaultAt(pools, k) == Some(BadPool) ==> !PoolOk(pools[k]);
    }
  }

  /** Parsing one pool and comparing it with the ones before it. */
  method ValidateOne(pools: seq<Prefix>, k: nat) returns (fault: Option<PoolFault>)
    requires k < |pools|
    ensures fault == FaultAt(pools, k)
  {
    var p := pools[k];
    if !PoolOk(p) {
      return Some(BadPool);
    }
    for i := 0 to k
      invariant forall n | 0 <= n < i :: !Overlaps(p, pools[n])
    {
      if Overlaps(p, pools[i]) {
        return Some(OverlappingPools);
      }
    }
    fault := None;
  }

  /** Validate: the pools in order. */
  method Validate(pools: seq<Prefix>) returns (fault: Option<PoolFault>)
    ensures fault == Fault(pools)
  {
    if |pools| < 1 || |pools| > MAX_POOLS {
      return Some(BadPool);
    }
    ghost var faults := Faults(pools);
    for k := 0 to |pools|
      invariant First(faults, 0) == First(faults, k)
    {
      fault := ValidateOne(pools, k);
      assert faults[k] == fault;
      if fault.Some? {
        return;
      }
    }
    fault := None;
  }

  // ---- what overlap means ------------------------------------------------------------------

  /** The bounds of a quotient of a quotient. */
  lemma QuotientBounds(x: nat, s: nat, t: nat, y: nat, q: nat)
    requires s > 0 && t > 0 && y * s <= x < y * s + s && q * t <= y < q * t + t
    ensures q * (s * t) <= x < q * (s * t) + s * t
  {
    MulMonotone(q * t, y, s);
    MulMonotone(y + 1, q * t + t, s);
    Rearrange(q, s, t);
    assert (y + 1) * s == y * s + s;
  }

  lemma Rearrange(q: nat, s: nat, t: nat)
    ensures (q * t) * s == q * (s * t)
    ensures (q * t + t) * s == q * (s * t) + s * t
  {
  }

  /** Dividing twice is dividing by the product. */
  lemma DivTwice(x: nat, s: nat, t: nat)
    requires s > 0 && t > 0
    ensures s * t > 0 && Div(x, s * t) == Div(Div(x, s), t)
  {
    var y := Div(x, s);
    var q := Div(y, t);
    assert s * t > 0;
    QuotientBounds(x, s, t, y, q);
    DivExactly(x, s * t, q);
  }

  /** The network number of fewer bits is a function of that of more bits. */
  lemma CoarserNet(a: nat, b: nat, fine: nat, coarse: nat)
    requires a < WORD && b < WORD && coarse <= fine <= 32
    requires Net(CIDR(a, fine)) == Net(CIDR(b, fine))
    ensures Net(CIDR(a, coarse)) == Net(CIDR(b, coarse))
  {
    var s, t := Pow2(32 - fine), Pow2(fine - coarse);
    Pow2Sum(32 - fine, fine - coarse);
    DivTwice(a, s, t);
    DivTwice(b, s, t);
  }

  /** Overlapping prefixes share the address of the finer one. */
  lemma OverlapShares(p: Prefix, q: Prefix) returns (a: nat)
    requires Overlaps(p, q)
    ensures a < WORD && Contains(p, a) && Contains(q, a)
  {
    a := if p.bits < q.bits then q.addr else p.addr;
  }

  lemma SharedOverlaps(p: Prefix, q: Prefix, a: nat)
    requires a < WORD && Contains(p, a) && Contains(q, a)
    ensures Overlaps(p, q)
  {
    var bits := if p.bits < q.bits then p.bits else q.bits;
    CoarserNet(a, p.addr, p.bits, bits);
    CoarserNet(a, q.addr, q.bits, bits);
  }

  /** Two prefixes overlap exactly when they share an address. */
  lemma OverlapsExactly(p: Prefix, q: Prefix)
    ensures Overlaps(p, q) <==> exists a: nat :: a < WORD && Contains(p, a) && Contains(q, a)
  {
    if Overlaps(p, q) {
      var a := OverlapShares(p, q);
    }
    if exists a: nat :: a < WORD && Contains(p, a) && Contains(q, a) {
      var a: nat :| a < WORD && Contains(p, a) && Contains(q, a);
      SharedOverlaps(p, q, a);
    }
  }

  /** The pools of an interface share no address. */
  lemma PoolsDisjoint(pools: seq<Prefix>, i: nat, j: nat, a: nat)
    requires ValidPools(pools) && i < j < |pools| && a < WORD && Contains(pools[i], a)
    ensures !Contains(pools[j], a)
  {
    OverlapsExactly(pools[j], pools[i]);
  }

  /** The private addresses are three ranges. */
  lemma IsPrivateExactly(a: nat)
    requires a < WORD
    ensures IsPrivate(a) <==>
              || 0x0A00_0000 <= a <= 0x0AFF_FFFF   // 10.0.0.0 to 10.255.255.255
              || 0xAC10_0000 <= a <= 0xAC1F_FFFF   // 172.16.0.0 to 172.31.255.255
              || 0xC0A8_0000 <= a <= 0xC0A8_FFFF   // 192.168.0.0 to 192.168.255.255
  {
  }

  lemma Regroup(n: nat, c: nat, m: nat)
    ensures n * (c * m) == c * (n * m)
  {
  }

  /** A network of more than 2^28 addresses starts at a multiple of 2^29. */
  lemma WideBase(p: Prefix) returns (k: nat)
    requires p.bits <= 3
    ensures Base(p) == 0x2000_0000 * k
  {
    var m := Pow2(3 - p.bits);
    Pow2Bytes();
    Pow2Sum(24, 5);
    Pow2Sum(29, 3 - p.bits);
    assert Pow2(5) == 32;
    Regroup(Net(p), 0x2000_0000, m);
    k := Net(p) * m;
  }

  lemma NarrowSize(p: Prefix)
    requires p.bits >= 4
    ensures Size(p) <= 0x1000_0000
  {
    Pow2Monotone(HostBits(p), 28);
    Pow2Bytes();
    Pow2Sum(24, 4);
    assert Pow2(4) == 16;
  }

  /** No multiple of 2^29 is private. */
  lemma WideIsPublic(a: nat, k: nat)
    requires a < WORD && a == 0x2000_0000 * k
    ensures !IsPrivate(a)
  {
    assert k < 8;
    IsPrivateExactly(a);
  }

  /** The ranges are further apart than 2^28 addresses. */
  lemma BetweenPrivate(first: nat, a: nat, last: nat)
    requires first <= a <= last < WORD && last - first < 0x1000_0000 && IsPrivate(first) && IsPrivate(last)
    ensures IsPrivate(a)
  {
    IsPrivateExactly(first);
    IsPrivateExactly(last);
    IsPrivateExactly(a);
  }

  /** A network whose first and last address are private is private throughout. */
  lemma PrivateThroughout(p: Prefix, a: nat)
    requires IsPrivate(Base(p)) && IsPrivate(BroadcastOf(p)) && Contains(p, a)
    ensures a < WORD && IsPrivate(a)
  {
    ContainsExactly(p, a);
    if p.bits <= 3 {
      var k := WideBase(p);
      WideIsPublic(Base(p), k);
    } else {
      NarrowSize(p);
      BetweenPrivate(Base(p), a, BroadcastOf(p));
    }
  }

  /** A pool is a canonical network of at least eight addresses, all of them private. */
  lemma PoolOkExactly(p: Prefix)
    ensures PoolOk(p) <==> p.addr == Base(p) && p.bits <= 29 && forall a: nat | Contains(p, a) :: IsPrivate(a)
  {
    ContainsExactly(p, Base(p));
    ContainsExactly(p, BroadcastOf(p));
    if PoolOk(p) {
      forall a: nat | Contains(p, a) ensures IsPrivate(a) {
        PrivateThroughout(p, a);
      }
    }
  }

  /** 10.0.0.0/24 is a pool, and 10.0.0.2 its first device address. */
  lemma TenSlash24()
    ensures var p: Prefix := CIDR(0x0A00_0000, 24);
            ValidPools([p]) && FirstFree(Blocks([p]), {}) == Some(0x0A00_0002)
  {
    var p: Prefix := CIDR(0x0A00_0000, 24);
    Pow2Bytes();
    DivExactly(0x0A00_0000, 256, 0xA_0000);
    assert Size(p) == 256 && Base(p) == 0x0A00_0000 && BroadcastOf(p) == 0x0A00_00FF;
    var b := BlockOf(p);
    assert b == Block(0x0A00_0000, 0x0A00_00FF);
    FreeFromExact(b, {}, b.first + 1);
    assert Host(b, 0x0A00_0002);
    assert Blocks([p])[0] == b;
  }
}
