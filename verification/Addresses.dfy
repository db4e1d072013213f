/** IPv4 networks: prefixes and broadcast arithmetic on 32-bit words. */
module Addresses {
  // ---- words ----------------------------------------------------------------------------

  const WORD := 0x1_0000_0000

  function Pow2(n: nat): (r: nat)
    ensures r > 0
  {
    if n == 0 then 1 else 2 * Pow2(n - 1)
  }

  lemma {:induction false} Pow2Monotone(m: nat, n: nat)
    requires m <= n
    ensures Pow2(m) <= Pow2(n)
    decreases n
  {
    if m < n {
      Pow2Monotone(m, n - 1);
    }
  }

  lemma {:induction false} Pow2Sum(m: nat, n: nat)
    ensures Pow2(m + n) == Pow2(m) * Pow2(n)
    decreases n
  {
    if n > 0 {
      Pow2Sum(m, n - 1);
      assert Pow2(m + n) == 2 * Pow2(m + (n - 1));
    }
  }

  lemma Pow2Bytes()
    ensures Pow2(8) == 0x100 && Pow2(16) == 0x1_0000 && Pow2(24) == 0x100_0000 && Pow2(32) == WORD
  {
    assert Pow2(8) == 0x100;
    Pow2Sum(8, 8);
    Pow2Sum(16, 8);
    Pow2Sum(24, 8);
  }

  /** Bitwise or of two words. */
  function Or(a: nat, b: nat): nat
    decreases a + b
  {
    if a == 0 then b
    else if b == 0 then a
    else 2 * Or(a / 2, b / 2) + (if a % 2 == 1 || b % 2 == 1 then 1 else 0)
  }

  /** Bitwise complement of a 32-bit word. */
  function Not(a: int): int {
    WORD - 1 - a
  }

  function Wrap32(a: int): (r: nat)
    ensures r < WORD
  {
    a % WORD
  }

  lemma OrEven(half: nat, b: nat)
    requires Or(half, b / 2) == half + b / 2
    ensures Or(2 * half, b) == 2 * half + b
  {
    if half != 0 && b != 0 {
      assert (2 * half) / 2 == half && (2 * half) % 2 == 0;
    }
  }

  lemma DoubleFactor(q: nat, s: nat)
    ensures q * (2 * s) == 2 * (q * s)
  {
  }

  /** Filling zero low bits is adding. */
  lemma {:induction false} OrFillsLowBits(q: nat, k: nat, b: nat)
    requires b < Pow2(k)
    ensures Or(q * Pow2(k), b) == q * Pow2(k) + b
    decreases k
  {
    if k > 0 {
      OrFillsLowBits(q, k - 1, b / 2);
      DoubleFactor(q, Pow2(k - 1));
      OrEven(q * Pow2(k - 1), b);
    }
  }

  lemma MulMonotone(a: int, b: int, s: nat)
    requires a <= b
    ensures a * s <= b * s
  {
    assert (b - a) * s >= 0;
  }

  lemma DivParts(x: nat, s: nat)
    requires s > 0
    ensures x / s >= 0 && (x / s) * s <= x < (x / s) * s + s
  {
    assert x == (x / s) * s + x % s;
    if x / s < 0 {
      MulMonotone(x / s, -1, s);
    }
  }

  function Div(x: nat, s: nat): (q: nat)
    requires s > 0
    ensures q * s <= x < q * s + s
  {
    DivParts(x, s);
    x / s
  }

  // ---- prefixes --------------------------------------------------------------------------

  /** A network in CIDR form; the address is a 32-bit word. */
  datatype CIDR = CIDR(addr: nat, bits: nat)

  type Prefix = c: CIDR | c.addr < WORD && c.bits <= 32 witness CIDR(0, 0)

  function HostBits(p: Prefix): nat {
    32 - p.bits
  }

  function Size(p: Prefix): (r: nat)
    ensures r > 0
  {
    Pow2(HostBits(p))
  }

  /** The network number. */
  function Net(p: Prefix): nat {
    Div(p.addr, Size(p))
  }

  /** The masked (network) address. */
  function Base(p: Prefix): nat {
    Net(p) * Size(p)
  }

  /** netip's test: the same network bits. */
  predicate Contains(p: Prefix, a: nat) {
    Div(a, Size(p)) == Net(p)
  }

  lemma DivExactly(x: nat, s: nat, q: nat)
    requires s > 0
    ensures Div(x, s) == q <==> q * s <= x < q * s + s
  {
    var d := Div(x, s);
    if d < q {
      MulMonotone(d + 1, q, s);
      assert (d + 1) * s == d * s + s;
    }
    if d > q {
      MulMonotone(q + 1, d, s);
      assert (q + 1) * s == q * s + s;
    }
  }

  lemma BlockFits(q: nat, s: nat, n: nat, w: nat)
    requires n * s == w && q * s < w
    ensures q * s + s <= w
  {
    if q >= n {
      MulMonotone(n, q, s);
    }
    MulMonotone(q + 1, n, s);
    assert (q + 1) * s == q * s + s;
  }

  lemma Halves(p: Prefix)
    ensures Pow2(p.bits) * Size(p) == WORD
  {
    Pow2Sum(p.bits, HostBits(p));
    Pow2Bytes();
  }

  lemma NetBounds(p: Prefix)
    ensures Base(p) + Size(p) <= WORD
  {
    Halves(p);
    BlockFits(Net(p), Size(p), Pow2(p.bits), WORD);
  }

  /** A prefix holds exactly the Size(p) addresses from its base on, all of them words. */
  lemma ContainsExactly(p: Prefix, a: nat)
    ensures Contains(p, a) <==> Base(p) <= a < Base(p) + Size(p)
    ensures Base(p) + Size(p) <= WORD
  {
    DivExactly(a, Size(p), Net(p));
    NetBounds(p);
  }

  // ---- broadcastOf -----------------------------------------------------------------------

  function As4(a: nat): (nat, nat, nat, nat)
    requires a < WORD
  {
    (a / 0x100_0000, (a / 0x1_0000) % 0x100, (a / 0x100) % 0x100, a % 0x100)
  }

  function From4(r: (nat, nat, nat, nat)): nat {
    r.0 * 0x100_0000 + r.1 * 0x1_0000 + r.2 * 0x100 + r.3
  }

  lemma From4As4(a: nat)
    requires a < WORD
    ensures From4(As4(a)) == a
    ensures As4(a).0 < 0x100
  {
    assert a / 0x1_0000 == (a / 0x100_0000) * 0x100 + (a / 0x1_0000) % 0x100;
    assert a / 0x100 == (a / 0x1_0000) * 0x100 + (a / 0x100) % 0x100;
  }

  /** The four bytes shifted and or-ed into one word. */
  function Packed(r: (nat, nat, nat, nat)): nat {
    Or(Or(Or(r.0 * 0x100_0000, r.1 * 0x1_0000), r.2 * 0x100), r.3)
  }

  lemma TwoBytes(a: nat, b: nat)
    requires b < 0x100
    ensures Or(a * 0x100_0000, b * 0x1_0000) == (a * 0x100 + b) * 0x1_0000
  {
    Pow2Bytes();
    OrFillsLowBits(a, 24, b * 0x1_0000);
  }

  lemma ThirdByte(a: nat, b: nat)
    requires b < 0x100
    ensures Or(a * 0x1_0000, b * 0x100) == (a * 0x100 + b) * 0x100
  {
    Pow2Bytes();
    OrFillsLowBits(a, 16, b * 0x100);
  }

  lemma LastByte(a: nat, b: nat)
    requires b < 0x100
    ensures Or(a * 0x100, b) == a * 0x100 + b
  {
    Pow2Bytes();
    OrFillsLowBits(a, 8, b);
  }

  lemma PackedIsFrom4(r: (nat, nat, nat, nat))
    requires r.0 < 0x100 && r.1 < 0x100 && r.2 < 0x100 && r.3 < 0x100
    ensures Packed(r) == From4(r)
  {
    TwoBytes(r.0, r.1);
    var two := r.0 * 0x100 + r.1;
    ThirdByte(two, r.2);
    LastByte(two * 0x100 + r.2, r.3);
  }

  /** The host bits: ^hostMask with hostMask = ^(1<<hostBits - 1), in uint32. */
  function HostOnes(hostBits: nat): nat {
    var hostMask := Not(Wrap32(Wrap32(Pow2(hostBits)) - 1));
    Wrap32(Not(hostMask))
  }

  /** base | ^hostMask, from and back to four bytes. */
  function LastOf(base: nat, ones: nat): nat
    requires base < WORD
  {
    From4(As4(Wrap32(Or(Packed(As4(base)), ones))))
  }

  lemma MaskArithmetic(x: nat)
    requires 1 <= x <= WORD
    ensures Wrap32(Not(Not(Wrap32(Wrap32(x) - 1)))) == x - 1
  {
    if x == WORD {
      assert Wrap32(x) == 0;
    }
  }

  lemma HostOnesExact(h: nat)
    requires Pow2(h) <= WORD
    ensures HostOnes(h) == Pow2(h) - 1
  {
    MaskArithmetic(Pow2(h));
  }

  lemma PackedAs4(a: nat)
    requires a < WORD
    ensures Packed(As4(a)) == a
  {
    From4As4(a);
    PackedIsFrom4(As4(a));
  }

  lemma WrapSmall(a: nat)
    requires a < WORD
    ensures Wrap32(a) == a
  {
  }

  lemma BytesBack(a: nat)
    requires a < WORD
    ensures From4(As4(Wrap32(a))) == a
  {
    WrapSmall(a);
    From4As4(a);
  }

  lemma LastOfBlock(base: nat, ones: nat)
    requires base + ones < WORD && Or(base, ones) == base + ones
    ensures LastOf(base, ones) == base + ones
  {
    PackedAs4(base);
    var last := Or(Packed(As4(base)), ones);
    assert last == base + ones;
    BytesBack(last);
  }

  lemma SizeIsWord(p: Prefix)
    ensures Size(p) <= WORD
  {
    Pow2Bytes();
    Pow2Monotone(HostBits(p), 32);
  }

  lemma BroadcastOfBlock(base: nat, ones: nat, q: nat, h: nat)
    requires base == q * Pow2(h) && ones == HostOnes(h) && Pow2(h) <= WORD && base + Pow2(h) <= WORD
    ensures LastOf(base, ones) == base + Pow2(h) - 1
  {
    HostOnesExact(h);
    OrFillsLowBits(q, h, Pow2(h) - 1);
    LastOfBlock(base, ones);
  }

  /** broadcastOf: the directed broadcast address of section 3.2.1.3 of RFC 1122. */
  function BroadcastOf(p: Prefix): (r: nat)
    ensures r == Base(p) + Size(p) - 1
  {
    NetBounds(p);
    SizeIsWord(p);
    BroadcastOfBlock(Base(p), HostOnes(HostBits(p)), Net(p), HostBits(p));
    LastOf(Base(p), HostOnes(HostBits(p)))
  }

  /** It is the greatest address of the prefix. */
  lemma BroadcastIsLast(p: Prefix, a: nat)
    ensures Contains(p, BroadcastOf(p))
    ensures Contains(p, a) ==> a <= BroadcastOf(p)
  {
    ContainsExactly(p, BroadcastOf(p));
    ContainsExactly(p, a);
  }
}
