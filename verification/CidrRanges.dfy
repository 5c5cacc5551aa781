/** Address ranges of CIDR blocks, at 32 and 128 bits alike (section 3.1 of RFC 4632, section 2.3 of
    RFC 4291). */
module CidrRanges {
  import opened Bits

  datatype IpAddr = V4(bits: nat) | V6(bits: nat)

  function Width(a: IpAddr): nat { if a.V4? then 32 else 128 }

  predicate Valid(a: IpAddr) { a.bits < Pow2(Width(a)) }

  predicate SameFamily(a: IpAddr, b: IpAddr) { a.V4? <==> b.V4? }

  function WithBits(a: IpAddr, bits: nat): IpAddr { if a.V4? then V4(bits) else V6(bits) }

  datatype CidrRange = CidrRange(start: IpAddr, end: IpAddr) {

    /** An address of another family is never contained. */
    predicate Contains(ip: IpAddr) {
      match (start, end, ip)
      case (V4(s), V4(e), V4(x)) => x >= s && x <= e
      case (V6(s), V6(e), V6(x)) => x >= s && x <= e
      case _ => false
    }
  }

  /** `u32::MAX << (32 - prefix)`, with the shift by the whole width taken apart. */
  function Mask(prefix: nat, w: nat): (r: nat)
    requires prefix <= w
    ensures r < Pow2(w)
  {
    if prefix == 0 then 0 else Shl(Max(w), w - prefix, w)
  }

  function NetworkBits(x: nat, prefix: nat, w: nat): nat
    requires prefix <= w
  {
    And(x, Mask(prefix, w))
  }

  function LastBits(x: nat, prefix: nat, w: nat): nat
    requires prefix <= w
  {
    Or(NetworkBits(x, prefix, w), Not(Mask(prefix, w), w))
  }

  function RangeOf(a: IpAddr, prefix: nat): CidrRange
    requires prefix <= Width(a)
  {
    CidrRange(WithBits(a, NetworkBits(a.bits, prefix, Width(a))), WithBits(a, LastBits(a.bits, prefix, Width(a))))
  }

  // ----- Arithmetic -----

  lemma MaskValue(prefix: nat, w: nat)
    requires prefix <= w
    ensures Mask(prefix, w) == TopMask(w - prefix, w)
  {
    if prefix > 0 { ShlMax(w - prefix, w); } else { assert TopMask(w, w) == 0; }
  }

  /** The mask arithmetic in numbers: the range starts at the multiple of its size at or below the
      address and ends before the next. */
  lemma RangeValue(x: nat, prefix: nat, w: nat)
    requires prefix <= w && x < Pow2(w)
    ensures var size := Pow2(w - prefix);
      && NetworkBits(x, prefix, w) == x - x % size
      && LastBits(x, prefix, w) == x - x % size + size - 1
      && (x - x % size) % size == 0
  {
    var k := w - prefix;
    var size := Pow2(k);
    MaskValue(prefix, w);
    AndMask(x, k, w);
    Rounded(x, size);
    LowOnes(k, w);
    OrLow(x - x % size, k);
  }

  lemma LowOnes(k: nat, w: nat)
    requires k <= w
    ensures Not(TopMask(k, w), w) == Max(k)
  {
    if k < w { Pow2Grows(k, w); }
  }

  lemma Rounded(x: nat, m: nat)
    requires m > 0
    ensures (x - x % m) % m == 0 && (x - x % m) / m == x / m && x - x % m == (x / m) * m
  {
    ModUnique(x - x % m, m, x / m, 0);
  }

  /** A value lies in the block of `x` exactly when it has the same quotient. */
  lemma InBlock(x: nat, y: nat, m: nat)
    requires m > 0
    ensures x - x % m <= y <= x - x % m + m - 1 <==> y / m == x / m
  {
    Rounded(x, m);
    Rounded(y, m);
    if x - x % m <= y <= x - x % m + m - 1 {
      ModUnique(y, m, x / m, y - (x - x % m));
    }
  }

  /** `contains` holds exactly for the addresses of the family whose top `prefix` bits agree. */
  lemma ContainsExactly(a: IpAddr, prefix: nat, ip: IpAddr)
    requires Valid(a) && Valid(ip) && prefix <= Width(a)
    ensures RangeOf(a, prefix).Contains(ip) <==>
      SameFamily(a, ip) && forall i :: Width(a) - prefix <= i < Width(a) ==> Bit(a.bits, i) == Bit(ip.bits, i)
  {
    ContainsByQuotient(a, prefix, ip);
    hide Pow2, RangeOf, Bit;
    if SameFamily(a, ip) { TopBitsAgree(a.bits, ip.bits, Width(a) - prefix, Width(a)); }
  }

  lemma ContainsByQuotient(a: IpAddr, prefix: nat, ip: IpAddr)
    requires Valid(a) && Valid(ip) && prefix <= Width(a)
    ensures RangeOf(a, prefix).Contains(ip) <==>
      SameFamily(a, ip) && ip.bits / Pow2(Width(a) - prefix) == a.bits / Pow2(Width(a) - prefix)
  {
    RangeValue(a.bits, prefix, Width(a));
    InBlock(a.bits, ip.bits, Pow2(Width(a) - prefix));
  }

  /** The range has `2^(width - prefix)` addresses, all of them valid, and the given one is among them. */
  lemma RangeSize(a: IpAddr, prefix: nat)
    requires Valid(a) && prefix <= Width(a)
    ensures var r := RangeOf(a, prefix);
      && r.Contains(a)
      && Valid(r.start) && Valid(r.end) && SameFamily(r.start, a) && SameFamily(r.end, a)
      && r.end.bits - r.start.bits + 1 == Pow2(Width(a) - prefix)
  {
    hide Pow2, NetworkBits, LastBits;
    var w, k := Width(a), Width(a) - prefix;
    RangeValue(a.bits, prefix, w);
    ContainsByQuotient(a, prefix, a);
    Pow2Adds(k, prefix);
    BlockFits(a.bits, Pow2(k), Pow2(prefix));
    Rounded(a.bits, Pow2(k));
  }

  lemma BlockFits(x: nat, m: nat, n: nat)
    requires m > 0 && x < m * n
    ensures x - x % m + m - 1 < m * n
  {
    Rounded(x, m);
    var q := x / m;
    if q >= n { MulMonotone(n, q, m); }
    MulMonotone(q + 1, n, m);
    assert (q + 1) * m == q * m + m;
  }

  lemma MulMonotone(a: nat, b: nat, m: nat)
    ensures a <= b ==> a * m <= b * m
  {
  }

  /** Two blocks of one family that share an address are nested: the longer prefix lies in the shorter. */
  lemma NestedOrDisjoint(a: IpAddr, p: nat, b: IpAddr, q: nat, shared: IpAddr, ip: IpAddr)
    requires Valid(a) && Valid(b) && Valid(shared) && Valid(ip) && p <= q <= Width(a) && q <= Width(b)
    requires RangeOf(a, p).Contains(shared) && RangeOf(b, q).Contains(shared)
    ensures RangeOf(b, q).Contains(ip) ==> RangeOf(a, p).Contains(ip)
  {
    ContainsExactly(a, p, shared);
    ContainsExactly(a, p, ip);
    ContainsExactly(b, q, shared);
    ContainsExactly(b, q, ip);
    if RangeOf(b, q).Contains(ip) {
      forall i | Width(a) - p <= i < Width(a) ensures Bit(a.bits, i) == Bit(ip.bits, i) {
        assert Bit(a.bits, i) == Bit(shared.bits, i);
        assert Bit(b.bits, i) == Bit(shared.bits, i);
        assert Bit(b.bits, i) == Bit(ip.bits, i);
      }
    }
  }

  /** A block determines its family, network and prefix; its network address denotes the same block. */
  lemma RangeDetermines(a: IpAddr, p: nat, b: IpAddr, q: nat)
    requires Valid(a) && Valid(b) && p <= Width(a) && q <= Width(b)
    ensures RangeOf(a, p) == RangeOf(b, q) <==> RangeOf(a, p).start == RangeOf(b, q).start && p == q
  {
    hide Pow2, NetworkBits, LastBits;
    RangeSize(a, p);
    RangeSize(b, q);
    RangeValue(a.bits, p, Width(a));
    RangeValue(b.bits, q, Width(b));
    if RangeOf(a, p) == RangeOf(b, q) {
      Pow2Injective(Width(a) - p, Width(b) - q);
    }
  }

  lemma RangeOfStart(a: IpAddr, p: nat)
    requires Valid(a) && p <= Width(a)
    ensures RangeOf(RangeOf(a, p).start, p) == RangeOf(a, p)
  {
    hide Pow2, NetworkBits, LastBits;
    RangeSize(a, p);
    RangeValue(a.bits, p, Width(a));
    RangeValue(RangeOf(a, p).start.bits, p, Width(a));
  }

  // ----- The two families -----

  function RoundedDown(x: nat, m: nat): (r: nat)
    requires m > 0
    ensures r <= x < r + m && r % m == 0
  {
    Rounded(x, m);
    x - x % m
  }

  lemma Squared(k: nat, v: nat)
    requires Pow2(k) == v
    ensures Pow2(2 * k) == v * v
  {
    Pow2Adds(k, k);
  }

  lemma WordSizes()
    ensures Pow2(32) == 0x1_0000_0000
    ensures Pow2(128) == 0x1_0000_0000_0000_0000_0000_0000_0000_0000
  {
    assert Pow2(1) == 2;
    hide Pow2;
    Squared(1, 2);
    Squared(2, 4);
    Squared(4, 16);
    Squared(8, 0x100);
    Squared(16, 0x1_0000);
    Squared(32, 0x1_0000_0000);
    Squared(64, 0x1_0000_0000_0000_0000);
  }

  /** An IPv4 block starts at the multiple of `2^(32 - p)` at or below the address. */
  lemma BlockV4(x: nat, p: nat, ip: IpAddr)
    requires x < 0x1_0000_0000 && p <= 32
    ensures var size := Pow2(32 - p);
      var first := RoundedDown(x, size);
      && RangeOf(V4(x), p) == CidrRange(V4(first), V4(first + size - 1))
      && first + size - 1 <= 0xFFFF_FFFF
      && (RangeOf(V4(x), p).Contains(ip) <==> ip.V4? && first <= ip.bits <= first + size - 1)
  {
    WordSizes();
    hide Pow2, NetworkBits, LastBits;
    RangeValue(x, p, 32);
    RangeSize(V4(x), p);
  }

  /** An IPv6 block starts at the multiple of `2^(128 - p)` at or below the address. */
  lemma BlockV6(x: nat, p: nat, ip: IpAddr)
    requires x < 0x1_0000_0000_0000_0000_0000_0000_0000_0000 && p <= 128
    ensures var size := Pow2(128 - p);
      var first := RoundedDown(x, size);
      && RangeOf(V6(x), p) == CidrRange(V6(first), V6(first + size - 1))
      && first + size - 1 <= 0xFFFF_FFFF_FFFF_FFFF_FFFF_FFFF_FFFF_FFFF
      && (RangeOf(V6(x), p).Contains(ip) <==> ip.V6? && first <= ip.bits <= first + size - 1)
  {
    WordSizes();
    hide Pow2, NetworkBits, LastBits;
    RangeValue(x, p, 128);
    RangeSize(V6(x), p);
  }
}
