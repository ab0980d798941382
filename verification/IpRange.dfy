/** Address prefixes as 128-bit ranges: ipRange of internal/query/query.go.  An IPv4 prefix stands
    for the addresses mapped into IPv6 (section 2.5.5.2 of RFC 4291); addresses compare byte by byte. */
module IpRange {

  type Address = seq<bv8>

  datatype Prefix =
    | V4(addr: Address, bits: nat)
    | V6(addr: Address, bits: nat)

  predicate PrefixOk(p: Prefix) {
    match p
    case V4(a, n) => |a| == 4 && n <= 32
    case V6(a, n) => |a| == 16 && n <= 128
  }

  const MAPPED: Address := [0, 0, 0, 0, 0, 0, 0, 0, 0, 0, 0xFF, 0xFF]

  /** The n leading bits of a byte. */
  function Head(n: int): bv8 {
    if n <= 0 then 0x00
    else if n == 1 then 0x80
    else if n == 2 then 0xC0
    else if n == 3 then 0xE0
    else if n == 4 then 0xF0
    else if n == 5 then 0xF8
    else if n == 6 then 0xFC
    else if n == 7 then 0xFE
    else 0xFF
  }

  function MaskByte(b: bv8, n: int): bv8 { b & Head(n) }

  function FillByte(b: bv8, n: int): bv8 { b | !Head(n) }

  /** Bit k of a byte, counted from the left. */
  function Mask(k: nat): bv8
    requires k < 8
  {
    if k == 0 then 0x80
    else if k == 1 then 0x40
    else if k == 2 then 0x20
    else if k == 3 then 0x10
    else if k == 4 then 0x08
    else if k == 5 then 0x04
    else if k == 6 then 0x02
    else 0x01
  }

  predicate ByteBit(b: bv8, k: nat)
    requires k < 8
  {
    b & Mask(k) != 0
  }

  function WithBit(b: bv8, k: nat): bv8
    requires k < 8
  {
    b | Mask(k)
  }

  predicate Bit(a: Address, i: nat)
    requires i < 8 * |a|
  {
    ByteBit(a[i / 8], i % 8)
  }

  /** Masked: all bits behind the first n are cleared. */
  function Masked(a: Address, n: int): (m: Address)
    ensures |m| == |a|
  {
    if a == [] then [] else [MaskByte(a[0], n)] + Masked(a[1..], n - 8)
  }

  /** All bits behind the first n are set. */
  function Filled(a: Address, n: int): (m: Address)
    ensures |m| == |a|
  {
    if a == [] then [] else [FillByte(a[0], n)] + Filled(a[1..], n - 8)
  }

  /** The prefix in 128 bits. */
  function Wide(p: Prefix): (a: Address)
    requires PrefixOk(p)
    ensures |a| == 16
  {
    match p
    case V4(a, n) => MAPPED + Masked(a, n)
    case V6(a, n) => Masked(a, n)
  }

  function WideBits(p: Prefix): nat {
    match p
    case V4(_, n) => n + 96
    case V6(_, n) => n
  }

  function Low(p: Prefix): (a: Address)
    requires PrefixOk(p)
    ensures |a| == 16
  {
    Wide(p)
  }

  function High(p: Prefix): (a: Address)
    requires PrefixOk(p)
    ensures |a| == 16
  {
    Filled(Wide(p), WideBits(p))
  }

  predicate ByteAtMost(a: bv8, b: bv8) { a <= b }

  /** Comparison byte by byte. */
  predicate AtMost(a: Address, b: Address)
    requires |a| == |b|
  {
    a == [] || (ByteAtMost(a[0], b[0]) && (a[0] == b[0] ==> AtMost(a[1..], b[1..])))
  }

  lemma MaskSplits(b: bv8, k: nat, j: nat)
    requires k < 8 && j < 8
    ensures ByteBit(WithBit(b, k), j) <==> j == k || ByteBit(b, j)
  {
  }

  lemma HeadBits(b: bv8, n: int, j: nat)
    requires j < 8
    ensures ByteBit(FillByte(b, n), j) <==> j >= n || ByteBit(b, j)
    ensures ByteBit(MaskByte(b, n), j) <==> j < n && ByteBit(b, j)
  {
  }

  lemma SameByte(a: bv8, b: bv8)
    requires forall j :: 0 <= j < 8 ==> (ByteBit(a, j) <==> ByteBit(b, j))
    ensures a == b
  {
    assert (ByteBit(a, 0) <==> ByteBit(b, 0)) && (ByteBit(a, 1) <==> ByteBit(b, 1));
    assert (ByteBit(a, 2) <==> ByteBit(b, 2)) && (ByteBit(a, 3) <==> ByteBit(b, 3));
    assert (ByteBit(a, 4) <==> ByteBit(b, 4)) && (ByteBit(a, 5) <==> ByteBit(b, 5));
    assert (ByteBit(a, 6) <==> ByteBit(b, 6)) && (ByteBit(a, 7) <==> ByteBit(b, 7));
  }

  lemma SetBit(before: Address, i: nat)
    requires i < 8 * |before|
    ensures var after := before[i / 8 := WithBit(before[i / 8], i % 8)];
            forall j :: 0 <= j < 8 * |before| ==> (Bit(after, j) <==> j == i || Bit(before, j))
  {
    hide ByteBit, WithBit;
    var after := before[i / 8 := WithBit(before[i / 8], i % 8)];
    forall j | 0 <= j < 8 * |before| ensures Bit(after, j) <==> j == i || Bit(before, j) {
      if j / 8 == i / 8 {
        MaskSplits(before[i / 8], i % 8, j % 8);
      }
    }
  }

  /** ipRange: sets bit by bit what lies behind the prefix. */
  method Range(p: Prefix) returns (lo: Address, hi: Address)
    requires PrefixOk(p)
    ensures lo == Low(p) && hi == High(p)
  {
    hide ByteBit, WithBit, Bit, Masked, Filled;
    var first, bits := Wide(p), WideBits(p);
    var last := new bv8[16](i requires 0 <= i < 16 => first[i]);
    assert last[..] == first;
    var i := bits;
    while i < 128
      invariant bits <= i <= 128
      invariant forall j :: 0 <= j < 128 ==> (Bit(last[..], j) <==> bits <= j < i || Bit(first, j))
    {
      SetBit(last[..], i);
      ghost var after := last[..][i / 8 := WithBit(last[i / 8], i % 8)];
      last[i / 8] := WithBit(last[i / 8], i % 8);
      assert last[..] == after;
      i := i + 1;
    }
    FilledBits(first, bits);
    SameBits(last[..], Filled(first, bits));
    return first, last[..];
  }

  lemma BitBehind(a: Address, i: nat)
    requires 8 <= i < 8 * |a|
    ensures Bit(a, i) <==> Bit(a[1..], i - 8)
  {
    hide ByteBit, WithBit;
    assert (i - 8) / 8 == i / 8 - 1 && (i - 8) % 8 == i % 8;
  }

  lemma {:induction false} FilledBits(a: Address, n: int)
    ensures forall i :: 0 <= i < 8 * |a| ==> (Bit(Filled(a, n), i) <==> i >= n || Bit(a, i))
  {
    hide FillByte, Filled, Bit;
    if a != [] {
      Unfold(a, n);
      FilledBits(a[1..], n - 8);
      forall i | 0 <= i < 8 * |a| ensures Bit(Filled(a, n), i) <==> i >= n || Bit(a, i) {
        if i < 8 {
          FirstBits(a, n, i);
        } else {
          BitBehind(a, i);
          BitBehind(Filled(a, n), i);
        }
      }
    }
  }

  lemma FirstBits(a: Address, n: int, i: nat)
    requires a != [] && i < 8
    ensures Bit(Filled(a, n), i) <==> i >= n || Bit(a, i)
    ensures Bit(Masked(a, n), i) <==> i < n && Bit(a, i)
  {
    hide ByteBit, FillByte, MaskByte;
    HeadBits(a[0], n, i);
  }

  lemma {:induction false} MaskedBits(a: Address, n: int)
    ensures forall i :: 0 <= i < 8 * |a| ==> (Bit(Masked(a, n), i) <==> i < n && Bit(a, i))
  {
    hide MaskByte, Masked, Bit;
    if a != [] {
      Unfold(a, n);
      MaskedBits(a[1..], n - 8);
      forall i | 0 <= i < 8 * |a| ensures Bit(Masked(a, n), i) <==> i < n && Bit(a, i) {
        if i < 8 {
          FirstBits(a, n, i);
        } else {
          BitBehind(a, i);
          BitBehind(Masked(a, n), i);
        }
      }
    }
  }

  lemma SameBits(a: Address, b: Address)
    requires |a| == |b| && forall i :: 0 <= i < 8 * |a| ==> (Bit(a, i) <==> Bit(b, i))
    ensures a == b
  {
    hide ByteBit, WithBit;
    forall j | 0 <= j < |a| ensures a[j] == b[j] {
      forall k | 0 <= k < 8 ensures ByteBit(a[j], k) <==> ByteBit(b[j], k) {
        assert Bit(a, 8 * j + k) <==> Bit(b, 8 * j + k);
        assert (8 * j + k) / 8 == j && (8 * j + k) % 8 == k;
      }
      SameByte(a[j], b[j]);
    }
  }

  // The range is the prefix

  /** The first n bits agree. */
  ghost predicate Agree(a: Address, b: Address, n: int)
    requires |a| == |b|
  {
    forall i :: 0 <= i < n && i < 8 * |a| ==> (Bit(a, i) <==> Bit(b, i))
  }

  lemma {:induction false} AgreeIsMasked(a: Address, b: Address, n: int)
    requires |a| == |b|
    ensures Agree(a, b, n) <==> Masked(a, n) == Masked(b, n)
  {
    hide Bit, Masked;
    MaskedBits(a, n);
    MaskedBits(b, n);
    if Agree(a, b, n) {
      SameBits(Masked(a, n), Masked(b, n));
    }
    if Masked(a, n) == Masked(b, n) {
      forall i | 0 <= i < n && i < 8 * |a| ensures Bit(a, i) <==> Bit(b, i) {
        assert Bit(Masked(a, n), i) <==> Bit(Masked(b, n), i);
      }
    }
  }

  lemma ByteBetween(a: bv8, x: bv8, n: int)
    requires MaskByte(a, n) == a
    ensures ByteAtMost(a, x) && ByteAtMost(x, FillByte(a, n)) <==> MaskByte(x, n) == a
    ensures n >= 8 ==> FillByte(a, n) == a && MaskByte(x, n) == x
    ensures n <= 0 ==> a == 0 && FillByte(a, n) == 0xFF
  {
  }

  lemma Unfold(a: Address, n: int)
    requires a != []
    ensures Masked(a, n)[0] == MaskByte(a[0], n) && Masked(a, n)[1..] == Masked(a[1..], n - 8)
    ensures Filled(a, n)[0] == FillByte(a[0], n) && Filled(a, n)[1..] == Filled(a[1..], n - 8)
  {
    hide MaskByte, FillByte;
  }

  lemma NothingBetween(a: Address, x: Address, n: int)
    requires a == x == []
    ensures AtMost(a, x) && AtMost(x, Filled(a, n)) && Masked(x, n) == a
  {
  }

  lemma CompareParts(a: Address, b: Address)
    requires |a| == |b| > 0
    ensures AtMost(a, b) <==> ByteAtMost(a[0], b[0]) && (a[0] == b[0] ==> AtMost(a[1..], b[1..]))
  {
  }

  /** From the rest of an address to the whole: either the rest is between the ends anyway, or the
      first byte has no choice. */
  lemma Combine(a: Address, x: Address, hi: Address, m: Address, free: bool)
    requires |a| == |x| == |hi| == |m| > 0
    requires AtMost(a[1..], x[1..]) && AtMost(x[1..], hi[1..]) <==> m[1..] == a[1..]
    requires ByteAtMost(a[0], x[0]) && ByteAtMost(x[0], hi[0]) <==> m[0] == a[0]
    requires free ==> AtMost(a[1..], x[1..]) && AtMost(x[1..], hi[1..])
    requires !free ==> a[0] == hi[0] && m[0] == x[0]
    ensures AtMost(a, x) && AtMost(x, hi) <==> m == a
  {
    hide AtMost, ByteAtMost;
    CompareParts(a, x);
    CompareParts(x, hi);
  }

  /** An address lies between a masked address and its filled form exactly if masking it gives the
      masked address. */
  lemma {:induction false} BetweenIsMasked(a: Address, x: Address, n: int)
    requires |a| == |x| && Masked(a, n) == a
    ensures AtMost(a, x) && AtMost(x, Filled(a, n)) <==> Masked(x, n) == a
  {
    hide MaskByte, FillByte, Masked, Filled, AtMost, ByteAtMost;
    if a == [] {
      NothingBetween(a, x, n);
    } else {
      Unfold(a, n);
      Unfold(x, n);
      BetweenIsMasked(a[1..], x[1..], n - 8);
      ByteBetween(a[0], x[0], n);
      if n < 8 {
        Extremes(a[1..], x[1..], n - 8);
      }
      Combine(a, x, Filled(a, n), Masked(x, n), n < 8);
    }
  }

  /** Behind the prefix everything is between the low and the high end, and masks to the low end. */
  lemma {:induction false} Extremes(a: Address, x: Address, n: int)
    requires n <= 0 && |a| == |x| && Masked(a, n) == a
    ensures AtMost(a, x) && AtMost(x, Filled(a, n)) && Masked(x, n) == a
  {
    if a != [] {
      assert Filled(a, n)[1..] == Filled(a[1..], n - 8);
      assert Masked(a, n)[1..] == Masked(a[1..], n - 8) && Masked(x, n)[1..] == Masked(x[1..], n - 8);
      Extremes(a[1..], x[1..], n - 8);
      assert a[0] == Masked(a, n)[0] == 0;
      assert Masked(x, n) == [Masked(x, n)[0]] + Masked(x, n)[1..];
    }
  }

  lemma {:induction false} MaskedTwice(a: Address, n: int)
    ensures Masked(Masked(a, n), n) == Masked(a, n)
  {
    if a != [] {
      MaskedTwice(a[1..], n - 8);
      assert Masked(a, n)[1..] == Masked(a[1..], n - 8);
    }
  }

  lemma LowIsMasked(p: Prefix)
    requires PrefixOk(p)
    ensures Masked(Low(p), WideBits(p)) == Low(p)
  {
    match p
    case V6(a, n) => MaskedTwice(a, n);
    case V4(a, n) =>
      MaskedTwice(a, n);
      MaskedJoin(MAPPED, Masked(a, n), n + 96);
  }

  lemma WholeByte(b: bv8, n: int)
    requires n >= 8
    ensures MaskByte(b, n) == b
  {
  }

  lemma {:induction false} MaskedJoin(a: Address, b: Address, n: int)
    requires n >= 8 * |a|
    ensures Masked(a + b, n) == a + Masked(b, n - 8 * |a|)
  {
    hide MaskByte, Masked;
    if a == [] {
      assert a + b == b;
    } else {
      assert (a + b)[1..] == a[1..] + b;
      MaskedJoin(a[1..], b, n - 8);
      Unfold(a + b, n);
      WholeByte(a[0], n);
      assert Masked(a + b, n) == [a[0]] + (a[1..] + Masked(b, n - 8 * |a|));
    }
  }

  /** x lies in the prefix: as it stands for IPv6, in mapped form for IPv4. */
  ghost predicate InPrefix(x: Address, p: Prefix)
    requires PrefixOk(p) && |x| == 16
  {
    match p
    case V6(a, n) => Agree(a, x, n)
    case V4(a, n) => x[..12] == MAPPED && Agree(a, x[12..], n)
  }

  /** Prefix to range is exact: an address is in the range exactly if it is in the prefix, and the
      range is one address exactly if the prefix is a whole address. */
  lemma RangeExact(p: Prefix, x: Address)
    requires PrefixOk(p) && |x| == 16
    ensures AtMost(Low(p), x) && AtMost(x, High(p)) <==> InPrefix(x, p)
    ensures Low(p) == High(p) <==> WideBits(p) == 128
  {
    hide AtMost, Masked, Filled, Bit;
    LowIsMasked(p);
    var n := WideBits(p);
    BetweenIsMasked(Low(p), x, n);
    match p {
      case V6(a, k) => AgreeIsMasked(a, x, k);
      case V4(a, k) =>
        assert x == x[..12] + x[12..];
        MaskedJoin(x[..12], x[12..], n);
        SameHalves(x[..12], Masked(x[12..], k), MAPPED, Masked(a, k));
        AgreeIsMasked(a, x[12..], k);
    }
    OneAddressIff(p);
  }

  lemma SameHalves(a: Address, b: Address, c: Address, d: Address)
    requires |a| == |c|
    ensures a + b == c + d <==> a == c && b == d
  {
    if a + b == c + d {
      assert a == (a + b)[..|a|] && c == (c + d)[..|c|];
      assert b == (a + b)[|a|..] && d == (c + d)[|c|..];
    }
  }

  lemma OneAddressIff(p: Prefix)
    requires PrefixOk(p)
    ensures Low(p) == High(p) <==> WideBits(p) == 128
  {
    hide Masked, Filled, Bit;
    var n := WideBits(p);
    LowIsMasked(p);
    FilledBits(Low(p), n);
    MaskedBits(Low(p), n);
    if n == 128 {
      SameBits(Low(p), High(p));
    } else {
      assert Bit(High(p), 127) && !Bit(Masked(Low(p), n), 127);
    }
  }

  /** The mapped form of an IPv4 address: ten zero bytes, two full ones, and the address. */
  lemma MappedIs(y: Address, a: Address, n: nat)
    requires |y| == 4 && |a| == 4 && n <= 32
    ensures InPrefix([0, 0, 0, 0, 0, 0, 0, 0, 0, 0, 0xFF, 0xFF] + y, V4(a, n)) <==> Agree(a, y, n)
    ensures forall x: Address :: |x| == 16 && InPrefix(x, V4(a, n)) ==>
              x[..12] == [0, 0, 0, 0, 0, 0, 0, 0, 0, 0, 0xFF, 0xFF]
  {
    hide Agree;
    assert (MAPPED + y)[12..] == y && (MAPPED + y)[..12] == MAPPED;
  }
}
