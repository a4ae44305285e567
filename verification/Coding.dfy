/** Numbers and strings as bytes (util/coding.cc, util/coding.h). */
module Coding {
  import opened Views

  type Octet = b: int | 0 <= b < 256

  function Pow2(n: nat): (r: nat)
    ensures r > 0
  {
    if n == 0 then 1 else 2 * Pow2(n - 1)
  }

  lemma {:induction false} Pow2Add(m: nat, n: nat)
    ensures Pow2(m + n) == Pow2(m) * Pow2(n)
  {
    if m > 0 {
      Pow2Add(m - 1, n);
    }
  }

  // ---------------------------------------------------------------------------------------------------------
  // Fixed width, least significant byte first
  // ---------------------------------------------------------------------------------------------------------

  function Fixed(n: nat, width: nat): (r: seq<Octet>)
    ensures |r| == width
  {
    if width == 0 then [] else [n % 256] + Fixed(n / 256, width - 1)
  }

  function Number(bytes: seq<Octet>): nat {
    if bytes == [] then 0 else bytes[0] + 256 * Number(bytes[1..])
  }

  /** The least significant byte comes first: byte `i` has the weight of 256 to the power of `i`. */
  lemma {:induction false} FixedDigits(n: nat, width: nat, i: nat)
    requires i < width
    ensures Fixed(n, width)[i] == (n / Pow2(8 * i)) % 256
  {
    if i == 0 {
      assert n / 1 == n;
    } else {
      FixedDigits(n / 256, width - 1, i - 1);
      Pow2Add(8, 8 * (i - 1));
      assert Pow2(8) == 256;
      DivideByProduct(n, 256, Pow2(8 * (i - 1)));
    }
  }

  /** Reading back what was written gives the number modulo its width. */
  lemma {:induction false} FixedRoundTrip(n: nat, width: nat)
    ensures Number(Fixed(n, width)) == n % Pow2(8 * width)
  {
    if width > 0 {
      FixedRoundTrip(n / 256, width - 1);
      var p := Pow2(8 * (width - 1));
      Pow2Add(8, 8 * (width - 1));
      assert Pow2(8) == 256;
      assert Fixed(n, width)[1..] == Fixed(n / 256, width - 1);
      SplitModulo(n, p);
    }
  }

  lemma SplitModulo(n: nat, p: nat)
    requires p > 0
    ensures n % 256 + 256 * ((n / 256) % p) == n % (256 * p)
  {
    var q := n / 256 / p;
    var r := n % 256 + 256 * ((n / 256) % p);
    assert n == 256 * (n / 256) + n % 256;
    assert n / 256 == p * q + (n / 256) % p;
    assert n == (256 * p) * q + r by {
      assert 256 * (p * q) == (256 * p) * q;
    }
    assert 0 <= r < 256 * p;
    Remainder(n, 256 * p, q, r);
  }

  lemma Remainder(n: nat, d: nat, q: nat, r: nat)
    requires d > 0 && n == d * q + r && r < d
    ensures n % d == r
  {
    var k := n / d;
    if q < k {
      Steps(d, q, k);
    } else if k < q {
      Steps(d, k, q);
    }
  }

  lemma Steps(d: nat, a: nat, b: nat)
    requires a < b
    ensures d * a + d <= d * b
  {
    var c := b - a - 1;
    assert d * b == d * a + d + d * c;
  }

  // ---------------------------------------------------------------------------------------------------------
  // Variable width
  // ---------------------------------------------------------------------------------------------------------

  /** Seven bits at a time, the high bit telling that more follow. */
  function Varint(n: nat): (r: seq<Octet>)
    ensures r != []
  {
    if n < 128 then [n] else [n % 128 + 128] + Varint(n / 128)
  }

  /** Byte `i` holds the seven bits of weight 128 to the power of `i`, with the high bit exactly if more bytes follow.
      */
  lemma {:induction false} VarintDigits(n: nat, i: nat)
    requires i < |Varint(n)|
    ensures Varint(n)[i] % 128 == (n / Pow2(7 * i)) % 128 && (Varint(n)[i] >= 128 <==> i + 1 < |Varint(n)|)
  {
    if i == 0 {
      assert n / 1 == n;
    } else {
      VarintDigits(n / 128, i - 1);
      Pow2Add(7, 7 * (i - 1));
      assert Pow2(7) == 128;
      DivideByProduct(n, 128, Pow2(7 * (i - 1)));
    }
  }

  lemma DivideByProduct(n: nat, a: nat, b: nat)
    requires a > 0 && b > 0
    ensures a * b > 0 && n / a / b == n / (a * b)
  {
    var m, s := n / a, n % a;
    DividedByBoth(n, a, b, m, s, m / b, m % b);
  }

  lemma DividedByBoth(n: nat, a: nat, b: nat, m: nat, s: nat, q: nat, r: nat)
    requires a > 0 && b > 0 && n == a * m + s && s < a && m == b * q + r && r < b
    ensures a * b > 0 && n / (a * b) == q
  {
    Regroup(a, b, q, r, s);
    QuotientIs(n, a * b, q, a * r + s);
  }

  lemma Regroup(a: nat, b: nat, q: nat, r: nat, s: nat)
    requires a > 0 && b > 0 && r < b && s < a
    ensures a * (b * q + r) + s == (a * b) * q + (a * r + s) && a * b > 0 && a * r + s < a * b
  {
    assert a * (b * q) == (a * b) * q;
    assert a * (r + 1) <= a * b;
  }

  lemma QuotientIs(n: nat, d: nat, q: nat, r: nat)
    requires d > 0 && n == d * q + r && r < d
    ensures n / d == q && n % d == r
  {
    var k := n / d;
    assert n == d * k + n % d;
    if k < q {
      Apart(d, k, q);
    } else if q < k {
      Apart(d, q, k);
    }
  }

  lemma {:induction false} Apart(d: nat, k: nat, q: nat)
    requires k < q
    ensures d * k + d <= d * q
  {
    assert d * q == d * (q - 1) + d;
    if k + 1 < q {
      Apart(d, k, q - 1);
    }
  }

  /** A varint of at most `width` bytes at the front of `bytes`: its value and what follows it. */
  function ReadVarint(bytes: seq<Octet>, width: nat): Option<(nat, seq<Octet>)> {
    if width == 0 || bytes == [] then None
    else if bytes[0] < 128 then Some((bytes[0] as nat, bytes[1..]))
    else
      match ReadVarint(bytes[1..], width - 1)
      case None => None
      case Some(p) => Some((bytes[0] - 128 + 128 * p.0, p.1))
  }

  lemma {:induction false} VarintRoundTrip(n: nat, width: nat, rest: seq<Octet>)
    requires 0 < width && n < Pow2(7 * width)
    ensures ReadVarint(Varint(n) + rest, width) == Some((n, rest))
  {
    var bytes := Varint(n) + rest;
    if n < 128 {
      assert bytes[1..] == rest;
    } else {
      Pow2Add(7, 7 * (width - 1));
      assert Pow2(7) == 128;
      VarintRoundTrip(n / 128, width - 1, rest);
      assert bytes[1..] == Varint(n / 128) + rest;
    }
  }

  lemma Pow2Of32()
    ensures Pow2(16) == 0x1_0000 && Pow2(32) == 0x1_0000_0000
  {
    assert Pow2(8) == 256;
    Pow2Add(8, 8);
    Pow2Add(16, 16);
  }

  lemma Pow2Of64()
    ensures Pow2(64) == 0x1_0000_0000_0000_0000
  {
    hide Pow2;
    Pow2Of32();
    Pow2Add(32, 32);
  }

  /** Five bytes hold 32 bits, and ten hold 64. */
  lemma Widths()
    ensures Pow2(32) == 0x1_0000_0000 && Pow2(64) == 0x1_0000_0000_0000_0000
    ensures Pow2(32) <= Pow2(7 * 5) && Pow2(64) <= Pow2(7 * 10)
  {
    hide Pow2;
    Pow2Of32();
    Pow2Of64();
    Pow2Add(32, 3);
    Pow2Add(64, 6);
  }

  lemma DivideTwice(v: nat)
    ensures v / 0x80 / 128 == v / 0x4000 && v / 0x4000 / 128 == v / 0x20_0000 && v / 0x20_0000 / 128 == v / 0x1000_0000
  {
  }

  method EncodeVarint32(v: nat) returns (r: seq<Octet>)
    requires v < 0x1_0000_0000
    ensures r == Varint(v)
  {
    DivideTwice(v);
    ghost var v1, v2, v3 := v / 0x80, v / 0x4000, v / 0x20_0000;
    if v < 0x80 {
      r := [v];
    } else if v < 0x4000 {
      r := [v % 128 + 128, v / 0x80];
    } else if v < 0x20_0000 {
      r := [v % 128 + 128, v / 0x80 % 128 + 128, v / 0x4000];
      assert Varint(v1) == [v1 % 128 + 128] + Varint(v2);
    } else if v < 0x1000_0000 {
      r := [v % 128 + 128, v / 0x80 % 128 + 128, v / 0x4000 % 128 + 128, v / 0x20_0000];
      assert Varint(v2) == [v2 % 128 + 128] + Varint(v3);
      assert Varint(v1) == [v1 % 128 + 128] + Varint(v2);
    } else {
      r := [v % 128 + 128, v / 0x80 % 128 + 128, v / 0x4000 % 128 + 128, v / 0x20_0000 % 128 + 128, v / 0x1000_0000];
      assert Varint(v3) == [v3 % 128 + 128] + Varint(v / 0x1000_0000);
      assert Varint(v2) == [v2 % 128 + 128] + Varint(v3);
      assert Varint(v1) == [v1 % 128 + 128] + Varint(v2);
    }
  }

  method EncodeVarint64(value: nat) returns (r: seq<Octet>)
    ensures r == Varint(value)
  {
    var v := value;
    r := [];
    while v >= 128
      invariant Varint(value) == r + Varint(v)
    {
      r := r + [v % 128 + 128];
      v := v / 128;
    }
    r := r + [v];
  }

  /** Moved up to the weight `scale`. */
  function Scaled(n: nat, scale: nat): nat {
    n * scale
  }

  /** GetVarint32Ptr and GetVarint64Ptr: the loop over shifts, on registers of `bits` bits. */
  method GetVarint(input: seq<Octet>, width: nat, bits: nat) returns (ok: bool, value: nat, rest: seq<Octet>)
    ensures ok == ReadVarint(input, width).Some?
    ensures ok ==> value == ReadVarint(input, width).value.0 % Pow2(bits) && rest == ReadVarint(input, width).value.1
  {
    hide Pow2, Scaled;
    var result, i := 0, 0;
    rest := input;
    if ReadVarint(input, width).Some? {
      AtWeightOne(ReadVarint(input, width).value.0);
    }
    while i < width && rest != []
      invariant 0 <= i <= width
      invariant ReadVarint(input, width).Some? == ReadVarint(rest, width - i).Some?
      invariant ReadVarint(rest, width - i).Some? ==>
        var p := ReadVarint(rest, width - i).value;
        ReadVarint(input, width).value == (result + Scaled(p.0, Pow2(7 * i)), p.1)
      decreases width - i
    {
      var byte := rest[0];
      if byte < 128 {
        return true, (result + Scaled(byte, Pow2(7 * i))) % Pow2(bits), rest[1..];
      }
      if ReadVarint(rest, width - i).Some? {
        SevenMore(byte - 128, ReadVarint(rest[1..], width - i - 1).value.0, i);
      }
      result := result + Scaled(byte - 128, Pow2(7 * i));
      rest := rest[1..];
      i := i + 1;
    }
    return false, 0, input;
  }

  lemma AtWeightOne(n: nat)
    ensures Scaled(n, Pow2(7 * 0)) == n
  {
  }

  /** Seven bits and the rest of the number, at the weight of the seven bits. */
  lemma SevenMore(a: nat, b: nat, i: nat)
    ensures Scaled(a + 128 * b, Pow2(7 * i)) == Scaled(a, Pow2(7 * i)) + Scaled(b, Pow2(7 * (i + 1)))
  {
    Pow2Add(7, 7 * i);
    assert Pow2(7) == 128;
    hide Pow2;
    Distribute(Pow2(7 * i), a, b);
  }

  lemma Distribute(scale: nat, a: nat, b: nat)
    ensures (a + 128 * b) * scale == a * scale + b * (128 * scale)
  {
  }

  // ---------------------------------------------------------------------------------------------------------
  // 32-bit and 64-bit varints, and strings after their length
  // ---------------------------------------------------------------------------------------------------------

  const LIMIT32: nat := 0x1_0000_0000
  const LIMIT64: nat := 0x1_0000_0000_0000_0000

  /** Numbers that fit their field are read back. */
  lemma FixedRoundTrips(n: nat)
    ensures n < LIMIT32 ==> Number(Fixed(n, 4)) == n
    ensures n < LIMIT64 ==> Number(Fixed(n, 8)) == n
  {
    hide Pow2, Fixed, Number;
    FixedRoundTrip(n, 4);
    FixedRoundTrip(n, 8);
    Pow2Of32();
    Pow2Of64();
    if n < LIMIT32 {
      SmallModulo(n, Pow2(32));
    }
    if n < LIMIT64 {
      SmallModulo(n, Pow2(64));
    }
  }

  lemma SmallModulo(n: nat, p: nat)
    requires n < p
    ensures n % p == n
  {
  }

  function ReadVarint32(bytes: seq<Octet>): Option<(nat, seq<Octet>)> {
    match ReadVarint(bytes, 5)
    case None => None
    case Some(p) => Some((p.0 % LIMIT32, p.1))
  }

  function ReadVarint64(bytes: seq<Octet>): Option<(nat, seq<Octet>)> {
    match ReadVarint(bytes, 10)
    case None => None
    case Some(p) => Some((p.0 % LIMIT64, p.1))
  }

  lemma Varint32RoundTrip(n: nat, rest: seq<Octet>)
    requires n < LIMIT32
    ensures ReadVarint32(Varint(n) + rest) == Some((n, rest))
  {
    hide Pow2, ReadVarint;
    Widths();
    VarintRoundTrip(n, 5, rest);
  }

  lemma Varint64RoundTrip(n: nat, rest: seq<Octet>)
    requires n < LIMIT64
    ensures ReadVarint64(Varint(n) + rest) == Some((n, rest))
  {
    hide Pow2, ReadVarint;
    Widths();
    VarintRoundTrip(n, 10, rest);
  }

  lemma {:induction false} ReadShrinks(bytes: seq<Octet>, width: nat)
    ensures ReadVarint(bytes, width).Some? ==> |ReadVarint(bytes, width).value.1| < |bytes|
  {
    if width > 0 && bytes != [] && bytes[0] >= 128 {
      ReadShrinks(bytes[1..], width - 1);
    }
  }

  method GetVarint32(input: seq<Octet>) returns (r: Option<(nat, seq<Octet>)>)
    ensures r == ReadVarint32(input)
  {
    var ok, value, rest := GetVarint(input, 5, 32);
    Pow2Of32();
    r := if ok then Some((value, rest)) else None;
  }

  method GetVarint64(input: seq<Octet>) returns (r: Option<(nat, seq<Octet>)>)
    ensures r == ReadVarint64(input)
  {
    var ok, value, rest := GetVarint(input, 10, 64);
    Pow2Of64();
    r := if ok then Some((value, rest)) else None;
  }

  function Prefixed(s: seq<Octet>): seq<Octet> {
    Varint(|s| % LIMIT32) + s
  }

  function ReadPrefixed(bytes: seq<Octet>): Option<(seq<Octet>, seq<Octet>)> {
    match ReadVarint32(bytes)
    case None => None
    case Some(p) => if |p.1| < p.0 then None else Some((p.1[..p.0], p.1[p.0..]))
  }

  lemma PrefixedRoundTrip(s: seq<Octet>, rest: seq<Octet>)
    requires |s| < LIMIT32
    ensures ReadPrefixed(Prefixed(s) + rest) == Some((s, rest))
  {
    hide ReadVarint32;
    Varint32RoundTrip(|s|, s + rest);
    assert Prefixed(s) + rest == Varint(|s|) + (s + rest);
    assert (s + rest)[..|s|] == s && (s + rest)[|s|..] == rest;
  }

  lemma PrefixedShrinks(bytes: seq<Octet>)
    ensures ReadVarint32(bytes).Some? ==> |ReadVarint32(bytes).value.1| < |bytes|
    ensures ReadVarint64(bytes).Some? ==> |ReadVarint64(bytes).value.1| < |bytes|
    ensures ReadPrefixed(bytes).Some? ==> |ReadPrefixed(bytes).value.1| < |bytes|
  {
    ReadShrinks(bytes, 5);
    ReadShrinks(bytes, 10);
  }

  method GetLengthPrefixedSlice(input: seq<Octet>) returns (r: Option<(seq<Octet>, seq<Octet>)>)
    ensures r == ReadPrefixed(input)
  {
    var p := GetVarint32(input);
    if p.Some? && |p.value.1| >= p.value.0 {
      return Some((p.value.1[..p.value.0], p.value.1[p.value.0..]));
    }
    return None;
  }
}
