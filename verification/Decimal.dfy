/** DECIMAL values: the sign-and-complement encoding of merge (merge_manager.cc) and
    its decoder. */
module Decimal {
  import opened Rows
  import opened BigEndian

  const TWO40: nat := 0x100_0000_0000

  /** How many units the fraction has: two decimal digits per byte. */
  function Scale(realSize: nat): (s: nat)
    ensures s > 0
  {
    Pow(100, realSize)
  }

  // ---------------------------------------------------------------- encoding

  /** The encoding of integer part `i` and `f` units of the fraction: byte 0 is the sign
      byte, and a negative value has its first seven bytes complemented. */
  function EncodeParts(negative: bool, i: nat, f: nat, realSize: nat): (r: Row)
    requires realSize >= 1
    ensures |r| == 6 + realSize
  {
    var plain := Plain(i, f, realSize);
    if negative then Complement(plain[..7]) + plain[7..] else plain
  }

  function Plain(i: nat, f: nat, realSize: nat): (r: Row)
    ensures |r| == 6 + realSize
  {
    [0x80] + ToBytes(i, 5) + ToBytes(f, realSize)
  }

  /** modf and round of a nonnegative double, exactly. */
  function IntegerPart(v: real): (i: nat)
    requires v >= 0.0
  {
    v.Floor
  }

  function FractionUnits(v: real, realSize: nat): (u: nat) {
    var rest := v - v.Floor as real;
    var scaled := rest * Scale(realSize) as real;
    NonNegative(rest, Scale(realSize) as real);
    (scaled + 0.5).Floor
  }

  lemma {:induction false} NonNegative(x: real, y: real)
    requires x >= 0.0 && y >= 0.0
    ensures x * y >= 0.0
  {
  }

  function Abs(v: real): (a: real)
    ensures a >= 0.0
  {
    if v < 0.0 then -v else v
  }

  function Encode(v: real, realSize: nat): (r: Row)
    requires realSize >= 1
  {
    EncodeParts(v < 0.0, IntegerPart(Abs(v)), FractionUnits(Abs(v), realSize), realSize)
  }

  /** Byte `j` of a little-endian int64. */
  function ByteOf(n: nat, j: nat): Byte { n / Pow(256, j) % 256 }

  lemma {:induction false} DivDiv(n: nat, p: nat)
    requires p > 0
    ensures n / 256 / p == n / (256 * p)
  {
    var q, r := n / 256 / p, n / 256 % p;
    assert n / 256 == q * p + r;
    assert n == (q * p + r) * 256 + n % 256;
    MulAssoc(q, p);
    ModUnique(n, 256 * p, q, r * 256 + n % 256);
  }

  lemma {:induction false} ToBytesAt(n: nat, k: nat, i: nat)
    requires i < k
    ensures ToBytes(n, k)[i] == ByteOf(n, k - 1 - i)
    decreases k
  {
    if i < k - 1 {
      ToBytesAt(n / 256, k - 1, i);
      DivDiv(n, Pow(256, k - 2 - i));
    }
  }

  /** The scales stack_valueToChar writes a fraction for; any other is only logged. */
  predicate Supported(realSize: nat) { 1 <= realSize <= 3 }

  /** How far into its destination it reaches; a sign flip always touches byte 6. */
  function Touched(realSize: nat): nat { if Supported(realSize) then 6 + realSize else 7 }

  /** The destination with the plain bytes written over what was there. */
  function PlainOver(given: Row, i: nat, f: nat, realSize: nat): (r: Row)
    requires |given| >= Touched(realSize)
    ensures |r| == |given|
  {
    if Supported(realSize) then Plain(i, f, realSize) + given[6 + realSize..]
    else [0x80] + ToBytes(i, 5) + given[6..]
  }

  function EncodeOver(given: Row, v: real, realSize: nat): (r: Row)
    requires |given| >= Touched(realSize)
    ensures |r| == |given|
  {
    var plain := PlainOver(given, IntegerPart(Abs(v)), FractionUnits(Abs(v), realSize), realSize);
    if v < 0.0 then Complement(plain[..7]) + plain[7..] else plain
  }

  /** With a supported scale the bytes are the encoding and nothing behind them changes. With
      any other the fraction bytes are left as they were, byte 6 complemented for negatives. */
  lemma {:induction false} WhatIsWritten(given: Row, v: real, realSize: nat)
    requires |given| >= Touched(realSize)
    ensures var r := EncodeOver(given, v, realSize);
            && r[Touched(realSize)..] == given[Touched(realSize)..]
            && (Supported(realSize) ==> r[..6 + realSize] == Encode(v, realSize))
            && (!Supported(realSize) ==>
                  && r[..6] == Encode(v, 1)[..6]
                  && r[6] == if v < 0.0 then 255 - given[6] else given[6])
  {
    var i, f := IntegerPart(Abs(v)), FractionUnits(Abs(v), realSize);
    var plain, t := PlainOver(given, i, f, realSize), Touched(realSize);
    assert plain[t..] == given[t..];
    if Supported(realSize) {
      assert plain[..t] == Plain(i, f, realSize);
      assert plain[..7] == plain[..t][..7] && plain[7..t] == plain[..t][7..];
    } else {
      SixBytes(v, Complement(plain[..7]), plain);
    }
  }

  lemma {:induction false} SixBytes(v: real, flipped: Row, plain: Row)
    requires |plain| >= 7 && plain[..6] == [0x80] + ToBytes(IntegerPart(Abs(v)), 5) && flipped == Complement(plain[..7])
    ensures Encode(v, 1)[..6] == if v < 0.0 then flipped[..6] else plain[..6]
  {
    var p := Plain(IntegerPart(Abs(v)), FractionUnits(Abs(v), 1), 1);
    assert p[..6] == plain[..6];
    forall k | 0 <= k < 6 ensures Complement(p[..7])[k] == flipped[k] {
      assert p[k] == p[..6][k] == plain[..6][k] == plain[k];
    }
  }

  /** The fraction bytes out of the low bytes b0, b1, b2 of an int64, as many as the scale says. */
  method WriteFraction(dest: array<Byte>, b0: Byte, b1: Byte, b2: Byte, realSize: nat)
    requires dest.Length >= Touched(realSize)
    modifies dest
    ensures dest[..] == old(dest[..6]) + FractionBytes(b0, b1, b2, realSize)
                        + old(dest[6 + |FractionBytes(b0, b1, b2, realSize)|..])
  {
    if realSize == 1 {
      dest[6] := b0;
    } else if realSize == 2 {
      dest[6], dest[7] := b1, b0;
    } else if realSize == 3 {
      dest[6], dest[7], dest[8] := b2, b1, b0;
    }
  }

  function FractionBytes(b0: Byte, b1: Byte, b2: Byte, realSize: nat): (r: Row)
    ensures |r| == if Supported(realSize) then realSize else 0
  {
    if realSize == 1 then [b0] else if realSize == 2 then [b1, b0] else if realSize == 3 then [b2, b1, b0] else []
  }

  lemma {:induction false} FractionIsToBytes(units: nat, realSize: nat)
    requires Supported(realSize)
    ensures FractionBytes(ByteOf(units, 0), ByteOf(units, 1), ByteOf(units, 2), realSize) == ToBytes(units, realSize)
  {
    var r := FractionBytes(ByteOf(units, 0), ByteOf(units, 1), ByteOf(units, 2), realSize);
    forall i | 0 <= i < realSize ensures r[i] == ToBytes(units, realSize)[i] {
      ToBytesAt(units, realSize, i);
    }
  }

  lemma {:induction false} IntegerIsToBytes(integer: nat, r: Row)
    requires |r| == 6 && r[0] == 0x80 && forall k :: 1 <= k < 6 ==> r[k] == ByteOf(integer, 5 - k)
    ensures r == [0x80] + ToBytes(integer, 5)
  {
    forall k | 1 <= k < 6 ensures r[k] == ToBytes(integer, 5)[k - 1] {
      ToBytesAt(integer, 5, k - 1);
    }
  }

  /** The six integer bytes, the first of them overwritten by the sign byte. */
  method WriteInteger(dest: array<Byte>, integer: nat)
    requires dest.Length >= 6
    modifies dest
    ensures dest[..] == [0x80] + ToBytes(integer, 5) + old(dest[6..])
  {
    for i := 0 to 6
      invariant forall k :: 0 <= k < i ==> dest[k] == ByteOf(integer, 5 - k)
      invariant dest[6..] == old(dest[6..])
    {
      dest[i] := ByteOf(integer, 5 - i);
    }
    dest[0] := 0x80;
    IntegerIsToBytes(integer, dest[..6]);
    assert dest[..] == dest[..6] + dest[6..];
  }

  /** The plain bytes as they are copied from the two int64 buffers. */
  method WritePlain(dest: array<Byte>, integer: nat, units: nat, realSize: nat)
    requires dest.Length >= Touched(realSize)
    modifies dest
    ensures dest[..] == PlainOver(old(dest[..]), integer, units, realSize)
  {
    ghost var given := dest[..];
    WriteInteger(dest, integer);
    ghost var head := [0x80] + ToBytes(integer, 5);
    assert dest[..6] == head && dest[6..] == given[6..];
    WriteFraction(dest, ByteOf(units, 0), ByteOf(units, 1), ByteOf(units, 2), realSize);
    if Supported(realSize) {
      FractionIsToBytes(units, realSize);
      assert given[6..][realSize..] == given[6 + realSize..];
    }
  }

  /** The loop both directions use on negative values. */
  method ComplementFirst7(a: array<Byte>)
    requires a.Length >= 7
    modifies a
    ensures a[..] == Complement(old(a[..7])) + old(a[7..])
  {
    for i := 0 to 7
      invariant forall k :: 0 <= k < i ==> a[k] == 255 - old(a[k])
      invariant forall k :: i <= k < a.Length ==> a[k] == old(a[k])
    {
      a[i] := 255 - a[i];
    }
  }

  /** The decimal branch of stack_valueToChar, for every scale: the length it returns grows
      with the scale whether or not a fraction was written. */
  method StackValueToChar(dest: array<Byte>, v: real, realSize: nat) returns (len: nat)
    requires dest.Length >= Touched(realSize)
    modifies dest
    ensures len == 6 + realSize && dest[..] == EncodeOver(old(dest[..]), v, realSize)
    ensures Supported(realSize) ==> dest[..len] == Encode(v, realSize)
  {
    var negative, a := false, v;
    if a < 0.0 {
      negative, a := true, -a;
    }
    ghost var given := dest[..];
    WritePlain(dest, IntegerPart(a), FractionUnits(a, realSize), realSize);
    ghost var plain := dest[..];
    assert dest[..7] == plain[..7] && dest[7..] == plain[7..];
    if negative {
      ComplementFirst7(dest);
    }
    len := 6 + realSize;
    WhatIsWritten(given, v, realSize);
    assert Supported(realSize) ==> dest[..len] == dest[..][..len];
  }

  // ---------------------------------------------------------------- decoding

  /** The value in hundredths that stack_charToValue reads from seven bytes; the
      fraction byte goes through int8_t. */
  function DecodeHundredths(src: Row): int
    requires |src| == 7
  {
    var plain := if src[0] < 128 then Complement(src) else src;
    var last: int := plain[6];
    var fraction := if last < 128 then last else last - 256;
    var magnitude := Value(plain[1..6]) * 100 + fraction;
    if src[0] < 128 then -magnitude else magnitude
  }

  /** Bytes 1 to 5, most significant first. */
  method ReadInteger(src: array<Byte>) returns (integer: nat)
    requires src.Length == 7
    ensures integer == Value(src[1..6])
  {
    integer := 0;
    for k := 0 to 5
      invariant integer == Value(src[1..1 + k])
    {
      ValueSnoc(src[1..1 + k], src[1 + k]);
      assert src[1..1 + k] + [src[1 + k]] == src[1..1 + (k + 1)];
      var byte: int := src[1 + k];
      integer := integer * 256 + byte;
    }
  }

  /** The decimal branch of stack_charToValue: a negative value is complemented in place. */
  method StackCharToValue(src: array<Byte>) returns (v: real)
    requires src.Length == 7
    modifies src
    ensures v == Hundredths(DecodeHundredths(old(src[..])))
  {
    var negative := src[0] < 128;
    ghost var given := src[..];
    if negative {
      assert src[..7] == given && src[7..] == [];
      ComplementFirst7(src);
      Unit(Complement(given));
    }
    ghost var plain := if negative then Complement(given) else given;
    assert src[..] == plain && src[1..6] == plain[1..6];
    var integer := ReadInteger(src);
    var fraction: int := src[6];
    if fraction >= 128 { fraction := fraction - 256; }
    v := integer as real + fraction as real * 0.01;
    if negative { v := v * -1.0; }
  }

  lemma {:induction false} ComplementTwice(s: Row)
    ensures Complement(Complement(s)) == s
  {
  }

  lemma {:induction false} Pow256()
    ensures Pow(256, 1) == 256 && Pow(256, 5) == TWO40 && Pow(256, 6) == 256 * TWO40 && Pow(256, 7) == 65536 * TWO40
  {
  }

  lemma {:induction false} PlainParts(i: nat, f: nat)
    requires f < 256
    ensures var p := Plain(i, f, 1);
            p[0] == 0x80 && Value(p[1..6]) == i % TWO40 && p[6] == f
  {
    var p := Plain(i, f, 1);
    assert p[1..6] == ToBytes(i, 5);
    assert [] + ToBytes(i, 5) == ToBytes(i, 5);
    ValueToBytes([], i, 5);
    Pow256();
    ToBytesAt(f, 1, 0);
  }

  /** What comes back for any number of hundredths: the integer part modulo 2^40. */
  lemma {:induction false} DecodeEncodeParts(negative: bool, i: nat, f: nat)
    requires f < 128
    ensures DecodeHundredths(EncodeParts(negative, i, f, 1))
         == (if negative then -1 else 1) * (i % TWO40 * 100 + f)
  {
    var p := Plain(i, f, 1);
    PlainParts(i, f);
    ComplementTwice(p);
    assert p[..7] == p && p[7..] == [];
    assert EncodeParts(negative, i, f, 1) == if negative then Complement(p) else p;
  }

  function Hundredths(n: int): real { n as real / 100.0 }

  lemma {:induction false} FloorUnique(v: real, k: int)
    requires k as real <= v < (k + 1) as real
    ensures v.Floor == k
  {
  }

  /** A two-decimal value falls apart exactly. */
  lemma {:induction false} PartsOfHundredths(n: nat)
    ensures IntegerPart(Hundredths(n)) == n / 100
    ensures FractionUnits(Hundredths(n), 1) == n % 100
  {
  }

  lemma {:induction false} EncodeHundredths(n: int)
    ensures var m := if n < 0 then -n else n;
            Encode(Hundredths(n), 1) == EncodeParts(n < 0, m / 100, m % 100, 1)
  {
    var m := if n < 0 then -n else n;
    assert Abs(Hundredths(n)) == Hundredths(m);
    PartsOfHundredths(m);
  }

  lemma {:induction false} ModFixed(i: nat)
    ensures i % TWO40 == i <==> i < TWO40
  {
  }

  /** Decoding inverts encoding on exactly the two-decimal values whose integer part is
      below 2^40, negative ones and those between -1 and 0 included. */
  lemma {:induction false} DecimalRoundTrip(n: int)
    ensures DecodeHundredths(Encode(Hundredths(n), 1)) == n <==> -100 * TWO40 < n < 100 * TWO40
  {
    var m := if n < 0 then -n else n;
    var i, f := m / 100, m % 100;
    EncodeHundredths(n);
    DecodeEncodeParts(n < 0, i, f);
    ModFixed(i);
    assert m == 100 * i + f;
    var back := i % TWO40 * 100 + f;
    assert back == m <==> i < TWO40;
  }

  // ---------------------------------------------------------------- rounding and signs

  lemma {:induction false} FloorIsNearest(x: real)
    ensures x - 0.5 < (x + 0.5).Floor as real <= x + 0.5
  {
  }

  /** The fraction written is the nearest whole number of units, exact halves going up. */
  lemma {:induction false} RoundsToNearest(v: real, realSize: nat)
    requires v >= 0.0
    ensures var exact := (v - v.Floor as real) * Scale(realSize) as real;
            exact - 0.5 < FractionUnits(v, realSize) as real <= exact + 0.5
  {
    FloorIsNearest((v - v.Floor as real) * Scale(realSize) as real);
  }

  lemma {:induction false} ScaleOfOne()
    ensures Scale(1) == 100
  {
    assert Pow(100, 0) == 1;
  }

  /** Any value below 2^40, a quotient for instance, comes back to within half a hundredth. */
  lemma {:induction false} EncodingRounds(v: real)
    requires -(TWO40 as real) < v < TWO40 as real
    ensures var d := DecodeHundredths(Encode(v, 1)) as real;
            v * 100.0 - 0.5 <= d <= v * 100.0 + 0.5
  {
    var a := Abs(v);
    var i, f := IntegerPart(a), FractionUnits(a, 1);
    RoundsToNearest(a, 1);
    ScaleOfOne();
    ModFixed(i);
    DecodeEncodeParts(v < 0.0, i, f);
  }

  /** The fraction byte is read with its sign, although no encoding makes one of 128 or more. */
  lemma {:induction false} FractionIsSigned(i: nat, b: Byte)
    requires i < TWO40
    ensures var f: int := b;
            DecodeHundredths([0x80] + ToBytes(i, 5) + [b]) == 100 * i + if f < 128 then f else f - 256
  {
    var src := [0x80] + ToBytes(i, 5) + [b];
    assert src[1..6] == ToBytes(i, 5);
    assert [] + ToBytes(i, 5) == ToBytes(i, 5);
    Pow256();
    ValueToBytes([], i, 5);
    ModFixed(i);
  }

  /** A negative value differs from its opposite in the first seven bytes, all complemented, and
      in no other: at scale 2 and 3 the last fraction bytes stay plain. */
  lemma {:induction false} SignFlipsSeven(v: real, realSize: nat)
    requires v > 0.0 && realSize >= 1
    ensures var r, p := Encode(-v, realSize), Encode(v, realSize);
            && |r| == |p| == 6 + realSize && r[7..] == p[7..]
            && forall k :: 0 <= k < 7 ==> r[k] == 255 - p[k]
  {
    assert Abs(-v) == v;
    var p := Encode(v, realSize);
    assert p[..7] + p[7..] == p;
  }
}
