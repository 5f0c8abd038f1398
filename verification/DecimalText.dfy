/** Decimals as the filter compares them (filter.cc, typeDecimal and ItoDec): hex text,
    ordered as std::string orders it. */
module DecimalText {
  import opened Rows
  import opened BigEndian
  import opened Decimal

  const DIGITS := "0123456789abcdef"

  function Digit(d: nat): char
    requires d < 16
  {
    DIGITS[d]
  }

  /** Two digits per byte. */
  function Hex(s: Row): string {
    if s == [] then [] else [Digit(s[0] / 16), Digit(s[0] % 16)] + Hex(s[1..])
  }

  lemma {:induction false} EveryDigit(d: nat)
    requires d < 16
    ensures Digit(d) as int == if d < 10 then '0' as int + d else 'a' as int + (d - 10)
  {
  }

  /** What `oss << hex << n` writes. */
  function IntHex(n: nat): (s: string)
    ensures s != []
  {
    if n < 16 then [Digit(n)] else IntHex(n / 16) + [Digit(n % 16)]
  }

  /** One byte: a single digit is padded. */
  lemma {:induction false} HexOfByte(b: Byte)
    ensures var oss := IntHex(b);
            (if |oss| <= 1 then "0" + oss else oss) == [Digit(b / 16), Digit(b % 16)]
  {
  }

  method TypeDecimal(column: Row) returns (text: string)
    ensures text == Hex(column)
  {
    text := "";
    assert column[0..] == column;
    for k := 0 to |column|
      invariant Hex(column) == text + Hex(column[k..])
    {
      var oss := IntHex(column[k]);
      HexOfByte(column[k]);
      assert column[k..][1..] == column[k + 1..];
      ghost var two := [Digit(column[k] / 16), Digit(column[k] % 16)];
      Assoc(text, two, Hex(column[k + 1..]));
      if |oss| <= 1 {
        text := text + ("0" + oss);
      } else {
        text := text + oss;
      }
    }
    assert column[|column|..] == [];
  }

  // ---------------------------------------------------------------- order

  function Codes(s: string): seq<int> {
    if s == [] then [] else [s[0] as int] + Codes(s[1..])
  }

  /** std::string's operator<. */
  predicate TextLess(a: string, b: string) { Less(Codes(a), Codes(b)) }

  lemma {:induction false} TextLessCons(c: char, d: char, s: string, t: string)
    ensures TextLess([c] + s, [d] + t) <==> c < d || (c == d && TextLess(s, t))
  {
    assert ([c] + s)[1..] == s && ([d] + t)[1..] == t;
    assert Codes([c] + s)[1..] == Codes(s) && Codes([d] + t)[1..] == Codes(t);
  }

  lemma {:induction false} DigitsAscend(d: nat, e: nat)
    requires d < 16 && e < 16
    ensures Digit(d) < Digit(e) <==> d < e
    ensures Digit(d) == Digit(e) <==> d == e
  {
  }

  lemma {:induction false} HexHead(x: Byte, y: Byte, s: string, t: string)
    ensures var a, b := [Digit(x / 16), Digit(x % 16)] + s, [Digit(y / 16), Digit(y % 16)] + t;
            && (TextLess(a, b) <==> x < y || (x == y && TextLess(s, t)))
            && (a == b <==> x == y && s == t)
  {
    var xh, xl, yh, yl := Digit(x / 16), Digit(x % 16), Digit(y / 16), Digit(y % 16);
    DigitsAscend(x / 16, y / 16);
    DigitsAscend(x % 16, y % 16);
    TextLessCons(xh, yh, [xl] + s, [yl] + t);
    TextLessCons(xl, yl, s, t);
    var a, b := [xh, xl] + s, [yh, yl] + t;
    assert a == [xh] + ([xl] + s) && b == [yh] + ([yl] + t);
    assert a[2..] == s && b[2..] == t;
  }

  /** Hex text orders as the bytes do. */
  lemma {:induction false} HexKeepsOrder(a: Row, b: Row)
    requires |a| == |b|
    ensures TextLess(Hex(a), Hex(b)) <==> Less(a, b)
    ensures Hex(a) == Hex(b) <==> a == b
  {
    if a != [] {
      HexKeepsOrder(a[1..], b[1..]);
      HexHead(a[0], b[0], Hex(a[1..]), Hex(b[1..]));
      assert a == [a[0]] + a[1..] && b == [b[0]] + b[1..];
    }
  }

  /** The number the seven plain bytes of integer part `i` and fraction `f` spell. */
  function PlainRank(i: nat, f: nat): nat { 0x8000 * TWO40 + i * 256 + f }

  function Signed(n: int, p: nat, h: nat): int { if n < 0 then 2 * h - 1 - p else p }

  function Rank(n: int): int {
    var m := if n < 0 then -n else n;
    Signed(n, PlainRank(m / 100, m % 100), 0x8000 * TWO40)
  }

  lemma {:induction false} PlainValue(i: nat, f: nat)
    requires i < TWO40 && f < 256
    ensures Value(Plain(i, f, 1)) == PlainRank(i, f)
  {
    Pow256();
    ToBytesAt(f, 1, 0);
    var head := [0x80] + ToBytes(i, 5);
    assert Plain(i, f, 1) == head + [f];
    ValueSnoc(head, f);
    ValueToBytes([0x80], i, 5);
    ValueSnoc([], 0x80);
    assert [] + [0x80] == [0x80];
    ModFixed(i);
  }

  lemma {:induction false} EncodingRank(n: int)
    requires -100 * TWO40 < n < 100 * TWO40
    ensures |Encode(Hundredths(n), 1)| == 7 && Value(Encode(Hundredths(n), 1)) == Rank(n)
  {
    var m := if n < 0 then -n else n;
    var i, f := m / 100, m % 100;
    EncodeHundredths(n);
    var p := Plain(i, f, 1);
    PlainValue(i, f);
    if n < 0 {
      Pow256();
      ValueComplement(p);
      assert p[..7] == p && p[7..] == [];
      Unit(Complement(p));
    }
  }

  lemma {:induction false} PartsOrder(n: nat, m: nat)
    ensures PlainRank(n / 100, n % 100) < PlainRank(m / 100, m % 100) <==> n < m
    ensures PlainRank(n / 100, n % 100) == PlainRank(m / 100, m % 100) <==> n == m
  {
  }

  /** Complementing turns the order of the magnitudes round below the sign bit. */
  lemma {:induction false} SignedOrder(n: int, m: int, p: nat, q: nat, h: nat)
    requires p >= h && q >= h
    requires n < 0 && m < 0 ==> (p < q <==> m < n) && (p == q <==> n == m)
    requires n >= 0 && m >= 0 ==> (p < q <==> n < m) && (p == q <==> n == m)
    ensures Signed(n, p, h) < Signed(m, q, h) <==> n < m
    ensures Signed(n, p, h) == Signed(m, q, h) <==> n == m
  {
  }

  lemma {:induction false} RankOrder(n: int, m: int)
    ensures Rank(n) < Rank(m) <==> n < m
    ensures Rank(n) == Rank(m) <==> n == m
  {
    var a, b := if n < 0 then -n else n, if m < 0 then -m else m;
    PartsOrder(a, b);
    SignedOrder(n, m, PlainRank(a / 100, a % 100), PlainRank(b / 100, b % 100), 0x8000 * TWO40);
  }

  /** The text typeDecimal makes of a column holding `n` hundredths. */
  function Text(n: int): string { Hex(Encode(Hundredths(n), 1)) }

  /** Comparing the hex strings is comparing the values, across signs and fractions. */
  lemma {:induction false} TextOrderIsNumeric(n: int, m: int)
    requires -100 * TWO40 < n < 100 * TWO40 && -100 * TWO40 < m < 100 * TWO40
    ensures TextLess(Text(n), Text(m)) <==> n < m
    ensures Text(n) == Text(m) <==> n == m
  {
    EncodingRank(n);
    EncodingRank(m);
    var a, b := Encode(Hundredths(n), 1), Encode(Hundredths(m), 1);
    HexKeepsOrder(a, b);
    LessIsNumeric(a, b);
    RankOrder(n, m);
  }

  // ---------------------------------------------------------------- integer constants

  /** An int as `ss << hex` sees it: two's complement. */
  function Unsigned(n: int): nat
    requires -0x8000_0000 <= n < 0x8000_0000
  {
    if n < 0 then n + 0x1_0000_0000 else n
  }

  function Zeros(k: nat): string {
    if k == 0 then "" else "0" + Zeros(k - 1)
  }

  method ItoDec(n: int) returns (text: string)
    requires -0x8000_0000 <= n < 0x8000_0000
    ensures |IntHex(Unsigned(n))| <= 8
    ensures text == ItoDecText(n)
  {
    var s := IntHex(Unsigned(n));
    assert 0x1_0000_0000 == Pow(16, 8) by { Pow16(); }
    PaddedHex(Unsigned(n), 8);
    text := "80";
    for i := 0 to 10 - |s|
      invariant text == "80" + Zeros(i)
    {
      ZerosSnoc(i);
      text := text + "0";
    }
    text := text + s;
    text := text + "00";
  }

  lemma {:induction false} ZerosSnoc(i: nat)
    ensures Zeros(i + 1) == Zeros(i) + "0"
  {
    if i > 0 {
      ZerosSnoc(i - 1);
    }
  }

  lemma {:induction false} Pow16()
    ensures Pow(16, 8) == 0x1_0000_0000 && Pow(16, 10) == TWO40
  {
  }

  /** The low `k` hex digits of `n`. */
  function Digits(n: nat, k: nat): string {
    if k == 0 then "" else Digits(n / 16, k - 1) + [Digit(n % 16)]
  }

  lemma {:induction false} OneDigit(n: nat, k: nat)
    requires n < 16 && k >= 1
    ensures IntHex(n) == [Digit(n)] && Zeros(k - 1) + [Digit(n)] == Digits(n, k)
  {
    ZeroDigits(k - 1);
  }

  /** Padding with zeros gives the fixed number of digits. */
  lemma {:induction false} PaddedHex(n: nat, k: nat)
    requires n < Pow(16, k) && k >= 1
    ensures |IntHex(n)| <= k && Zeros(k - |IntHex(n)|) + IntHex(n) == Digits(n, k)
    decreases k
  {
    if n < 16 {
      OneDigit(n, k);
    } else {
      PaddedHex(n / 16, k - 1);
      Assoc(Zeros(k - |IntHex(n)|), IntHex(n / 16), [Digit(n % 16)]);
    }
  }

  lemma {:induction false} ZeroDigits(k: nat)
    ensures Digits(0, k) == Zeros(k)
  {
    if k > 0 {
      ZeroDigits(k - 1);
      ZerosSnoc(k - 1);
    }
  }

  lemma {:induction false} HexAppend(a: Row, b: Row)
    ensures Hex(a + b) == Hex(a) + Hex(b)
  {
    if a == [] {
      assert a + b == b;
    } else {
      assert (a + b)[1..] == a[1..] + b;
      HexAppend(a[1..], b);
    }
  }

  lemma {:induction false} HexOfOne(b: Byte)
    ensures Hex([b]) == [Digit(b / 16), Digit(b % 16)]
  {
    Unit([Digit(b / 16), Digit(b % 16)]);
    assert [b][1..] == [] && Hex([]) == [];
  }

  lemma {:induction false} LowDigits(n: nat, k: nat)
    ensures Digits(n, k + 2) == Digits(n / 256, k) + [Digit(n % 256 / 16), Digit(n % 256 % 16)]
  {
    assert n / 16 / 16 == n / 256 && n / 16 % 16 == n % 256 / 16 && n % 16 == n % 256 % 16;
    assert Digits(n, k + 2) == Digits(n / 16 / 16, k) + [Digit(n / 16 % 16)] + [Digit(n % 16)];
  }

  lemma {:induction false} HexOfBytes(n: nat, k: nat)
    ensures Hex(ToBytes(n, k)) == Digits(n, 2 * k)
    decreases k
  {
    if k > 0 {
      HexAppend(ToBytes(n / 256, k - 1), [n % 256]);
      HexOfBytes(n / 256, k - 1);
      HexOfOne(n % 256);
      LowDigits(n, 2 * k - 2);
    }
  }

  function ItoDecText(n: int): string
    requires -0x8000_0000 <= n < 0x8000_0000
    requires |IntHex(Unsigned(n))| <= 10
  {
    "80" + Zeros(10 - |IntHex(Unsigned(n))|) + IntHex(Unsigned(n)) + "00"
  }

  lemma {:induction false} HexSignAndZero()
    ensures Hex([0x80]) == "80" && Hex([0]) == "00"
  {
  }

  lemma {:induction false} EncodingOfInteger(n: nat)
    ensures Encode(Hundredths(100 * n), 1) == [0x80] + ToBytes(n, 5) + [0]
  {
    EncodeHundredths(100 * n);
    WholeHundredths(n);
    ToBytesAt(0, 1, 0);
    assert ToBytes(0, 1) == [0];
  }

  lemma {:induction false} WholeHundredths(n: nat)
    ensures 100 * n / 100 == n && 100 * n % 100 == 0
  {
  }

  lemma {:induction false} TextOfInteger(n: nat)
    ensures Text(100 * n) == "80" + Digits(n, 10) + "00"
  {
    EncodingOfInteger(n);
    HexAppend([0x80], ToBytes(n, 5));
    HexAppend([0x80] + ToBytes(n, 5), [0]);
    HexOfBytes(n, 5);
    HexSignAndZero();
  }

  lemma {:induction false} NegativeTextsDiffer(n: int, text: string)
    requires n < 0 && text != [] && text[0] == '8'
    ensures Text(100 * n) != text
  {
  }

  lemma {:induction false} ItoDecDigits(n: int)
    requires -0x8000_0000 <= n < 0x8000_0000
    ensures |IntHex(Unsigned(n))| <= 10
    ensures ItoDecText(n) == "80" + Digits(Unsigned(n), 10) + "00"
  {
    Pow16();
    PaddedText(Unsigned(n), 10);
  }

  lemma {:induction false} PaddedText(u: nat, k: nat)
    requires u < Pow(16, k) && k >= 1
    ensures |IntHex(u)| <= k && "80" + Zeros(k - |IntHex(u)|) + IntHex(u) + "00" == "80" + Digits(u, k) + "00"
  {
    PaddedHex(u, k);
    Assoc("80", Zeros(k - |IntHex(u)|), IntHex(u));
  }

  /** ItoDec writes the text of the unsigned number the int is to `ss << hex`. */
  lemma {:induction false} ItoDecOfUnsigned(n: int)
    requires -0x8000_0000 <= n < 0x8000_0000
    ensures |IntHex(Unsigned(n))| <= 10
    ensures ItoDecText(n) == Text(100 * Unsigned(n))
  {
    ItoDecDigits(n);
    TextOfInteger(Unsigned(n));
  }

  /** ItoDec(n) is the text of n.00 for exactly the nonnegative ints. */
  lemma {:induction false} ItoDecIsText(n: int)
    requires -0x8000_0000 <= n < 0x8000_0000
    ensures |IntHex(Unsigned(n))| <= 10
    ensures ItoDecText(n) == Text(100 * n) <==> n >= 0
    ensures n < 0 ==> ItoDecText(n) == Text(100 * (n + 0x1_0000_0000))
  {
    ItoDecOfUnsigned(n);
    if n < 0 {
      ItoDecDigits(n);
      NegativeTextsDiffer(n, ItoDecText(n));
    }
  }

  /** So a decimal column compares with a nonnegative int constant as numbers do. */
  lemma {:induction false} ColumnAgainstConstant(n: int, c: int)
    requires -100 * TWO40 < n < 100 * TWO40 && 0 <= c < 0x8000_0000
    ensures |IntHex(Unsigned(c))| <= 10
    ensures TextLess(Text(n), ItoDecText(c)) <==> n < 100 * c
    ensures TextLess(ItoDecText(c), Text(n)) <==> 100 * c < n
    ensures Text(n) == ItoDecText(c) <==> n == 100 * c
  {
    ItoDecIsText(c);
    TextOrderIsNumeric(n, 100 * c);
    TextOrderIsNumeric(100 * c, n);
  }
}
