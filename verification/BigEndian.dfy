/** Byte strings as numbers: big-endian values with lexicographic order as numeric order, and
    little-endian two's complement integers. */
module BigEndian {
  import opened Rows

  function Pow(b: nat, k: nat): (p: nat)
    ensures b > 0 ==> p > 0
  {
    if k == 0 then 1 else b * Pow(b, k - 1)
  }

  /** The low `k` bytes of `n`, most significant first. */
  function ToBytes(n: nat, k: nat): (r: Row)
    ensures |r| == k
  {
    if k == 0 then [] else ToBytes(n / 256, k - 1) + [n % 256]
  }

  function Value(s: Row): nat {
    if s == [] then 0 else Value(s[..|s| - 1]) * 256 + s[|s| - 1]
  }

  function Complement(s: Row): (r: Row)
    ensures |r| == |s|
  {
    seq(|s|, i requires 0 <= i < |s| => 255 - s[i])
  }

  lemma {:induction false} ValueSnoc(s: Row, b: Byte)
    ensures Value(s + [b]) == Value(s) * 256 + b
  {
  }

  lemma {:induction false} ValueBound(s: Row)
    ensures Value(s) < Pow(256, |s|)
  {
    if s != [] {
      ValueBound(s[..|s| - 1]);
    }
  }

  /** A leading byte in front of the low `k` bytes of `n`. */
  lemma {:induction false} ValueToBytes(h: Row, n: nat, k: nat)
    ensures Value(h + ToBytes(n, k)) == Value(h) * Pow(256, k) + n % Pow(256, k)
    decreases k
  {
    if k == 0 {
      assert h + ToBytes(n, 0) == h;
    } else {
      var p := Pow(256, k - 1);
      assert h + ToBytes(n, k) == (h + ToBytes(n / 256, k - 1)) + [n % 256];
      ValueSnoc(h + ToBytes(n / 256, k - 1), n % 256);
      ValueToBytes(h, n / 256, k - 1);
      ModSplit(n, p);
      MulAssoc(Value(h), p);
    }
  }

  lemma {:induction false} MulAssoc(a: nat, p: nat)
    ensures a * p * 256 == a * (256 * p)
  {
  }

  lemma {:induction false} ModSplit(n: nat, p: nat)
    requires p > 0
    ensures (n / 256 % p) * 256 + n % 256 == n % (256 * p)
  {
    var q, r := n / 256 / p, n / 256 % p;
    assert n / 256 == q * p + r;
    assert n == (q * p + r) * 256 + n % 256;
    assert (q * p) * 256 == q * (256 * p) by { MulAssoc(q, p); }
    ModUnique(n, 256 * p, q, r * 256 + n % 256);
  }

  lemma {:induction false} ModUnique(n: nat, d: nat, q: nat, r: nat)
    requires d > 0 && n == q * d + r && r < d
    ensures n % d == r && n / d == q
  {
    DigitOrder(n / d, q, n % d, r, d);
  }

  /** Enough bytes hold the whole number. */
  lemma {:induction false} ValueOfBytes(n: nat, k: nat)
    requires n < Pow(256, k)
    ensures Value(ToBytes(n, k)) == n
    decreases k
  {
    if k > 0 {
      ValueOfBytes(n / 256, k - 1);
      ValueSnoc(ToBytes(n / 256, k - 1), n % 256);
    }
  }

  lemma {:induction false} ValueComplement(s: Row)
    ensures Value(Complement(s)) == Pow(256, |s|) - 1 - Value(s)
  {
    if s != [] {
      var t := s[..|s| - 1];
      assert Complement(s) == Complement(t) + [255 - s[|s| - 1]];
      ValueSnoc(Complement(t), 255 - s[|s| - 1]);
      ValueComplement(t);
    }
  }

  // ---------------------------------------------------------------- order

  /** Lexicographic order, of bytes or of character codes. */
  predicate Less(a: seq<int>, b: seq<int>) {
    b != [] && (a == [] || a[0] < b[0] || (a[0] == b[0] && Less(a[1..], b[1..])))
  }

  lemma {:induction false} ValueCons(s: Row)
    requires s != []
    ensures Value(s) == s[0] * Pow(256, |s| - 1) + Value(s[1..])
  {
    if |s| > 1 {
      ValueCons(s[..|s| - 1]);
      var n := |s| - 1;
      assert s[..n][1..] == s[1..][..n - 1];
      assert s[1..][n - 1] == s[n];
      MulAssoc(s[0], Pow(256, n - 1));
    } else {
      assert s[..0] == [] && s[1..] == [];
    }
  }

  lemma {:induction false} DigitOrder(x: nat, y: nat, u: nat, v: nat, p: nat)
    requires u < p && v < p
    ensures x * p + u < y * p + v <==> x < y || (x == y && u < v)
    ensures x * p + u == y * p + v <==> x == y && u == v
  {
    if x < y {
      assert (x + 1) * p <= y * p;
    } else if y < x {
      assert (y + 1) * p <= x * p;
    }
  }

  /** Strings of one length compare as the numbers they denote. */
  lemma {:induction false} LessIsNumeric(a: Row, b: Row)
    requires |a| == |b|
    ensures Less(a, b) <==> Value(a) < Value(b)
    ensures a == b <==> Value(a) == Value(b)
  {
    if a != [] {
      var s, t := a[1..], b[1..];
      LessIsNumeric(s, t);
      ValueCons(a);
      ValueCons(b);
      ValueBound(s);
      ValueBound(t);
      DigitOrder(a[0], b[0], Value(s), Value(t), Pow(256, |s|));
      assert a == [a[0]] + s && b == [b[0]] + t;
    }
  }

  // ---------------------------------------------------------------- little-endian integers

  /** Bytes read as an unsigned number, least significant first. */
  function LittleEndian(s: Row): nat {
    if s == [] then 0 else s[0] + 256 * LittleEndian(s[1..])
  }

  lemma {:induction false} LittleSnoc(s: Row, b: Byte)
    ensures LittleEndian(s + [b]) == LittleEndian(s) + b * Pow(256, |s|)
  {
    if s == [] {
      assert s + [b] == [b] && LittleEndian([b][1..]) == 0;
    } else {
      assert (s + [b])[1..] == s[1..] + [b];
      LittleSnoc(s[1..], b);
      Shifted(Pow(256, |s| - 1), b);
    }
  }

  lemma {:induction false} Shifted(p: nat, b: nat)
    ensures 256 * (b * p) == b * (256 * p)
  {
  }

  /** Half the range of an integer of `n` bytes. */
  function Half(n: nat): nat
    requires n > 0
  {
    128 * Pow(256, n - 1)
  }

  /** Two's complement. */
  function AsSigned(u: nat, n: nat): int
    requires n > 0
  {
    if u < Half(n) then u else u - 2 * Half(n)
  }
}
