/** The width declared for a projected column (input.h, calculForReturnData) against the
    width and the digits merge really writes (merge_manager.cc). */
module ProjectionWidth {
  import opened Rows
  import opened BigEndian
  import opened Decimal
  import opened Postfix

  const MYSQL_NEWDECIMAL := 246

  // ---------------------------------------------------------------- declared

  function CountTimes(ts: seq<Token>): nat {
    if ts == [] then 0 else (if ts[0] == Operator(Times) then 1 else 0) + CountTimes(ts[1..])
  }

  /** What the maps col_type and col_offlen say about a token; a constant is not a column
      name and reads as 0. */
  function Declared(t: Token): (int, nat) {
    if t.Column? then (t.declaredType, t.declaredLength) else (0, 0)
  }

  /** The width declared for an expression. */
  function DeclaredWidth(ts: seq<Token>): nat
    requires ts != []
  {
    if |ts| > 1 && CountTimes(ts) == 1 then 8
    else if |ts| > 1 && CountTimes(ts) == 2 then 9
    else Declared(ts[0]).1
  }

  function DeclaredType(ts: seq<Token>): int
    requires ts != []
  {
    if |ts| > 1 && 1 <= CountTimes(ts) <= 2 then MYSQL_NEWDECIMAL else Declared(ts[0]).0
  }

  /** calculForReturnData for an arithmetic projection: its type and width follow from the
      number of products. */
  method CalculForReturnData(tokens: seq<Token>) returns (datatype_: int, width: nat)
    requires tokens != []
    ensures width == DeclaredWidth(tokens)
    ensures datatype_ == DeclaredType(tokens)
  {
    if |tokens| == 1 {
      return Declared(tokens[0]).0, Declared(tokens[0]).1;
    }
    var count := 0;
    assert tokens[0..] == tokens;
    for j := 0 to |tokens|
      invariant count + CountTimes(tokens[j..]) == CountTimes(tokens)
    {
      assert tokens[j..][1..] == tokens[j + 1..];
      if tokens[j] == Operator(Times) {
        count := count + 1;
      }
    }
    if count == 1 {
      return MYSQL_NEWDECIMAL, 8;
    } else if count == 2 {
      return MYSQL_NEWDECIMAL, 9;
    } else {
      return Declared(tokens[0]).0, Declared(tokens[0]).1;
    }
  }

  // ---------------------------------------------------------------- products

  /** A decimal(15,2) column: seven bytes, read with real_size 1, a whole number of hundredths. */
  ghost predicate IsDecimalColumn(e: Expr) {
    && e.Leaf? && e.t.Column? && e.t.declaredType == MYSQL_NEWDECIMAL && e.t.declaredLength == 7
    && e.t.v.DblV? && e.t.v.realSize == 1 && exists n: int :: e.t.v.d == Hundredths(n)
  }

  ghost predicate IsInteger(e: Expr) {
    e.Leaf? && e.t.Constant? && e.t.v.IntV?
  }

  /** A decimal column, or an integer plus or minus one, in either order. */
  ghost predicate IsFactor(e: Expr) {
    || IsDecimalColumn(e)
    || (e.Node? && (e.op.Plus? || e.op.Minus?)
        && ((IsInteger(e.l) && IsDecimalColumn(e.r)) || (IsDecimalColumn(e.l) && IsInteger(e.r))))
  }

  /** A product of `k` factors, associated in any way. */
  ghost predicate IsProduct(e: Expr, k: nat) {
    || (k == 1 && IsFactor(e))
    || (e.Node? && e.op.Times? && exists i: nat, j: nat :: i + j == k && IsProduct(e.l, i) && IsProduct(e.r, j))
  }

  lemma {:induction false} TimesAppend(a: seq<Token>, b: seq<Token>)
    ensures CountTimes(a + b) == CountTimes(a) + CountTimes(b)
  {
    if a == [] {
      assert a + b == b;
    } else {
      assert (a + b)[1..] == a[1..] + b;
      TimesAppend(a[1..], b);
    }
  }

  lemma {:induction false} TimesNode(op: Op, l: Expr, r: Expr)
    ensures CountTimes(Post(Node(op, l, r))) == CountTimes(Post(l)) + CountTimes(Post(r)) + if op.Times? then 1 else 0
  {
    TimesAppend(Post(l) + Post(r), [Operator(op)]);
    TimesAppend(Post(l), Post(r));
    assert CountTimes([Operator(op)]) == (if op.Times? then 1 else 0) + CountTimes([]);
  }

  /** `v` is `n` units of 1/100^k. */
  ghost predicate Units(v: real, k: nat, n: int) {
    v * Scale(k) as real == n as real
  }

  lemma {:induction false} FactorFacts(e: Expr) returns (n: int)
    requires IsFactor(e)
    ensures Proper(e) && Good(e) && TypeOf(e) == Some(TDbl(1)) && CountTimes(Post(e)) == 0 && Units(Meaning(e), 1, n)
    ensures |Post(e)| > 1 || IsDecimalColumn(e)
  {
    assert Scale(1) == 100 by { assert Pow(100, 0) == 1; }
    if IsDecimalColumn(e) {
      n :| e.t.v.d == Hundredths(n);
      assert CountTimes([e.t]) == 0 + CountTimes([]);
    } else {
      var c, i := if IsInteger(e.l) then e.r else e.l, if IsInteger(e.l) then e.l else e.r;
      var m :| c.t.v.d == Hundredths(m);
      TimesNode(e.op, e.l, e.r);
      assert CountTimes([c.t]) == 0 + CountTimes([]);
      assert CountTimes([i.t]) == 0 + CountTimes([]);
      var x := 100 * i.t.v.i;
      n := if e.op.Plus? then x + m else if IsInteger(e.l) then x - m else m - x;
    }
  }

  lemma {:induction false} ScaleAdds(i: nat, j: nat)
    ensures Scale(i + j) == Scale(i) * Scale(j)
    decreases i
  {
    if i > 0 {
      ScaleAdds(i - 1, j);
      Times3(100, Scale(i - 1), Scale(j));
    }
  }

  lemma {:induction false} Times3(a: nat, b: nat, c: nat)
    ensures a * (b * c) == a * b * c
  {
  }

  lemma {:induction false} RealProduct(a: nat, b: nat)
    ensures (a * b) as real == a as real * b as real
  {
  }

  lemma {:induction false} RealIntProduct(a: int, b: int)
    ensures (a * b) as real == a as real * b as real
  {
  }

  lemma {:induction false} Chain(x: real, y: real, p: real, q: real, pq: real, m: real, n: real, mn: real)
    requires x * p == m && y * q == n && pq == p * q && mn == m * n
    ensures (x * y) * pq == mn
  {
  }

  lemma {:induction false} ProductUnits(x: real, y: real, i: nat, j: nat, m: int, n: int)
    requires Units(x, i, m) && Units(y, j, n)
    ensures Units(x * y, i + j, m * n)
  {
    ScaleAdds(i, j);
    RealProduct(Scale(i), Scale(j));
    RealIntProduct(m, n);
    Chain(x, y, Scale(i) as real, Scale(j) as real, Scale(i + j) as real, m as real, n as real, (m * n) as real);
  }

  /** A product of k factors has scale k and k-1 multiplications. */
  lemma {:induction false} ProductTyped(e: Expr, k: nat)
    requires IsProduct(e, k)
    ensures k >= 1 && Proper(e) && Good(e) && TypeOf(e) == Some(TDbl(k)) && CountTimes(Post(e)) == k - 1
    decreases e
  {
    if k == 1 && IsFactor(e) {
      var n := FactorFacts(e);
    } else {
      var i: nat, j: nat :| i + j == k && IsProduct(e.l, i) && IsProduct(e.r, j);
      ProductTyped(e.l, i);
      ProductTyped(e.r, j);
      TimesNode(e.op, e.l, e.r);
    }
  }

  ghost predicate InUnits(v: real, k: nat) { exists n: int :: Units(v, k, n) }

  lemma {:induction false} ProductInUnitsOf(x: real, y: real, i: nat, j: nat)
    requires InUnits(x, i) && InUnits(y, j)
    ensures InUnits(Arith(Times, x, y), i + j)
  {
    var m: int :| Units(x, i, m);
    var n: int :| Units(y, j, n);
    ProductUnits(x, y, i, j, m, n);
  }

  /** Its value is a whole number of units of that scale. */
  lemma {:induction false} ProductInUnits(e: Expr, k: nat)
    requires IsProduct(e, k)
    ensures k >= 1 && Proper(e) && InUnits(Meaning(e), k)
    decreases e
  {
    if k == 1 && IsFactor(e) {
      var n := FactorFacts(e);
    } else {
      var i: nat, j: nat :| i + j == k && IsProduct(e.l, i) && IsProduct(e.r, j);
      ProductTyped(e, k);
      assert Meaning(e) == Arith(Times, Meaning(e.l), Meaning(e.r));
      ProductInUnits(e.l, i);
      ProductInUnits(e.r, j);
      ProductInUnitsOf(Meaning(e.l), Meaning(e.r), i, j);
    }
  }

  lemma {:induction false} ProductTokens(e: Expr, k: nat)
    requires IsProduct(e, k)
    ensures Post(e) != [] && (Declared(Post(e)[0]).1 == 0 || Declared(Post(e)[0]).1 == 7)
    ensures k > 1 ==> |Post(e)| > 1
    decreases e
  {
    if k == 1 && IsFactor(e) {
    } else {
      var i: nat, j: nat :| i + j == k && IsProduct(e.l, i) && IsProduct(e.r, j);
      ProductTokens(e.l, i);
    }
  }

  /** Merge writes 6+k bytes for a product of k factors. The declared width is the same for
      two and three factors, for a single factor exactly when it starts with its column,
      and never for four or more. */
  lemma {:induction false} WidthsAgree(e: Expr, k: nat)
    requires IsProduct(e, k)
    ensures Post(e) != []
    ensures DeclaredWidth(Post(e)) == 6 + k <==> k == 2 || k == 3 || (k == 1 && Post(e)[0].Column?)
  {
    ProductTyped(e, k);
    ProductTokens(e, k);
    if k == 1 {
      FactorStart(e);
    }
  }

  lemma {:induction false} FactorStart(e: Expr)
    requires IsProduct(e, 1)
    ensures Post(e) != [] && (Post(e)[0].Column? <==> Declared(Post(e)[0]).1 == 7)
  {
    if !IsFactor(e) {
      var i: nat, j: nat :| i + j == 1 && IsProduct(e.l, i) && IsProduct(e.r, j);
      ProductTyped(e.l, i);
      ProductTyped(e.r, j);
    }
  }

  // ---------------------------------------------------------------- digits

  lemma {:induction false} Distribute(v: real, q: real, s: real)
    ensures (v - q) * s == v * s - q * s
  {
  }

  lemma {:induction false} ProperFraction(w: real, s: real, r: real)
    requires s > 0.0 && w * s == r && 0.0 <= r < s
    ensures 0.0 <= w < 1.0
  {
    if w < 0.0 { NegativeProduct(w, s); }
    if w >= 1.0 { BigProduct(w, s); }
  }

  lemma {:induction false} NegativeProduct(w: real, s: real)
    requires w < 0.0 && s > 0.0
    ensures w * s < 0.0
  {
  }

  lemma {:induction false} BigProduct(w: real, s: real)
    requires w >= 1.0 && s > 0.0
    ensures w * s >= s
  {
  }

  /** A value of `n` units of 1/s falls apart into integer part and units. */
  lemma {:induction false} PartsOfUnits(v: real, n: nat, s: nat)
    requires s > 0 && v * s as real == n as real
    ensures v >= 0.0 && v.Floor == n / s && (v - v.Floor as real) * s as real == (n % s) as real
  {
    var q, r := n / s, n % s;
    assert n == q * s + r;
    RealProduct(q, s);
    Distribute(v, q as real, s as real);
    ProperFraction(v - q as real, s as real, r as real);
    FloorUnique(v, q);
  }

  lemma {:induction false} Scales()
    ensures Scale(1) == 100 && Scale(2) == 10000 && Scale(3) == 1000000
    ensures Pow(256, 1) == 256 && Pow(256, 2) == 65536 && Pow(256, 3) == 16777216
  {
  }

  lemma {:induction false} EncodedParts(i: nat, f: nat, k: nat)
    requires i < TWO40 && 1 <= k && f < Pow(256, k)
    ensures var b := EncodeParts(false, i, f, k);
            |b| == 6 + k && Value(b[1..6]) == i && Value(b[6..]) == f
  {
    var b := Plain(i, f, k);
    assert b[1..6] == ToBytes(i, 5) && b[6..] == ToBytes(f, k);
    Pow256();
    ValueOfBytes(i, 5);
    ValueOfBytes(f, k);
  }

  lemma {:induction false} FractionIsExact(v: real, n: nat, k: nat)
    requires v * Scale(k) as real == n as real
    ensures v >= 0.0 && IntegerPart(v) == n / Scale(k) && FractionUnits(v, k) == n % Scale(k)
  {
    PartsOfUnits(v, n, Scale(k));
    var f := n % Scale(k);
    FloorUnique(f as real + 0.5, f);
  }

  /** The bytes hold the value: five of integer part, `k` of fraction. */
  ghost predicate Spells(b: Row, k: nat, v: real) {
    |b| == 6 + k && Value(b[1..6]) as real + Value(b[6..]) as real / Scale(k) as real == v
  }

  /** A nonnegative product of at most three factors with integer part below 2^40 is
      written exactly: integer bytes and fraction bytes together are its value. */
  lemma {:induction false} ProductDigits(e: Expr, k: nat)
    requires IsProduct(e, k) && k <= 3
    requires Proper(e) && 0.0 <= Meaning(e) < TWO40 as real
    ensures k >= 1 && Spells(Encode(Meaning(e), k), k, Meaning(e))
  {
    ProductInUnits(e, k);
    var n: int :| Units(Meaning(e), k, n);
    ValueDigits(Meaning(e), n, k);
  }

  lemma {:induction false} ValueDigits(v: real, n: int, k: nat)
    requires 1 <= k <= 3 && 0.0 <= v < TWO40 as real && Units(v, k, n)
    ensures Spells(Encode(v, k), k, v)
  {
    NonNegativeUnits(v, k, n);
    DigitsExact(v, n, k);
  }

  lemma {:induction false} NonNegativeUnits(v: real, k: nat, n: int)
    requires v >= 0.0 && v * Scale(k) as real == n as real
    ensures n >= 0
  {
  }

  lemma {:induction false} UnitsFit(n: nat, k: nat)
    requires 1 <= k <= 3
    ensures n % Scale(k) < Pow(256, k)
  {
    Scales();
  }

  lemma {:induction false} EncodeOfUnits(v: real, n: nat, k: nat)
    requires 1 <= k && v * Scale(k) as real == n as real
    ensures Encode(v, k) == EncodeParts(false, n / Scale(k), n % Scale(k), k)
  {
    FractionIsExact(v, n, k);
  }

  lemma {:induction false} ValueOfUnits(v: real, n: nat, s: nat)
    requires s > 0 && v * s as real == n as real
    ensures (n / s) as real + (n % s) as real / s as real == v
  {
  }

  lemma {:induction false} IntegerBelow(v: real, n: nat, s: nat, bound: nat)
    requires s > 0 && v * s as real == n as real && v < bound as real
    ensures n / s < bound
  {
  }

  lemma {:induction false} PartsSpell(i: nat, f: nat, k: nat, v: real)
    requires i < TWO40 && 1 <= k && f < Pow(256, k) && i as real + f as real / Scale(k) as real == v
    ensures Spells(EncodeParts(false, i, f, k), k, v)
  {
    EncodedParts(i, f, k);
  }

  lemma {:induction false} DigitsExact(v: real, n: nat, k: nat)
    requires 1 <= k <= 3 && v * Scale(k) as real == n as real && v < TWO40 as real
    ensures Spells(Encode(v, k), k, v)
  {
    EncodeOfUnits(v, n, k);
    UnitsFit(n, k);
    IntegerBelow(v, n, Scale(k), TWO40);
    ValueOfUnits(v, n, Scale(k));
    PartsSpell(n / Scale(k), n % Scale(k), k, v);
  }

  // ---------------------------------------------------------------- plain columns

  /** A single column is declared with its own type and width. */
  lemma {:induction false} ColumnKeepsItsType(v: Val, declaredType: int, declaredLength: nat)
    ensures var ts := [Column(v, declaredType, declaredLength)];
            DeclaredType(ts) == declaredType && DeclaredWidth(ts) == declaredLength
  {
  }
}
