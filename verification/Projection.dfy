/** A projected expression from its tokens to the bytes in the row (merge_manager.cc): the
    postfix machine with its final conversion, and CASE with that machine behind its
    conditions and arms. */
module Projection {
  import opened Rows
  import opened BigEndian
  import opened Decimal
  import opened CaseWhen
  import P = Postfix
  import L = Like

  // ---------------------------------------------------------------- the final conversion

  function Int64Bytes(v: int): Row {
    Int32Bytes(v) + Int32Bytes(v / 0x1_0000_0000)
  }

  function TextBytes(s: string): Row {
    if s == "" then [] else [s[0] as int % 256] + TextBytes(s[1..])
  }

  /** stack_valueToChar. A double is written only into a decimal; for any other declared type
      the code logs and writes nothing. With a scale other than 1 to 3 part of the result is
      whatever the destination held, which is no value here. */
  function Converted(v: P.Val, dest: Dest): Option<Row> {
    match v
    case IntV(i) => Some(Int32Bytes(i))
    case LongV(l) => Some(Int64Bytes(l))
    case StrV(s) => Some(TextBytes(s))
    case DblV(d, n) => if !dest.NewDecimal? then Some([]) else if Supported(n) then Some(Encode(d, n)) else None
  }

  /** What calculPostfix leaves in its destination: the answer of a comparison, or the value on
      top of the stack. An empty stack and the ends that are no ends have no result. */
  function Written(m: P.Machine, dest: Dest): Option<Row> {
    match m
    case Answered(yes) => Some([if yes then 1 else 0])
    case Running(stack, _) => if stack == [] then None else Converted(stack[|stack| - 1], dest)
    case _ => None
  }

  function RunTokens(ts: seq<P.Token>): P.Machine { P.Run(P.Running([], false), ts) }

  method ProjectTokens(ts: seq<P.Token>, dest: Dest) returns (bytes: Option<Row>)
    ensures bytes == Written(RunTokens(ts), dest)
  {
    var m := P.CalculPostfix(ts);
    match m {
      case Answered(yes) => bytes := Some([if yes then 1 else 0]);
      case Running(stack, _) =>
        if stack == [] {
          bytes := None;
        } else {
          bytes := Converted(stack[|stack| - 1], dest);
        }
      case _ => bytes := None;
    }
  }

  // ---------------------------------------------------------------- expressions

  ghost predicate IsText(t: P.Token, s: string) { (t.Constant? || t.Column?) && t.v == P.StrV(s) }

  ghost function Compared(op: P.Op, a: P.Token, b: P.Token, dest: Dest): Option<Row> {
    Written(RunTokens(P.Post(P.Node(op, P.Leaf(a), P.Leaf(b)))), dest)
  }

  /** The byte a comparison of two strings leaves: 1 if it is true and 0 if it is not, LIKE as
      SQL means it for the patterns that merge reads so. */
  lemma {:induction false} ComparisonByte(a: P.Token, b: P.Token, s: string, t: string, dest: Dest)
    requires IsText(a, s) && IsText(b, t)
    ensures Compared(P.Equal, a, b, dest) == Some([if s == t then 1 else 0])
    ensures Compared(P.NotEqual, a, b, dest) == Some([if s != t then 1 else 0])
    ensures L.PercentAtAnEnd(t) && '%' !in L.Find(t) && |L.Find(t)| <= |s| ==>
              Compared(P.Like, a, b, dest) == Some([if L.Matches(s, t) then 1 else 0])
  {
    P.ConditionAnswers(P.Equal, P.Leaf(a), P.Leaf(b), s == t);
    P.ConditionAnswers(P.NotEqual, P.Leaf(a), P.Leaf(b), s != t);
    if L.PercentAtAnEnd(t) && '%' !in L.Find(t) && |L.Find(t)| <= |s| {
      L.PlainFindAgrees(s, t);
      P.ConditionAnswers(P.Like, P.Leaf(a), P.Leaf(b), L.Matches(s, t));
    }
  }

  /** A good tree that computes something has a decimal type. */
  lemma {:induction false} NodesAreDecimal(e: P.Expr)
    requires P.Proper(e) && P.Good(e) && e.Node?
    ensures P.TypeOf(e).Some? && P.TypeOf(e).value.TDbl?
  {
  }

  /** From tree to bytes: the postfix form of every good tree with scale 1 to 3, projected as a
      decimal, is written as the encoding of the tree's value. */
  lemma {:induction false} ExpressionBytes(e: P.Expr, k: nat)
    requires P.Proper(e) && P.Good(e) && P.TypeOf(e) == Some(P.TDbl(k)) && Supported(k)
    ensures Written(RunTokens(P.Post(e)), NewDecimal) == Some(Encode(P.Meaning(e), k))
  {
    P.PostfixCorrect(e);
  }

  /** And the decoder returns that value when it is a whole number of hundredths below 2^40. */
  lemma {:induction false} ExpressionReadBack(e: P.Expr, n: int)
    requires P.Proper(e) && P.Good(e) && P.TypeOf(e) == Some(P.TDbl(1)) && P.Meaning(e) == Hundredths(n)
    requires -100 * TWO40 < n < 100 * TWO40
    ensures var bytes := Written(RunTokens(P.Post(e)), NewDecimal);
            bytes.Some? && |bytes.value| == 7 && DecodeHundredths(bytes.value) == n
  {
    ExpressionBytes(e, 1);
    DecimalRoundTrip(n);
  }

  /** Projected as anything but a decimal, a computed expression writes nothing at all. */
  lemma {:induction false} ComputedWritesNothing(e: P.Expr, dest: Dest)
    requires P.Proper(e) && P.Good(e) && e.Node? && !dest.NewDecimal?
    ensures Written(RunTokens(P.Post(e)), dest) == Some([])
  {
    P.PostfixCorrect(e);
    NodesAreDecimal(e);
  }

  /** When an expression follows another, the value of the last one is written. */
  lemma {:induction false} LastIsWritten(d: P.Expr, e: P.Expr, dest: Dest)
    requires P.Proper(d) && P.Good(d) && P.Proper(e) && P.Good(e)
    ensures Written(RunTokens(P.Post(d) + P.Post(e)), dest) == Written(RunTokens(P.Post(e)), dest)
  {
    var a := P.GoodRuns(d, [], false);
    P.RunAppend(P.Running([], false), P.Post(d), P.Post(e));
    var below: seq<P.Val> := [] + [a];
    if e.Leaf? {
      P.RunOne(P.Running(below, false), e.t);
      P.RunOne(P.Running([], false), e.t);
    } else {
      var b := P.GoodRuns(e, below, false);
      var c := P.GoodRuns(e, [], false);
      NodesAreDecimal(e);
      assert b == c;
    }
  }

  // ---------------------------------------------------------------- integers and strings

  lemma {:induction false} IntWritten(v: CInt, dest: Dest)
    ensures var r := Converted(P.IntV(v), dest); r.Some? && |r.value| == 4 && ReadInt(r.value) == v
  {
    IntReadBack(v);
  }

  lemma {:induction false} LittleAppend(s: Row, t: Row)
    ensures LittleEndian(s + t) == LittleEndian(s) + LittleEndian(t) * Pow(256, |s|)
  {
    if s == [] {
      assert s + t == t;
    } else {
      assert (s + t)[1..] == s[1..] + t;
      LittleAppend(s[1..], t);
      Shifted(Pow(256, |s| - 1), LittleEndian(t));
    }
  }

  lemma {:induction false} Unsigned4(v: int)
    ensures LittleEndian(Int32Bytes(v)) == v % 0x1_0000_0000
  {
    var u := v % 0x1_0000_0000;
    UnsignedBytes(u);
    LittleEndianOf4(u % 256, u / 256 % 256, u / 65536 % 256, u / 16777216);
  }

  lemma {:induction false} PowersOf256()
    ensures Pow(256, 4) == 0x1_0000_0000 && Half(8) == 0x8000_0000_0000_0000
  {
    HalfOf4();
    assert Pow(256, 4) == 256 * Pow(256, 3) && Pow(256, 5) == 256 * Pow(256, 4);
    assert Pow(256, 6) == 256 * Pow(256, 5) && Pow(256, 7) == 256 * Pow(256, 6);
  }

  lemma {:induction false} TwoWords(v: int)
    requires -0x8000_0000_0000_0000 <= v < 0x8000_0000_0000_0000
    ensures v % 0x1_0000_0000 + v / 0x1_0000_0000 % 0x1_0000_0000 * 0x1_0000_0000
         == if v < 0 then v + 0x1_0000_0000_0000_0000 else v
  {
    var low, high := v % 0x1_0000_0000, v / 0x1_0000_0000;
    assert v == high * 0x1_0000_0000 + low;
    assert -0x8000_0000 <= high < 0x8000_0000;
  }

  lemma {:induction false} LongIsTwoWords(v: int)
    ensures LittleEndian(Int64Bytes(v)) == v % 0x1_0000_0000 + v / 0x1_0000_0000 % 0x1_0000_0000 * 0x1_0000_0000
  {
    var high := v / 0x1_0000_0000;
    Unsigned4(v);
    Unsigned4(high);
    LittleAppend(Int32Bytes(v), Int32Bytes(high));
    PowersOf256();
  }

  /** A long is written least significant byte first. */
  lemma {:induction false} LongWritten(v: int, dest: Dest)
    requires -0x8000_0000_0000_0000 <= v < 0x8000_0000_0000_0000
    ensures var r := Converted(P.LongV(v), dest);
            r.Some? && |r.value| == 8 && AsSigned(LittleEndian(r.value), 8) == v
  {
    LongIsTwoWords(v);
    TwoWords(v);
    PowersOf256();
  }

  /** A string of single-byte characters is written character by character. */
  lemma {:induction false} TextWritten(s: string, dest: Dest, i: nat)
    requires i < |s| && forall k :: 0 <= k < |s| ==> s[k] as int < 256
    ensures var r := Converted(P.StrV(s), dest);
            r.Some? && |r.value| == |s| && r.value[i] as int == s[i] as int
  {
    TextLength(s);
    if i > 0 {
      TextWritten(s[1..], dest, i - 1);
    }
  }

  lemma {:induction false} TextLength(s: string)
    ensures |TextBytes(s)| == |s|
  {
    if s != "" {
      TextLength(s[1..]);
    }
  }

  // ---------------------------------------------------------------- CASE over the machine

  /** How a value and its type become a token of the machine. */
  type Parser = Lexeme -> P.Token

  function Parsed(parse: Parser, xs: seq<Lexeme>): (ts: seq<P.Token>)
    ensures |ts| == |xs| && forall i :: 0 <= i < |xs| ==> ts[i] == parse(xs[i])
  {
    if xs == [] then [] else [parse(xs[0])] + Parsed(parse, xs[1..])
  }

  /** The byte calculCase looks at. */
  function PassedByte(r: Option<Row>): Byte { if r.Some? && r.value != [] then r.value[0] else 0 }

  /** calculPostfix behind CASE: conditions by the byte it writes, arms by the bytes, every CASE
      being declared as an int (calculForReturnData). */
  function MachineOracle(parse: Parser, stoi: Lexeme -> CInt): Oracle<Lexeme> {
    Oracle(xs => PassedByte(Written(RunTokens(Parsed(parse, xs)), OtherType)) == 1,
           xs => ArmBytes(Written(RunTokens(Parsed(parse, xs)), Int32)),
           stoi)
  }

  function ArmBytes(r: Option<Row>): Row { if r.Some? then r.value else [] }

  /** A comparison of two strings that has an answer. */
  datatype Test = Test(op: P.Op, s: string, t: string)

  ghost predicate Answers(x: Test) {
    P.IsComparison(x.op) && P.Compare(x.op, x.s, x.t).Some?
  }

  ghost predicate True(x: Test) {
    P.IsComparison(x.op) && P.Compare(x.op, x.s, x.t) == Some(true)
  }

  /** Three tokens in postfix order that spell a test. */
  ghost predicate SpellsTest(parse: Parser, xs: seq<Lexeme>, x: Test) {
    && |xs| == 3 && Answers(x)
    && IsText(parse(xs[0]), x.s) && IsText(parse(xs[1]), x.t) && parse(xs[2]) == P.Operator(x.op)
  }

  /** The machine answers the test. */
  lemma {:induction false} TestPasses(parse: Parser, stoi: Lexeme -> CInt, xs: seq<Lexeme>, x: Test)
    requires SpellsTest(parse, xs, x)
    ensures MachineOracle(parse, stoi).passes(xs) <==> True(x)
  {
    var l, r := P.Leaf(parse(xs[0])), P.Leaf(parse(xs[1]));
    P.ConditionAnswers(x.op, l, r, true);
    P.ConditionAnswers(x.op, l, r, false);
    assert Parsed(parse, xs) == P.Post(P.Node(x.op, l, r));
  }

  /** `x LIKE p` for a pattern that merge reads as SQL does. */
  lemma {:induction false} LikeTestIsLike(x: Test)
    requires x.op.Like? && L.PercentAtAnEnd(x.t) && '%' !in L.Find(x.t) && |L.Find(x.t)| <= |x.s|
    ensures Answers(x) && (True(x) <==> L.Matches(x.s, x.t))
  {
    L.PlainFindAgrees(x.s, x.t);
  }

  ghost predicate SpellsTests(parse: Parser, first: seq<Lexeme>, rest: seq<(Connective, seq<Lexeme>)>, tests: seq<Test>)
    decreases |rest|
  {
    && |tests| == |rest| + 1 && SpellsTest(parse, first, tests[0])
    && (rest != [] ==> SpellsTests(parse, rest[0].1, rest[1..], tests[1..]))
  }

  ghost function Verdicts(tests: seq<Test>): (vs: seq<bool>)
    ensures |vs| == |tests|
  {
    if tests == [] then [] else [True(tests[0])] + Verdicts(tests[1..])
  }

  lemma {:induction false} TruthsAreVerdicts(parse: Parser, stoi: Lexeme -> CInt, first: seq<Lexeme>,
                                             rest: seq<(Connective, seq<Lexeme>)>, tests: seq<Test>)
    requires SpellsTests(parse, first, rest, tests)
    ensures Truths(MachineOracle(parse, stoi), first, rest) == Verdicts(tests)
    decreases |rest|
  {
    TestPasses(parse, stoi, first, tests[0]);
    if rest == [] {
      assert Verdicts(tests[1..]) == [];
    } else {
      TruthsAreVerdicts(parse, stoi, rest[0].1, rest[1..], tests[1..]);
    }
  }

  /** WHEN tests joined by links THEN value. */
  datatype Choice = Choice(tests: seq<Test>, links: seq<Connective>, value: CInt)

  ghost predicate SpellsChoice(parse: Parser, stoi: Lexeme -> CInt, a: Arm<Lexeme>, c: Choice) {
    && SpellsTests(parse, a.cond.first, a.cond.rest, c.tests) && c.links == Links(a.cond.rest)
    && |a.result| == 1 && stoi(a.result[0]) == c.value
  }

  /** The value of the first choice whose tests, read right-nested, are true. */
  ghost function Chosen(cs: seq<Choice>, otherwise: CInt): CInt
    requires forall i :: 0 <= i < |cs| ==> |cs[i].tests| == |cs[i].links| + 1
  {
    if cs == [] then otherwise
    else if RightNested(Verdicts(cs[0].tests), cs[0].links) then cs[0].value
    else Chosen(cs[1..], otherwise)
  }

  lemma {:induction false} ChoiceHolds(parse: Parser, stoi: Lexeme -> CInt, a: Arm<Lexeme>, c: Choice)
    requires SpellsChoice(parse, stoi, a, c)
    ensures |c.tests| == |c.links| + 1
    ensures CondHolds(MachineOracle(parse, stoi), a.cond) == RightNested(Verdicts(c.tests), c.links)
  {
    NestedIsRightNested(MachineOracle(parse, stoi), a.cond.first, a.cond.rest);
    TruthsAreVerdicts(parse, stoi, a.cond.first, a.cond.rest, c.tests);
  }

  /** CASE and the machine together: with comparisons of strings for conditions and single ints
      for results, the four bytes the interpreter writes, read as an int, are the value of the
      first choice that applies. */
  lemma {:induction false} CaseOverMachine(parse: Parser, stoi: Lexeme -> CInt, arms: seq<Arm<Lexeme>>,
                                           cs: seq<Choice>, otherwise: Lexeme)
    requires |arms| == |cs| && forall i :: 0 <= i < |arms| ==> SpellsChoice(parse, stoi, arms[i], cs[i])
    ensures forall i :: 0 <= i < |cs| ==> |cs[i].tests| == |cs[i].links| + 1
    ensures var bytes := CaseValue(MachineOracle(parse, stoi), Int32, arms, otherwise);
            |bytes| == 4 && ReadInt(bytes) == Chosen(cs, stoi(otherwise))
    decreases |arms|
  {
    if arms == [] {
      IntReadBack(stoi(otherwise));
    } else {
      ChoiceHolds(parse, stoi, arms[0], cs[0]);
      IntReadBack(cs[0].value);
      CaseOverMachine(parse, stoi, arms[1..], cs[1..], otherwise);
      forall i | 0 <= i < |cs| ensures |cs[i].tests| == |cs[i].links| + 1 {
        ChoiceHolds(parse, stoi, arms[i], cs[i]);
      }
    }
  }

  /** An arm that computes something writes nothing, because CASE is declared as an int. */
  lemma {:induction false} ComputedArmWritesNothing(parse: Parser, stoi: Lexeme -> CInt, xs: seq<Lexeme>, e: P.Expr)
    requires P.Proper(e) && P.Good(e) && e.Node? && Parsed(parse, xs) == P.Post(e)
    ensures ResultOf(MachineOracle(parse, stoi), xs) == []
  {
    ComputedWritesNothing(e, Int32);
    assert |P.Post(e)| > 1;
  }
}
