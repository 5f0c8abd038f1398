/** CASE WHEN ... THEN ... ELSE ... END (merge_manager.cc, calculCase): an interpreter over
    the flat token list, against the expression the tokens spell. */
module CaseWhen {
  import opened Rows
  import opened BigEndian
  import opened Decimal

  datatype Connective = AND | OR

  datatype Token<T> = Case | When | Then | Else | End | Link(c: Connective) | Operand(t: T)

  /** An int of the target. */
  type CInt = v: int | -0x8000_0000 <= v < 0x8000_0000

  /** What calculPostfix makes of a condition (passed_[0]) and of an arm of several tokens,
      and stoi of a single token. */
  datatype Oracle<!T> = Oracle(passes: seq<T> -> bool, evaluate: seq<T> -> Row, stoi: T -> CInt)

  // ---------------------------------------------------------------- expressions

  /** c1 op c2 op ... : conditions joined by connectives. */
  datatype Cond<T> = Cond(first: seq<T>, rest: seq<(Connective, seq<T>)>)

  datatype Arm<T> = Arm(cond: Cond<T>, result: seq<T>)

  datatype CaseExpr<T> = CaseExpr(arms: seq<Arm<T>>, otherwise: T)

  ghost predicate WellFormed<T>(c: CaseExpr<T>) {
    WellFormedArms(c.arms)
  }

  ghost predicate WellFormedCond<T>(c: Cond<T>) {
    c.first != [] && forall i :: 0 <= i < |c.rest| ==> c.rest[i].1 != []
  }

  /** The right-nested reading: the first condition, its connective, and everything behind. */
  function Nested<T>(o: Oracle<T>, first: seq<T>, rest: seq<(Connective, seq<T>)>): bool
    decreases |rest|
  {
    if rest == [] then o.passes(first)
    else if rest[0].0.AND? then o.passes(first) && Nested(o, rest[0].1, rest[1..])
    else o.passes(first) || Nested(o, rest[0].1, rest[1..])
  }

  function CondHolds<T>(o: Oracle<T>, c: Cond<T>): bool { Nested(o, c.first, c.rest) }

  /** The four bytes of an int, least significant first. */
  function Int32Bytes(v: int): (r: Row)
    ensures |r| == 4
  {
    var u := v % 0x1_0000_0000;
    [u % 256, u / 256 % 256, u / 65536 % 256, u / 16777216]
  }

  /** Four bytes as the target reads an int. */
  function ReadInt(bytes: Row): int { AsSigned(LittleEndian(bytes), 4) }

  lemma {:induction false} LittleEndianOf4(a: Byte, b: Byte, c: Byte, d: Byte)
    ensures LittleEndian([a, b, c, d]) == a as int + 256 * b as int + 65536 * c as int + 16777216 * d as int
  {
    var s := [a, b, c, d];
    assert s[1..] == [b, c, d] && [b, c, d][1..] == [c, d] && [c, d][1..] == [d] && [d][1..] == [];
    assert LittleEndian([d]) == d as int + 256 * LittleEndian([]);
    assert LittleEndian([c, d]) == c as int + 256 * LittleEndian([d]);
    assert LittleEndian([b, c, d]) == b as int + 256 * LittleEndian([c, d]);
  }

  lemma {:induction false} HalfOf4()
    ensures Half(4) == 0x8000_0000
  {
    assert Pow(256, 1) == 256 * Pow(256, 0) && Pow(256, 2) == 256 * Pow(256, 1) && Pow(256, 3) == 256 * Pow(256, 2);
  }

  lemma {:induction false} UnsignedBytes(u: nat)
    requires u < 0x1_0000_0000
    ensures u == u % 256 + 256 * (u / 256 % 256) + 65536 * (u / 65536 % 256) + 16777216 * (u / 16777216)
  {
    var a, b, c := u / 256, u / 65536, u / 16777216;
    assert u == 256 * a + u % 256;
    assert a == 256 * b + a % 256;
    assert b == 256 * c + b % 256;
  }

  /** What is written is read back, for every int. */
  lemma {:induction false} IntReadBack(v: CInt)
    ensures ReadInt(Int32Bytes(v)) == v
  {
    var n: int := v;
    var u := n % 0x1_0000_0000;
    UnsignedBytes(u);
    LittleEndianOf4(u % 256, u / 256 % 256, u / 65536 % 256, u / 16777216);
    HalfOf4();
  }

  function ResultOf<T>(o: Oracle<T>, result: seq<T>): Row {
    if |result| == 1 then Int32Bytes(o.stoi(result[0])) else o.evaluate(result)
  }

  /** The declared type of the result, as far as ELSE tells types apart. */
  datatype Dest = Int32 | NewDecimal | OtherType

  /** What ELSE writes: the int, for a decimal always 0.00, and nothing for other types. */
  function ElseValue<T>(o: Oracle<T>, dest: Dest, otherwise: T): Row {
    match dest
    case Int32 => Int32Bytes(o.stoi(otherwise))
    case NewDecimal => [0x80, 0, 0, 0, 0, 0, 0]
    case OtherType => []
  }

  /** The first passing arm, or else ELSE. */
  function CaseValue<T>(o: Oracle<T>, dest: Dest, arms: seq<Arm<T>>, otherwise: T): Row {
    if arms == [] then ElseValue(o, dest, otherwise)
    else if CondHolds(o, arms[0].cond) then ResultOf(o, arms[0].result)
    else CaseValue(o, dest, arms[1..], otherwise)
  }

  // ---------------------------------------------------------------- token lists

  function Ops<T>(xs: seq<T>): (r: seq<Token<T>>)
    ensures |r| == |xs| && forall i :: 0 <= i < |xs| ==> r[i] == Operand(xs[i])
  {
    if xs == [] then [] else [Operand(xs[0])] + Ops(xs[1..])
  }

  function RestTokens<T>(rest: seq<(Connective, seq<T>)>): seq<Token<T>> {
    if rest == [] then [] else [Link(rest[0].0)] + Ops(rest[0].1) + RestTokens(rest[1..])
  }

  function CondTokens<T>(c: Cond<T>): seq<Token<T>> { Ops(c.first) + RestTokens(c.rest) }

  function ArmTokens<T>(a: Arm<T>): seq<Token<T>> {
    [When] + CondTokens(a.cond) + [Then] + Ops(a.result)
  }

  function ArmsTokens<T>(arms: seq<Arm<T>>): seq<Token<T>> {
    if arms == [] then [] else ArmTokens(arms[0]) + ArmsTokens(arms[1..])
  }

  function Tokens<T>(c: CaseExpr<T>): seq<Token<T>> {
    [Case] + ArmsTokens(c.arms) + [Else, Operand(c.otherwise), End]
  }

  // ---------------------------------------------------------------- finding the keywords

  /** What the first loop has collected: the last WHEN, the WHEN/THEN pairs, the ELSE. */
  datatype Marks = Marks(when: nat, pairs: seq<(nat, nat)>, els: nat)

  function Mark<T>(m: Marks, t: Token<T>, pos: nat): Marks {
    match t
    case When => m.(when := pos)
    case Then => m.(pairs := m.pairs + [(m.when, pos)])
    case Else => m.(els := pos)
    case _ => m
  }

  function MarkAll<T>(m: Marks, ts: seq<Token<T>>, pos: nat): Marks
    decreases |ts|
  {
    if ts == [] then m else MarkAll(Mark(m, ts[0], pos), ts[1..], pos + 1)
  }

  lemma {:induction false} MarkAppend<T>(m: Marks, a: seq<Token<T>>, b: seq<Token<T>>, pos: nat)
    ensures MarkAll(m, a + b, pos) == MarkAll(MarkAll(m, a, pos), b, pos + |a|)
    decreases |a|
  {
    if a == [] {
      assert a + b == b;
    } else {
      assert (a + b)[1..] == a[1..] + b;
      MarkAppend(Mark(m, a[0], pos), a[1..], b, pos + 1);
    }
  }

  /** Tokens of conditions and arms leave no mark. */
  ghost predicate Silent<T>(ts: seq<Token<T>>) {
    forall i :: 0 <= i < |ts| ==> ts[i].Operand? || ts[i].Link?
  }

  lemma {:induction false} MarkSilent<T>(m: Marks, ts: seq<Token<T>>, pos: nat)
    requires Silent(ts)
    ensures MarkAll(m, ts, pos) == m
    decreases |ts|
  {
    if ts != [] {
      MarkSilent(m, ts[1..], pos + 1);
    }
  }

  lemma {:induction false} RestSilent<T>(rest: seq<(Connective, seq<T>)>)
    ensures Silent(RestTokens(rest))
    decreases |rest|
  {
    if rest != [] {
      RestSilent(rest[1..]);
    }
  }

  function ThenOf<T>(a: Arm<T>, start: nat): nat { start + 1 + |CondTokens(a.cond)| }

  lemma {:induction false} MarkOne<T>(m: Marks, t: Token<T>, pos: nat)
    ensures MarkAll(m, [t], pos) == Mark(m, t, pos)
  {
  }

  lemma {:induction false} MarkArm<T>(m: Marks, a: Arm<T>, pos: nat)
    ensures MarkAll(m, ArmTokens(a), pos) == m.(when := pos, pairs := m.pairs + [(pos, ThenOf(a, pos))])
  {
    var cond := CondTokens(a.cond);
    RestSilent(a.cond.rest);
    MarkAppend(m, [When] + cond + [Then], Ops(a.result), pos);
    MarkAppend(m, [When] + cond, [Then], pos);
    MarkAppend(m, [When], cond, pos);
    MarkOne<T>(m, When, pos);
    var m1 := m.(when := pos);
    MarkSilent(m1, cond, pos + 1);
    MarkOne<T>(m1, Then, ThenOf(a, pos));
    MarkSilent(m1.(pairs := m.pairs + [(pos, ThenOf(a, pos))]), Ops(a.result), pos + |[When] + cond + [Then]|);
  }

  /** The WHEN/THEN pairs of arms whose tokens start at `pos`. */
  function Pairs<T>(arms: seq<Arm<T>>, pos: nat): seq<(nat, nat)> {
    if arms == [] then []
    else [(pos, ThenOf(arms[0], pos))] + Pairs(arms[1..], pos + |ArmTokens(arms[0])|)
  }

  lemma {:induction false} MarkArms<T>(m: Marks, arms: seq<Arm<T>>, pos: nat)
    ensures MarkAll(m, ArmsTokens(arms), pos).pairs == m.pairs + Pairs(arms, pos)
    ensures MarkAll(m, ArmsTokens(arms), pos).els == m.els
    decreases |arms|
  {
    if arms == [] {
      Unit(m.pairs);
    } else {
      var a, rest, next := arms[0], arms[1..], pos + |ArmTokens(arms[0])|;
      var pair := (pos, ThenOf(a, pos));
      MarkAppend(m, ArmTokens(a), ArmsTokens(rest), pos);
      MarkArm(m, a, pos);
      MarkArms(m.(when := pos, pairs := m.pairs + [pair]), rest, next);
      Assoc(m.pairs, [pair], Pairs(rest, next));
      assert Pairs(arms, pos) == [pair] + Pairs(rest, next);
    }
  }

  function Tail<T>(otherwise: T): seq<Token<T>> { [Else, Operand(otherwise), End] }

  lemma {:induction false} MarkTail<T>(m: Marks, otherwise: T, pos: nat)
    ensures MarkAll(m, Tail(otherwise), pos) == m.(els := pos)
  {
    var tail, m1 := Tail(otherwise), m.(els := pos);
    assert tail[1..][1..] == [End];
    MarkOne<T>(m1, End, pos + 2);
  }

  /** The first loop finds every arm and the ELSE. */
  lemma {:induction false} MarksFound<T>(c: CaseExpr<T>)
    ensures var m := MarkAll(Marks(0, [], 0), Tokens(c)[1..], 1);
            m.pairs == Pairs(c.arms, 1) && m.els == 1 + |ArmsTokens(c.arms)|
  {
    assert Tokens(c)[1..] == ArmsTokens(c.arms) + Tail(c.otherwise);
    MarkArms(Marks(0, [], 0), c.arms, 1);
    MarkAppend(Marks(0, [], 0), ArmsTokens(c.arms), Tail(c.otherwise), 1);
    MarkTail(MarkAll(Marks(0, [], 0), ArmsTokens(c.arms), 1), c.otherwise, 1 + |ArmsTokens(c.arms)|);
    Unit(Pairs(c.arms, 1));
  }

  method FindKeywords<T>(ts: seq<Token<T>>) returns (pairs: seq<(nat, nat)>, els: nat)
    requires ts != []
    ensures var m := MarkAll(Marks(0, [], 0), ts[1..], 1);
            pairs == m.pairs && els == m.els
  {
    var when: nat := 0;
    pairs, els := [], 0;
    for i := 1 to |ts|
      invariant MarkAll(Marks(0, [], 0), ts[1..], 1) == MarkAll(Marks(when, pairs, els), ts[i..], i)
    {
      assert ts[i..][0] == ts[i] && ts[i..][1..] == ts[i + 1..];
      match ts[i] {
        case When => when := i;
        case Then => pairs := pairs + [(when, i)];
        case Else => els := i;
        case _ =>
      }
    }
  }

  // ---------------------------------------------------------------- one condition

  /** The condition loop from where `acc` has been collected and `ts` is left. */
  function Judge<T>(o: Oracle<T>, acc: seq<T>, ts: seq<Token<T>>): bool
    requires Silent(ts)
    decreases |ts|
  {
    if ts == [] then o.passes(acc)
    else if ts[0].Operand? then Judge(o, acc + [ts[0].t], ts[1..])
    else if ts[0].c.AND? then o.passes(acc) && Judge(o, [], ts[1..])
    else o.passes(acc) || Judge(o, [], ts[1..])
  }

  lemma {:induction false} JudgeOps<T>(o: Oracle<T>, acc: seq<T>, xs: seq<T>, ts: seq<Token<T>>)
    requires Silent(ts)
    ensures Silent(Ops(xs) + ts) && Judge(o, acc, Ops(xs) + ts) == Judge(o, acc + xs, ts)
    decreases |xs|
  {
    if xs == [] {
      assert Ops(xs) + ts == ts && acc + xs == acc;
    } else {
      assert (Ops(xs) + ts)[1..] == Ops(xs[1..]) + ts;
      JudgeOps(o, acc + [xs[0]], xs[1..], ts);
      assert acc + [xs[0]] + xs[1..] == acc + xs;
    }
  }

  /** The loop reads a condition right-nested. */
  lemma {:induction false} JudgeIsNested<T>(o: Oracle<T>, first: seq<T>, rest: seq<(Connective, seq<T>)>)
    ensures Silent(Ops(first) + RestTokens(rest)) && Judge(o, [], Ops(first) + RestTokens(rest)) == Nested(o, first, rest)
    decreases |rest|
  {
    RestSilent(rest);
    JudgeOps(o, [], first, RestTokens(rest));
    Unit(first);
    if rest != [] {
      var inner := Ops(rest[0].1) + RestTokens(rest[1..]);
      JudgeIsNested(o, rest[0].1, rest[1..]);
      RestCons(rest);
      assert Judge(o, first, RestTokens(rest))
          == if rest[0].0.AND? then o.passes(first) && Judge(o, [], inner) else o.passes(first) || Judge(o, [], inner);
    }
  }

  lemma {:induction false} RestCons<T>(rest: seq<(Connective, seq<T>)>)
    requires rest != []
    ensures var ts := RestTokens(rest);
            ts != [] && ts[0] == Link(rest[0].0) && ts[1..] == Ops(rest[0].1) + RestTokens(rest[1..])
  {
  }

  /** The tokens between WHEN and THEN, evaluated with early exit. */
  method EvalCondition<T>(o: Oracle<T>, ts: seq<Token<T>>, when: nat, then_: nat) returns (passed: bool)
    requires when + 1 < then_ <= |ts| && Silent(ts[when + 1..then_]) && ts[then_ - 1].Operand?
    ensures passed == Judge(o, [], ts[when + 1..then_])
  {
    var i, acc: seq<T> := when + 1, [];
    passed := true;
    while i < then_
      invariant when + 1 <= i <= then_
      invariant i < then_ ==> passed && Silent(ts[i..then_])
      invariant i < then_ ==> Judge(o, [], ts[when + 1..then_]) == Judge(o, acc, ts[i..then_])
      invariant i == then_ ==> Judge(o, [], ts[when + 1..then_]) == passed
    {
      ghost var left := ts[i..then_];
      assert left[0] == ts[i] && left[1..] == ts[i + 1..then_];
      if ts[i] == Link(AND) {
        if o.passes(acc) {
          acc := [];
          i := i + 1;
        } else {
          passed := false;
          break;
        }
      } else if ts[i] == Link(OR) {
        if o.passes(acc) {
          break;
        } else {
          acc := [];
          i := i + 1;
        }
      } else {
        acc := acc + [ts[i].t];
        i := i + 1;
        if i == then_ {
          passed := o.passes(acc);
          acc := [];
        }
      }
    }
  }

  // ---------------------------------------------------------------- the whole CASE

  /** The tokens of an arm's result: up to the next WHEN, ELSE or END. */
  method ReadResult<T>(ts: seq<Token<T>>, from: nat, ghost result: seq<T>) returns (values: seq<T>)
    requires from + |result| < |ts| && forall i :: 0 <= i < |result| ==> ts[from + i] == Operand(result[i])
    requires ts[from + |result|] == When || ts[from + |result|] == Else
    ensures values == result
  {
    values := [];
    var i := from;
    assert result != [] ==> ts[from + 0] == Operand(result[0]);
    while !(ts[i] == When || ts[i] == Else || ts[i] == End)
      invariant from <= i <= from + |result| && values == result[..i - from]
      invariant i < from + |result| ==> ts[i] == Operand(result[i - from])
      decreases from + |result| - i
    {
      values := values + [ts[i].t];
      i := i + 1;
      assert i < from + |result| ==> ts[from + (i - from)] == Operand(result[i - from]);
    }
  }

  /** An arm whose tokens stand at `pos`. */
  ghost predicate StandsAt<T>(ts: seq<Token<T>>, a: Arm<T>, pos: nat) {
    var t := ThenOf(a, pos);
    && pos + |ArmTokens(a)| < |ts| && pos + |ArmTokens(a)| == t + 1 + |a.result|
    && ts[pos + 1..t] == CondTokens(a.cond)
    && (forall i :: 0 <= i < |a.result| ==> ts[t + 1 + i] == Operand(a.result[i]))
    && (ts[pos + |ArmTokens(a)|] == When || ts[pos + |ArmTokens(a)|] == Else)
  }

  lemma {:induction false} ArmStands<T>(ts: seq<Token<T>>, pos: nat, arms: seq<Arm<T>>, otherwise: T)
    requires arms != [] && pos <= |ts| && ts[pos..] == ArmsTokens(arms) + Tail(otherwise)
    ensures StandsAt(ts, arms[0], pos)
    ensures pos + |ArmTokens(arms[0])| <= |ts|
    ensures ts[pos + |ArmTokens(arms[0])|..] == ArmsTokens(arms[1..]) + Tail(otherwise)
  {
    var a, later := arms[0], ArmsTokens(arms[1..]) + Tail(otherwise);
    Assoc(ArmTokens(a), ArmsTokens(arms[1..]), Tail(otherwise));
    FirstOfArms(arms[1..], otherwise);
    LaterSlice(ts, pos, ArmTokens(a), later);
    PiecesStand(ts, pos, a, later);
  }

  lemma {:induction false} PiecesStand<T>(ts: seq<Token<T>>, pos: nat, a: Arm<T>, later: seq<Token<T>>)
    requires pos <= |ts| && ts[pos..] == ArmTokens(a) + later
    requires later != [] && (later[0] == When || later[0] == Else)
    ensures StandsAt(ts, a, pos)
  {
  }

  lemma {:induction false} FirstOfArms<T>(arms: seq<Arm<T>>, otherwise: T)
    ensures var ts := ArmsTokens(arms) + Tail(otherwise);
            ts[0] == When || ts[0] == Else
  {
  }

  lemma {:induction false} LaterSlice<A>(ts: seq<A>, pos: nat, x: seq<A>, y: seq<A>)
    requires pos <= |ts| && ts[pos..] == x + y
    ensures pos + |x| <= |ts| && ts[pos + |x|..] == y
    ensures y != [] ==> pos + |x| < |ts| && ts[pos + |x|] == y[0]
  {
  }

  lemma {:induction false} LastIsOperand<T>(c: Cond<T>)
    requires WellFormedCond(c)
    ensures var ts := CondTokens(c); ts != [] && Silent(ts) && ts[|ts| - 1].Operand?
  {
    RestSilent(c.rest);
    SilentAppend(Ops(c.first), RestTokens(c.rest));
    if c.rest != [] {
      RestEndsInOperand(c.rest);
      LastOfBoth(Ops(c.first), RestTokens(c.rest));
    } else {
      assert RestTokens(c.rest) == [];
      Unit(Ops(c.first));
    }
  }

  lemma {:induction false} SilentAppend<T>(a: seq<Token<T>>, b: seq<Token<T>>)
    requires Silent(a) && Silent(b)
    ensures Silent(a + b)
  {
  }

  lemma {:induction false} RestEndsInOperand<T>(rest: seq<(Connective, seq<T>)>)
    requires rest != [] && forall i :: 0 <= i < |rest| ==> rest[i].1 != []
    ensures var ts := RestTokens(rest); ts != [] && ts[|ts| - 1].Operand?
    decreases |rest|
  {
    var ops := [Link(rest[0].0)] + Ops(rest[0].1);
    if |rest| > 1 {
      RestEndsInOperand(rest[1..]);
      LastOfBoth(ops, RestTokens(rest[1..]));
    } else {
      assert RestTokens(rest[1..]) == [];
      Unit(ops);
      assert ops[|ops| - 1] == Ops(rest[0].1)[|rest[0].1| - 1];
    }
  }

  lemma {:induction false} LastOfBoth<A>(a: seq<A>, b: seq<A>)
    requires b != []
    ensures (a + b)[|a + b| - 1] == b[|b| - 1]
  {
  }

  method TryCondition<T>(o: Oracle<T>, ts: seq<Token<T>>, when: nat, then_: nat, ghost c: Cond<T>)
    returns (passed: bool)
    requires WellFormedCond(c) && then_ == when + 1 + |CondTokens(c)| <= |ts| && ts[when + 1..then_] == CondTokens(c)
    ensures passed == CondHolds(o, c)
  {
    LastIsOperand(c);
    JudgeIsNested(o, c.first, c.rest);
    assert ts[then_ - 1] == ts[when + 1..then_][|CondTokens(c)| - 1];
    passed := EvalCondition(o, ts, when, then_);
  }

  /** One WHEN/THEN pair: whether its arm applies, and then its value. */
  method TryArm<T>(o: Oracle<T>, ts: seq<Token<T>>, when: nat, then_: nat, ghost a: Arm<T>)
    returns (passed: bool, dest: Row)
    requires WellFormedCond(a.cond) && a.result != [] && then_ == when + 1 + |CondTokens(a.cond)|
    requires then_ + 1 + |a.result| < |ts| && ts[when + 1..then_] == CondTokens(a.cond)
    requires forall i :: 0 <= i < |a.result| ==> ts[then_ + 1 + i] == Operand(a.result[i])
    requires ts[then_ + 1 + |a.result|] == When || ts[then_ + 1 + |a.result|] == Else
    ensures passed == CondHolds(o, a.cond) && (passed ==> dest == ResultOf(o, a.result))
  {
    passed := TryCondition(o, ts, when, then_, a.cond);
    dest := [];
    if passed {
      var values := ReadResult(ts, then_ + 1, a.result);
      dest := WriteResult(o, values);
    }
  }

  method WriteResult<T>(o: Oracle<T>, values: seq<T>) returns (dest: Row)
    ensures dest == ResultOf(o, values)
  {
    if |values| == 1 {
      dest := Int32Bytes(o.stoi(values[0]));
    } else {
      dest := o.evaluate(values);
    }
  }

  /** calculCase on the tokens of any well-formed CASE and for any declared result type: the
      value of the first arm that passes, or else of ELSE. */
  method EvalCase<T>(o: Oracle<T>, dest: Dest, ts: seq<Token<T>>, ghost c: CaseExpr<T>) returns (value: Row)
    requires WellFormed(c) && ts == Tokens(c)
    ensures value == CaseValue(o, dest, c.arms, c.otherwise)
  {
    var pairs, els := FindKeywords(ts);
    MarksFound(c);
    ElseStands(c);
    AllPairsFit(ts, c.arms, c.otherwise, 1);
    var found: Option<Row> := TryArms(o, dest, ts, pairs, c.arms, c.otherwise);
    if found.Some? {
      return found.value;
    }
    var n := o.stoi(ts[els + 1].t);
    match dest {
      case Int32 => value := Int32Bytes(n);
      case NewDecimal => value := [0x80, 0, 0, 0, 0, 0, 0];
      case OtherType => value := [];
    }
  }

  lemma {:induction false} ElseStands<T>(c: CaseExpr<T>)
    ensures var ts, n := Tokens(c), |ArmsTokens(c.arms)|;
            && ts[1..] == ArmsTokens(c.arms) + Tail(c.otherwise)
            && 2 + n < |ts| && ts[2 + n] == Operand(c.otherwise)
  {
  }

  ghost predicate WellFormedArms<T>(arms: seq<Arm<T>>) {
    forall i :: 0 <= i < |arms| ==> arms[i].result != [] && WellFormedCond(arms[i].cond)
  }

  /** A WHEN/THEN pair points at the tokens of its arm. */
  ghost predicate PairFits<T>(ts: seq<Token<T>>, pair: (nat, nat), a: Arm<T>) {
    StandsAt(ts, a, pair.0) && pair.1 == ThenOf(a, pair.0)
  }

  lemma {:induction false} PairsLength<T>(arms: seq<Arm<T>>, pos: nat)
    ensures |Pairs(arms, pos)| == |arms|
    decreases |arms|
  {
    if arms != [] {
      PairsLength(arms[1..], pos + |ArmTokens(arms[0])|);
    }
  }

  lemma {:induction false} PairFitsAt<T>(ts: seq<Token<T>>, arms: seq<Arm<T>>, otherwise: T, pos: nat, k: nat)
    requires pos <= |ts| && ts[pos..] == ArmsTokens(arms) + Tail(otherwise) && k < |arms| == |Pairs(arms, pos)|
    ensures PairFits(ts, Pairs(arms, pos)[k], arms[k])
    decreases k
  {
    ArmStands(ts, pos, arms, otherwise);
    if k > 0 {
      PairFitsAt(ts, arms[1..], otherwise, pos + |ArmTokens(arms[0])|, k - 1);
    }
  }

  lemma {:induction false} AllPairsFit<T>(ts: seq<Token<T>>, arms: seq<Arm<T>>, otherwise: T, pos: nat)
    requires pos <= |ts| && ts[pos..] == ArmsTokens(arms) + Tail(otherwise)
    ensures |Pairs(arms, pos)| == |arms|
    ensures forall k :: 0 <= k < |arms| ==> PairFits(ts, Pairs(arms, pos)[k], arms[k])
  {
    PairsLength(arms, pos);
    forall k | 0 <= k < |arms| ensures PairFits(ts, Pairs(arms, pos)[k], arms[k]) {
      PairFitsAt(ts, arms, otherwise, pos, k);
    }
  }

  lemma {:induction false} ArmPieces<T>(ts: seq<Token<T>>, a: Arm<T>, when: nat)
    requires StandsAt(ts, a, when)
    ensures var then_ := ThenOf(a, when);
            && then_ == when + 1 + |CondTokens(a.cond)| && then_ + 1 + |a.result| < |ts|
            && ts[when + 1..then_] == CondTokens(a.cond)
            && (forall i :: 0 <= i < |a.result| ==> ts[then_ + 1 + i] == Operand(a.result[i]))
            && (ts[then_ + 1 + |a.result|] == When || ts[then_ + 1 + |a.result|] == Else)
  {
  }

  method TryPair<T>(o: Oracle<T>, ts: seq<Token<T>>, when: nat, then_: nat, ghost a: Arm<T>)
    returns (passed: bool, dest: Row)
    requires PairFits(ts, (when, then_), a) && a.result != [] && WellFormedCond(a.cond)
    ensures passed == CondHolds(o, a.cond) && (passed ==> dest == ResultOf(o, a.result))
  {
    ArmPieces(ts, a, when);
    passed, dest := TryArm(o, ts, when, then_, a);
  }

  /** The loop over the WHEN/THEN pairs. */
  method TryArms<T>(o: Oracle<T>, ghost dest: Dest, ts: seq<Token<T>>, pairs: seq<(nat, nat)>,
                    ghost arms: seq<Arm<T>>, ghost otherwise: T)
    returns (found: Option<Row>)
    requires WellFormedArms(arms) && |pairs| == |arms|
    requires forall k :: 0 <= k < |arms| ==> PairFits(ts, pairs[k], arms[k])
    ensures CaseValue(o, dest, arms, otherwise) == if found.Some? then found.value else ElseValue(o, dest, otherwise)
  {
    assert arms[0..] == arms;
    for k := 0 to |pairs|
      invariant CaseValue(o, dest, arms, otherwise) == CaseValue(o, dest, arms[k..], otherwise)
    {
      assert PairFits(ts, pairs[k], arms[k]);
      assert arms[k..][0] == arms[k] && arms[k..][1..] == arms[k + 1..];
      var passed, value := TryPair(o, ts, pairs[k].0, pairs[k].1, arms[k]);
      if passed {
        return Some(value);
      }
    }
    return None;
  }

  // ---------------------------------------------------------------- ELSE of a decimal CASE

  lemma {:induction false} ZeroEncoded()
    ensures Encode(Hundredths(0), 1) == [0x80, 0, 0, 0, 0, 0, 0]
  {
    EncodeHundredths(0);
    forall i | 0 <= i < 5 ensures ToBytes(0, 5)[i] == 0 {
      ToBytesAt(0, 5, i);
      assert 0 / Pow(256, 4 - i) == 0;
    }
    ToBytesAt(0, 1, 0);
    assert ToBytes(0, 5) == [0, 0, 0, 0, 0] && ToBytes(0, 1) == [0];
  }

  /** For a decimal result the value behind ELSE is ignored: what is written is its encoding
      exactly when that value is 0. */
  lemma {:induction false} DecimalElseIffZero<T>(o: Oracle<T>, otherwise: T)
    ensures ElseValue(o, NewDecimal, otherwise) == Encode(Hundredths(100 * o.stoi(otherwise)), 1)
            <==> o.stoi(otherwise) == 0
  {
    ZeroEncoded();
    DecimalRoundTrip(0);
    DecimalRoundTrip(100 * o.stoi(otherwise));
  }

  // ---------------------------------------------------------------- keywords as text

  /** An element of `values` with its `types` entry. */
  datatype Lexeme = Lexeme(value: string, kind: int)

  predicate IsKeyword(s: string) {
    s == "WHEN" || s == "THEN" || s == "ELSE" || s == "END" || s == "AND" || s == "OR"
  }

  /** The comparisons with keywords look at the text only, whatever the type. */
  function Read(x: Lexeme): Token<Lexeme> {
    if x.value == "WHEN" then When
    else if x.value == "THEN" then Then
    else if x.value == "ELSE" then Else
    else if x.value == "END" then End
    else if x.value == "AND" then Link(AND)
    else if x.value == "OR" then Link(OR)
    else Operand(x)
  }

  function ReadAll(raw: seq<Lexeme>): (ts: seq<Token<Lexeme>>)
    ensures |ts| == |raw| && forall i :: 0 <= i < |raw| ==> ts[i] == Read(raw[i])
  {
    if raw == [] then [] else [Read(raw[0])] + ReadAll(raw[1..])
  }

  /** A lexeme that writes a token down. */
  predicate Spells(x: Lexeme, t: Token<Lexeme>) {
    match t
    case Case => x.value == "CASE"
    case When => x.value == "WHEN"
    case Then => x.value == "THEN"
    case Else => x.value == "ELSE"
    case End => x.value == "END"
    case Link(c) => x.value == (if c.AND? then "AND" else "OR")
    case Operand(y) => x == y
  }

  ghost predicate SpellsAll(raw: seq<Lexeme>, ts: seq<Token<Lexeme>>) {
    |raw| == |ts| && forall i :: 0 <= i < |ts| ==> Spells(raw[i], ts[i])
  }

  ghost predicate NoKeywordOperand(ts: seq<Token<Lexeme>>) {
    forall i :: 0 <= i < |ts| && ts[i].Operand? ==> !IsKeyword(ts[i].t.value)
  }

  /** Written down and read again a list is the same exactly when no operand, a string
      constant for instance, is spelled like a keyword. */
  lemma {:induction false} ReadBackIff(raw: seq<Lexeme>, ts: seq<Token<Lexeme>>)
    requires SpellsAll(raw, ts) && forall i :: 0 <= i < |ts| ==> !ts[i].Case?
    ensures ReadAll(raw) == ts <==> NoKeywordOperand(ts)
  {
    forall i | 0 <= i < |ts| ensures Read(raw[i]) == ts[i] <==> (ts[i].Operand? ==> !IsKeyword(ts[i].t.value)) {
      assert Spells(raw[i], ts[i]);
    }
    if NoKeywordOperand(ts) {
      assert ReadAll(raw) == ts;
    } else {
      var i :| 0 <= i < |ts| && ts[i].Operand? && IsKeyword(ts[i].t.value);
      assert ReadAll(raw)[i] != ts[i];
    }
  }

  lemma {:induction false} CaseOnlyFirst<T>(c: CaseExpr<T>, i: nat)
    requires 0 < i < |Tokens(c)|
    ensures !Tokens(c)[i].Case?
  {
    ElseStands(c);
    ArmsHaveNoCase(c.arms);
    assert Tokens(c)[i] == Tokens(c)[1..][i - 1];
  }

  ghost predicate NoCase<T>(ts: seq<Token<T>>) { forall i :: 0 <= i < |ts| ==> !ts[i].Case? }

  lemma {:induction false} ArmsHaveNoCase<T>(arms: seq<Arm<T>>)
    ensures NoCase(ArmsTokens(arms))
    decreases |arms|
  {
    if arms != [] {
      RestSilent(arms[0].cond.rest);
      ArmsHaveNoCase(arms[1..]);
      assert NoCase(ArmTokens(arms[0]));
    }
  }

  /** calculCase on the text of any well-formed CASE whose operands are not spelled like
      keywords. */
  method CalculCase(o: Oracle<Lexeme>, dest: Dest, raw: seq<Lexeme>, ghost c: CaseExpr<Lexeme>) returns (value: Row)
    requires WellFormed(c) && SpellsAll(raw, Tokens(c)) && NoKeywordOperand(Tokens(c))
    ensures value == CaseValue(o, dest, c.arms, c.otherwise)
  {
    ghost var tail := Tokens(c)[1..];
    forall i | 0 <= i < |tail| ensures !tail[i].Case? && Spells(raw[1..][i], tail[i]) {
      CaseOnlyFirst(c, i + 1);
      assert Spells(raw[i + 1], Tokens(c)[i + 1]);
    }
    assert NoKeywordOperand(tail) by {
      forall i | 0 <= i < |tail| && tail[i].Operand? ensures !IsKeyword(tail[i].t.value) {
        assert tail[i] == Tokens(c)[i + 1];
      }
    }
    ReadBackIff(raw[1..], tail);
    var ts := [Case] + ReadAll(raw[1..]);
    value := EvalCase(o, dest, ts, c);
  }

  // ---------------------------------------------------------------- against SQL precedence

  /** The right-nested reading of truth values. */
  function RightNested(vs: seq<bool>, cs: seq<Connective>): bool
    requires |vs| == |cs| + 1
    decreases |cs|
  {
    if cs == [] then vs[0]
    else if cs[0].AND? then vs[0] && RightNested(vs[1..], cs[1..])
    else vs[0] || RightNested(vs[1..], cs[1..])
  }

  /** AND binds tighter than OR; `acc` is the conjunction in progress. */
  function Precedence(acc: bool, vs: seq<bool>, cs: seq<Connective>): bool
    requires |vs| == |cs| + 1
    decreases |cs|
  {
    if cs == [] then acc && vs[0]
    else if cs[0].AND? then Precedence(acc && vs[0], vs[1..], cs[1..])
    else (acc && vs[0]) || Precedence(true, vs[1..], cs[1..])
  }

  function Truths<T>(o: Oracle<T>, first: seq<T>, rest: seq<(Connective, seq<T>)>): (vs: seq<bool>)
    ensures |vs| == |rest| + 1
    decreases |rest|
  {
    [o.passes(first)] + if rest == [] then [] else Truths(o, rest[0].1, rest[1..])
  }

  function Links<T>(rest: seq<(Connective, seq<T>)>): (cs: seq<Connective>)
    ensures |cs| == |rest|
  {
    if rest == [] then [] else [rest[0].0] + Links(rest[1..])
  }

  lemma {:induction false} NestedIsRightNested<T>(o: Oracle<T>, first: seq<T>, rest: seq<(Connective, seq<T>)>)
    ensures Nested(o, first, rest) == RightNested(Truths(o, first, rest), Links(rest))
    decreases |rest|
  {
    if rest != [] {
      NestedIsRightNested(o, rest[0].1, rest[1..]);
      assert Truths(o, first, rest)[1..] == Truths(o, rest[0].1, rest[1..]);
      assert Links(rest)[1..] == Links(rest[1..]);
    }
  }

  ghost predicate NoAndBeforeOr(cs: seq<Connective>) {
    forall i, j :: 0 <= i < j < |cs| && cs[i].AND? ==> cs[j].AND?
  }

  ghost predicate AllTrue(vs: seq<bool>) { forall i :: 0 <= i < |vs| ==> vs[i] }

  lemma {:induction false} AllAnd(acc: bool, vs: seq<bool>, cs: seq<Connective>)
    requires |vs| == |cs| + 1 && forall i :: 0 <= i < |cs| ==> cs[i].AND?
    ensures RightNested(vs, cs) == AllTrue(vs) && Precedence(acc, vs, cs) == (acc && AllTrue(vs))
    decreases |cs|
  {
    assert AllTrue(vs) <==> vs[0] && AllTrue(vs[1..]) by {
      forall i | 1 <= i < |vs| ensures vs[i] == vs[1..][i - 1] {
      }
    }
    if cs != [] {
      AllAnd(acc && vs[0], vs[1..], cs[1..]);
    }
  }

  ghost predicate SomeTrue(vs: seq<bool>) { exists i :: 0 <= i < |vs| && vs[i] }

  lemma {:induction false} AllOr(vs: seq<bool>, cs: seq<Connective>)
    requires |vs| == |cs| + 1 && forall i :: 0 <= i < |cs| ==> cs[i].OR?
    ensures RightNested(vs, cs) == SomeTrue(vs) && Precedence(true, vs, cs) == SomeTrue(vs)
    decreases |cs|
  {
    assert SomeTrue(vs) <==> vs[0] || SomeTrue(vs[1..]) by {
      if SomeTrue(vs) && !vs[0] {
        var i :| 0 <= i < |vs| && vs[i];
        assert vs[1..][i - 1];
      }
      if SomeTrue(vs[1..]) {
        var i :| 0 <= i < |vs[1..]| && vs[1..][i];
        assert vs[i + 1];
      }
    }
    if cs != [] {
      AllOr(vs[1..], cs[1..]);
    }
  }

  /** With equal connectives a condition is the plain conjunction or disjunction of its parts. */
  lemma {:induction false} EqualConnectives<T>(o: Oracle<T>, c: Cond<T>)
    ensures (forall i :: 0 <= i < |c.rest| ==> c.rest[i].0.AND?) ==>
              CondHolds(o, c) == AllTrue(Truths(o, c.first, c.rest))
    ensures (forall i :: 0 <= i < |c.rest| ==> c.rest[i].0.OR?) ==>
              CondHolds(o, c) == SomeTrue(Truths(o, c.first, c.rest))
  {
    var vs, cs := Truths(o, c.first, c.rest), Links(c.rest);
    NestedIsRightNested(o, c.first, c.rest);
    LinksAt(c.rest);
    if forall i :: 0 <= i < |c.rest| ==> c.rest[i].0.AND? {
      AllAnd(true, vs, cs);
    }
    if forall i :: 0 <= i < |c.rest| ==> c.rest[i].0.OR? {
      AllOr(vs, cs);
    }
  }

  lemma {:induction false} LinksAt<T>(rest: seq<(Connective, seq<T>)>)
    ensures forall i :: 0 <= i < |rest| ==> Links(rest)[i] == rest[i].0
  {
    if rest != [] {
      LinksAt(rest[1..]);
    }
  }

  lemma {:induction false} ReadingsAgree(vs: seq<bool>, cs: seq<Connective>)
    requires |vs| == |cs| + 1 && NoAndBeforeOr(cs)
    ensures RightNested(vs, cs) == Precedence(true, vs, cs)
    decreases |cs|
  {
    if cs != [] {
      if cs[0].AND? {
        AllAnd(true, vs, cs);
      } else {
        ReadingsAgree(vs[1..], cs[1..]);
      }
    }
  }

  function Repeat(n: nat): (vs: seq<bool>)
    ensures |vs| == n && forall i :: 0 <= i < n ==> vs[i]
  {
    if n == 0 then [] else [true] + Repeat(n - 1)
  }

  lemma {:induction false} LaterOrWins(vs: seq<bool>, cs: seq<Connective>)
    requires |vs| == |cs| + 1 && AllTrue(vs) && OR in cs
    ensures Precedence(false, vs, cs)
    decreases |cs|
  {
    if cs[0].AND? {
      LaterOrWins(vs[1..], cs[1..]);
    } else {
      TrueThroughout(vs[1..], cs[1..]);
    }
  }

  lemma {:induction false} TrueThroughout(vs: seq<bool>, cs: seq<Connective>)
    requires |vs| == |cs| + 1 && AllTrue(vs)
    ensures Precedence(true, vs, cs)
    decreases |cs|
  {
    if cs != [] {
      TrueThroughout(vs[1..], cs[1..]);
    }
  }

  /** An AND in front of an OR has truth values on which the two readings differ. */
  lemma {:induction false} ReadingsDiffer(cs: seq<Connective>) returns (vs: seq<bool>)
    requires !NoAndBeforeOr(cs)
    ensures |vs| == |cs| + 1 && RightNested(vs, cs) != Precedence(true, vs, cs)
    decreases |cs|
  {
    if cs[0].AND? {
      vs := [false] + Repeat(|cs|);
      assert vs[1..] == Repeat(|cs|);
      var i, j :| 0 <= i < j < |cs| && cs[i].AND? && !cs[j].AND?;
      assert cs[1..][j - 1] == OR;
      LaterOrWins(vs[1..], cs[1..]);
    } else {
      var i, j :| 0 <= i < j < |cs| && cs[i].AND? && !cs[j].AND?;
      assert cs[1..][i - 1] == cs[i] && cs[1..][j - 1] == cs[j];
      var ws := ReadingsDiffer(cs[1..]);
      vs := [false] + ws;
      assert vs[1..] == ws;
    }
  }

  /** The interpreter's reading of c1 op c2 op ... is SQL's for all truth values exactly when
      no AND stands in front of an OR. */
  lemma {:induction false} RightNestedIffNoAndBeforeOr(cs: seq<Connective>)
    ensures NoAndBeforeOr(cs) <==>
            forall vs: seq<bool> :: |vs| == |cs| + 1 ==> RightNested(vs, cs) == Precedence(true, vs, cs)
  {
    if NoAndBeforeOr(cs) {
      forall vs: seq<bool> | |vs| == |cs| + 1 ensures RightNested(vs, cs) == Precedence(true, vs, cs) {
        ReadingsAgree(vs, cs);
      }
    } else {
      var vs := ReadingsDiffer(cs);
    }
  }
}
