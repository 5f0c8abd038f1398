/** The arithmetic of projections (merge_manager.cc, calculPostfix): a postfix stack
    machine that tracks the scale of decimals, against expression trees. */
module Postfix {
  import opened Rows
  import L = Like

  /** A stack entry: INT_, Long_, STRING_ or DOUBLE_ with its real_size. */
  datatype Val = IntV(i: int) | LongV(l: int) | StrV(s: string) | DblV(d: real, realSize: nat)

  datatype Op = Plus | Minus | Times | Divide | Equal | NotEqual | Like

  /** A constant, a column with its declared type and length, a constant of a type that is not
      read (NUMERIC, DATE), or an operator. */
  datatype Token =
    | Constant(v: Val) | Column(v: Val, declaredType: int, declaredLength: nat) | Unread | Operator(op: Op)

  // ---------------------------------------------------------------- the machine

  /** `dropped` records that a token left no value where it should have: an unread constant, a
      pair of operands the code only logs, LIKE without `%`. A comparison of strings answers
      and ends the run. A missing operand is undefined behaviour, a division by zero leaves the
      numbers modelled here, and substr may throw. */
  datatype Machine = Running(stack: seq<Val>, dropped: bool) | Answered(yes: bool) | Underflow | NotANumber | Threw

  predicate Clean(m: Machine) { m.Running? && !m.dropped }

  function Max(a: nat, b: nat): nat { if a < b then b else a }

  datatype Effect = Push(v: Val) | Nothing | ZeroDivision | Verdict(yes: bool) | OutOfRange

  /** The operand pairs each operator handles. */
  function Apply(op: Op, a: Val, b: Val): Effect {
    match (op, a, b)
    case (Plus, IntV(i), DblV(d, _)) => Push(DblV(i as real + d, 1))
    case (Plus, DblV(d, _), IntV(i)) => Push(DblV(d + i as real, 1))
    case (Minus, IntV(i), DblV(d, _)) => Push(DblV(i as real - d, 1))
    case (Minus, DblV(d, _), IntV(i)) => Push(DblV(d - i as real, 1))
    case (Minus, DblV(d, m), DblV(e, n)) => Push(DblV(d - e, Max(m, n)))
    case (Times, DblV(d, m), DblV(e, n)) => Push(DblV(d * e, m + n))
    case (Times, DblV(d, m), IntV(i)) => Push(DblV(d * i as real, m))
    case (Times, IntV(i), DblV(d, n)) => Push(DblV(i as real * d, n))
    case (Divide, IntV(i), DblV(d, _)) => if d == 0.0 then ZeroDivision else Push(DblV(i as real / d, 1))
    case (Divide, DblV(d, _), IntV(i)) => if i == 0 then ZeroDivision else Push(DblV(d / i as real, 1))
    case (Equal, StrV(s), StrV(t)) => Verdict(s == t)
    case (NotEqual, StrV(s), StrV(t)) => Verdict(s != t)
    case (Like, StrV(s), StrV(t)) => LikeEffect(L.MergeLike(s, t))
    case _ => Nothing
  }

  function LikeEffect(v: L.MergeVerdict): Effect {
    match v
    case Answer(yes) => Verdict(yes)
    case Thrown => OutOfRange
    case NoAnswer => Nothing
  }

  function Step(m: Machine, t: Token): Machine {
    if !m.Running? then m
    else match t
      case Constant(v) => m.(stack := m.stack + [v])
      case Column(v, _, _) => m.(stack := m.stack + [v])
      case Unread => m.(dropped := true)
      case Operator(op) =>
        var n := |m.stack|;
        if n < 2 then Underflow
        else After(m.stack[..n - 2], m.dropped, Apply(op, m.stack[n - 2], m.stack[n - 1]))
  }

  /** The machine once both operands are popped. */
  function After(rest: seq<Val>, dropped: bool, e: Effect): Machine {
    match e
    case Push(v) => Running(rest + [v], dropped)
    case Nothing => Running(rest, true)
    case ZeroDivision => NotANumber
    case Verdict(yes) => Answered(yes)
    case OutOfRange => Threw
  }

  function Run(m: Machine, ts: seq<Token>): Machine
    decreases |ts|
  {
    if ts == [] then m else Run(Step(m, ts[0]), ts[1..])
  }

  /** The loop of calculPostfix. */
  method CalculPostfix(tokens: seq<Token>) returns (m: Machine)
    ensures m == Run(Running([], false), tokens)
  {
    var stack: seq<Val>, dropped := [], false;
    assert tokens[0..] == tokens;
    for k := 0 to |tokens|
      invariant Run(Running([], false), tokens) == Run(Running(stack, dropped), tokens[k..])
    {
      assert tokens[k..][0] == tokens[k] && tokens[k..][1..] == tokens[k + 1..];
      assert Run(Running([], false), tokens) == Run(Step(Running(stack, dropped), tokens[k]), tokens[k + 1..]);
      match tokens[k] {
        case Constant(v) => stack := stack + [v];
        case Column(v, _, _) => stack := stack + [v];
        case Unread => dropped := true;
        case Operator(op) =>
          if |stack| < 2 {
            Stuck(Underflow, tokens[k + 1..]);
            return Underflow;
          }
          var op2 := stack[|stack| - 1];
          var op1 := stack[|stack| - 2];
          stack := stack[..|stack| - 2];
          var next := After(stack, dropped, Apply(op, op1, op2));
          if !next.Running? {
            Stuck(next, tokens[k + 1..]);
            return next;
          }
          stack, dropped := next.stack, next.dropped;
      }
    }
    return Running(stack, dropped);
  }

  lemma {:induction false} Stuck(m: Machine, ts: seq<Token>)
    requires !m.Running?
    ensures Run(m, ts) == m
    decreases |ts|
  {
    if ts != [] {
      Stuck(m, ts[1..]);
    }
  }

  // ---------------------------------------------------------------- expression trees

  datatype Expr = Leaf(t: Token) | Node(op: Op, l: Expr, r: Expr)

  ghost predicate Proper(e: Expr) {
    match e
    case Leaf(t) => !t.Operator?
    case Node(_, l, r) => Proper(l) && Proper(r)
  }

  function Post(e: Expr): seq<Token> {
    match e
    case Leaf(t) => [t]
    case Node(op, l, r) => Post(l) + Post(r) + [Operator(op)]
  }

  /** Static types; a decimal's includes its scale. */
  datatype Type = TInt | TDbl(realSize: nat) | TOther

  function TypeOfVal(v: Val): Type {
    match v
    case IntV(_) => TInt
    case DblV(_, n) => TDbl(n)
    case _ => TOther
  }

  /** The typing rules: which pairs an operator takes, and the scale of the result. */
  function TypeOfOp(op: Op, a: Type, b: Type): Option<Type> {
    match op
    case Plus => if (a.TInt? && b.TDbl?) || (a.TDbl? && b.TInt?) then Some(TDbl(1)) else None
    case Minus =>
      if (a.TInt? && b.TDbl?) || (a.TDbl? && b.TInt?) then Some(TDbl(1))
      else if a.TDbl? && b.TDbl? then Some(TDbl(Max(a.realSize, b.realSize)))
      else None
    case Times =>
      if a.TDbl? && b.TDbl? then Some(TDbl(a.realSize + b.realSize))
      else if a.TDbl? && b.TInt? then Some(a)
      else if a.TInt? && b.TDbl? then Some(b)
      else None
    case Divide => if (a.TInt? && b.TDbl?) || (a.TDbl? && b.TInt?) then Some(TDbl(1)) else None
    case _ => None
  }

  function TypeOf(e: Expr): Option<Type>
    requires Proper(e)
  {
    match e
    case Leaf(t) => if t.Unread? then None else Some(TypeOfVal(t.v))
    case Node(op, l, r) =>
      if TypeOf(l).Some? && TypeOf(r).Some? then TypeOfOp(op, TypeOf(l).value, TypeOf(r).value) else None
  }

  function AsReal(v: Val): real {
    match v
    case IntV(i) => i as real
    case DblV(d, _) => d
    case _ => 0.0
  }

  /** Plain arithmetic; a division by zero and a comparison have no value and count as 0 here. */
  function Arith(op: Op, x: real, y: real): real {
    match op
    case Plus => x + y
    case Minus => x - y
    case Times => x * y
    case Divide => if y == 0.0 then 0.0 else x / y
    case _ => 0.0
  }

  function Meaning(e: Expr): real
    requires Proper(e)
  {
    match e
    case Leaf(t) => if t.Unread? then 0.0 else AsReal(t.v)
    case Node(op, l, r) => Arith(op, Meaning(l), Meaning(r))
  }

  /** Well typed and nowhere dividing by zero. */
  ghost predicate Good(e: Expr)
    requires Proper(e)
  {
    && TypeOf(e).Some?
    && match e
       case Leaf(_) => true
       case Node(op, l, r) => Good(l) && Good(r) && (op.Divide? ==> Meaning(r) != 0.0)
  }

  // ---------------------------------------------------------------- the proof

  lemma {:induction false} RunAppend(m: Machine, a: seq<Token>, b: seq<Token>)
    ensures Run(m, a + b) == Run(Run(m, a), b)
    decreases |a|
  {
    if a == [] {
      assert a + b == b;
    } else {
      assert (a + b)[1..] == a[1..] + b;
      RunAppend(Step(m, a[0]), a[1..], b);
    }
  }

  lemma {:induction false} RunOne(m: Machine, t: Token)
    ensures Run(m, [t]) == Step(m, t)
  {
  }

  lemma {:induction false} RunNode(m: Machine, op: Op, l: Expr, r: Expr)
    ensures Run(m, Post(Node(op, l, r))) == Step(Run(Run(m, Post(l)), Post(r)), Operator(op))
  {
    RunAppend(m, Post(l) + Post(r), [Operator(op)]);
    RunAppend(m, Post(l), Post(r));
    RunOne(Run(Run(m, Post(l)), Post(r)), Operator(op));
  }

  /** A value that a tree stands for. */
  ghost predicate Denotes(v: Val, e: Expr)
    requires Proper(e)
  {
    TypeOf(e) == Some(TypeOfVal(v)) && AsReal(v) == Meaning(e)
  }

  lemma {:induction false} ApplyTypes(op: Op, a: Val, b: Val)
    ensures var e, t := Apply(op, a, b), TypeOfOp(op, TypeOfVal(a), TypeOfVal(b));
            && (e.Push? || e.ZeroDivision? <==> t.Some?)
            && (e.Push? ==> t == Some(TypeOfVal(e.v)))
  {
  }

  lemma {:induction false} ApplyValues(op: Op, a: Val, b: Val)
    requires Apply(op, a, b).Push? || Apply(op, a, b).ZeroDivision?
    ensures Apply(op, a, b).ZeroDivision? <==> op.Divide? && AsReal(b) == 0.0
    ensures Apply(op, a, b).Push? ==> AsReal(Apply(op, a, b).v) == Arith(op, AsReal(a), AsReal(b))
  {
  }

  /** One operator on values that stand for its operands. */
  lemma {:induction false} ApplyDenotes(op: Op, l: Expr, r: Expr, a: Val, b: Val)
    requires Proper(l) && Proper(r) && Denotes(a, l) && Denotes(b, r)
    ensures var e := Node(op, l, r);
            match Apply(op, a, b)
            case Push(v) => Denotes(v, e) && (op.Divide? ==> Meaning(r) != 0.0)
            case ZeroDivision => TypeOf(e).Some? && op.Divide? && Meaning(r) == 0.0
            case _ => TypeOf(e).None?
  {
    ApplyTypes(op, a, b);
    if Apply(op, a, b).Push? || Apply(op, a, b).ZeroDivision? {
      ApplyValues(op, a, b);
    }
  }

  /** On a good tree the machine pushes exactly one value, the tree's, on top of any stack. */
  lemma {:induction false} GoodRuns(e: Expr, stack: seq<Val>, dropped: bool) returns (v: Val)
    requires Proper(e) && Good(e)
    ensures Run(Running(stack, dropped), Post(e)) == Running(stack + [v], dropped)
    ensures Denotes(v, e)
    decreases e
  {
    match e
    case Leaf(t) =>
      v := t.v;
      RunOne(Running(stack, dropped), t);
    case Node(op, l, r) =>
      var a := GoodRuns(l, stack, dropped);
      var b := GoodRuns(r, stack + [a], dropped);
      RunNode(Running(stack, dropped), op, l, r);
      ApplyDenotes(op, l, r, a, b);
      v := Apply(op, a, b).v;
      var s := stack + [a] + [b];
      assert s[..|s| - 2] == stack;
  }

  lemma {:induction false} DirtStays(m: Machine, ts: seq<Token>)
    requires !Clean(m)
    ensures !Clean(Run(m, ts))
    decreases |ts|
  {
    if ts != [] {
      DirtStays(Step(m, ts[0]), ts[1..]);
    }
  }

  lemma {:induction false} BadShows(e: Expr, stack: seq<Val>)
    requires Proper(e) && !Good(e)
    ensures !Clean(Run(Running(stack, false), Post(e)))
    decreases e
  {
    match e
    case Leaf(_) =>
    case Node(op, l, r) =>
      var m := Running(stack, false);
      RunNode(m, op, l, r);
      if !Good(l) {
        BadShows(l, stack);
        DirtStays(Run(m, Post(l)), Post(r));
      } else {
        var a := GoodRuns(l, stack, false);
        if !Good(r) {
          BadShows(r, stack + [a]);
        } else {
          var b := GoodRuns(r, stack + [a], false);
          ApplyDenotes(op, l, r, a, b);
        }
      }
  }

  /** For every tree: its postfix form runs to its end, every token leaving its value, exactly
      when the tree is well typed and never divides by zero, and then leaves one value on the
      stack, with the tree's value and scale. */
  lemma {:induction false} PostfixCorrect(e: Expr)
    requires Proper(e)
    ensures var m := Run(Running([], false), Post(e));
            && (Clean(m) <==> Good(e))
            && (Good(e) ==> |m.stack| == 1 && Denotes(m.stack[0], e))
  {
    if Good(e) {
      var v := GoodRuns(e, [], false);
    } else {
      BadShows(e, []);
    }
  }

  // ---------------------------------------------------------------- conditions

  predicate IsComparison(op: Op) { op.Equal? || op.NotEqual? || op.Like? }

  ghost predicate Arithmetic(e: Expr) {
    e.Node? ==> !IsComparison(e.op) && Arithmetic(e.l) && Arithmetic(e.r)
  }

  lemma {:induction false} ArithmeticEffect(op: Op, a: Val, b: Val)
    requires !IsComparison(op)
    ensures Apply(op, a, b).Push? || Apply(op, a, b).Nothing? || Apply(op, a, b).ZeroDivision?
  {
  }

  /** What an arithmetic tree can do to a stack: it never answers, it pushes at most one value
      more than it found, and a bad one not even that. */
  ghost predicate Modest(m: Machine, e: Expr, m': Machine)
    requires Proper(e)
  {
    && !m'.Answered?
    && (m'.Running? ==> m.Running? && |m'.stack| <= |m.stack| + if Good(e) then 1 else 0)
  }

  lemma {:induction false} StaysModest(m: Machine, e: Expr)
    requires Proper(e) && Arithmetic(e) && !m.Answered?
    ensures Modest(m, e, Run(m, Post(e)))
    decreases e
  {
    match e
    case Leaf(t) => RunOne(m, t);
    case Node(op, l, r) =>
      var m1 := Run(m, Post(l));
      var m2 := Run(m1, Post(r));
      RunNode(m, op, l, r);
      StaysModest(m, l);
      StaysModest(m1, r);
      if m2.Running? && |m2.stack| >= 2 {
        ArithmeticEffect(op, m2.stack[|m2.stack| - 2], m2.stack[|m2.stack| - 1]);
        if Good(l) && Good(r) {
          var a := GoodRuns(l, m.stack, m.dropped);
          var b := GoodRuns(r, m.stack + [a], m.dropped);
          ApplyDenotes(op, l, r, a, b);
        }
      }
  }

  ghost predicate IsText(e: Expr) { e.Leaf? && !e.t.Unread? && !e.t.Operator? && e.t.v.StrV? }

  /** Only a leaf can stand for a string. */
  lemma {:induction false} TextIsLeaf(e: Expr, v: Val)
    requires Proper(e) && Good(e) && Denotes(v, e) && v.StrV?
    ensures e.Leaf?
  {
  }

  /** Whether a comparison of two strings holds, if it has an answer. */
  function Compare(op: Op, s: string, t: string): Option<bool>
    requires IsComparison(op)
  {
    match op
    case Equal => Some(s == t)
    case NotEqual => Some(s != t)
    case _ => if L.MergeLike(s, t).Answer? then Some(L.MergeLike(s, t).yes) else None
  }

  lemma {:induction false} CompareEffect(op: Op, a: Val, b: Val, yes: bool)
    requires IsComparison(op)
    ensures Apply(op, a, b) == Verdict(yes) <==> a.StrV? && b.StrV? && Compare(op, a.s, b.s) == Some(yes)
  {
  }

  lemma {:induction false} LeafRuns(t: Token, stack: seq<Val>)
    requires !t.Operator? && !t.Unread?
    ensures Run(Running(stack, false), Post(Leaf(t))) == Running(stack + [t.v], false)
  {
    RunOne(Running(stack, false), t);
  }

  /** A comparison whose operands are values: it answers what comparing them answers. */
  lemma {:induction false} GoodCondition(op: Op, l: Expr, r: Expr, yes: bool)
    requires IsComparison(op) && Proper(l) && Proper(r) && Good(l) && Good(r)
    ensures Run(Running([], false), Post(Node(op, l, r))) == Answered(yes) <==>
              IsText(l) && IsText(r) && Compare(op, l.t.v.s, r.t.v.s) == Some(yes)
  {
    var a := GoodRuns(l, [], false);
    var b := GoodRuns(r, [] + [a], false);
    RunNode(Running([], false), op, l, r);
    assert [] + [a] + [b] == [a, b];
    CompareEffect(op, a, b, yes);
    if a.StrV? { TextIsLeaf(l, a); }
    if b.StrV? { TextIsLeaf(r, b); }
    if l.Leaf? { LeafRuns(l.t, []); }
    if r.Leaf? { LeafRuns(r.t, [] + [a]); }
  }

  /** For every comparison of arithmetic trees: the run answers exactly when both sides are
      strings, and then what comparing them answers; any other comparison never answers. */
  lemma {:induction false} ConditionAnswers(op: Op, l: Expr, r: Expr, yes: bool)
    requires IsComparison(op) && Proper(l) && Proper(r) && Arithmetic(l) && Arithmetic(r)
    ensures Run(Running([], false), Post(Node(op, l, r))) == Answered(yes) <==>
              IsText(l) && IsText(r) && Compare(op, l.t.v.s, r.t.v.s) == Some(yes)
  {
    var m := Running([], false);
    if Good(l) && Good(r) {
      GoodCondition(op, l, r, yes);
    } else {
      RunNode(m, op, l, r);
      StaysModest(m, l);
      StaysModest(Run(m, Post(l)), r);
    }
  }
}
