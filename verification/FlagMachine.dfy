/** The WHERE clause (filter.cc): a flat token list evaluated in one pass with six
    flags and no stack, against the OR of ANDs it stands for. */
module FlagMachine {
  import opened Rows

  /** One element of the filter array. Comparisons, LIKE, BETWEEN and IN set the flags
      in different ways; what they compare is left to an oracle. */
  datatype Token<A> =
    | Compare(atom: A) | Like(atom: A) | Between(atom: A) | In(atom: A) | Substring(atom: A)
    | Not | And | Or

  /** What the atoms say about one row; `inSub(a, b)` is "SUBSTRING a IN b". */
  datatype Oracle<!A> = Oracle(holds: A -> bool, inSub: (A, A) -> bool)

  // ---------------------------------------------------------------- formulas

  datatype Atom<A> = Plain(token: Token<A>) | SubIn(sub: A, list: A)

  datatype Literal<A> = Literal(nots: nat, atom: Atom<A>)

  type Clause<A> = seq<Literal<A>>
  type Formula<A> = seq<Clause<A>>

  predicate IsAtomToken<A>(t: Token<A>) {
    t.Compare? || t.Like? || t.Between? || t.In?
  }

  ghost predicate WellFormedClause<A>(c: Clause<A>) {
    c != [] && forall i :: 0 <= i < |c| ==> c[i].atom.Plain? ==> IsAtomToken(c[i].atom.token)
  }

  /** At least one clause, no clause empty. */
  ghost predicate WellFormed<A>(f: Formula<A>) {
    f != [] && forall i :: 0 <= i < |f| ==> WellFormedClause(f[i])
  }

  function AtomHolds<A>(o: Oracle<A>, a: Atom<A>): bool
    requires a.Plain? ==> IsAtomToken(a.token)
  {
    match a
    case Plain(t) => o.holds(t.atom)
    case SubIn(s, l) => o.inSub(s, l)
  }

  function LiteralHolds<A>(o: Oracle<A>, l: Literal<A>): bool
    requires l.atom.Plain? ==> IsAtomToken(l.atom.token)
  {
    AtomHolds(o, l.atom) == (l.nots % 2 == 0)
  }

  ghost predicate ClauseHolds<A>(o: Oracle<A>, c: Clause<A>)
    requires WellFormedClause(c)
  {
    forall i :: 0 <= i < |c| ==> LiteralHolds(o, c[i])
  }

  /** The meaning of the token list: some clause has all its literals true. */
  ghost predicate Holds<A>(o: Oracle<A>, f: Formula<A>)
    requires WellFormed(f)
  {
    exists i :: 0 <= i < |f| && ClauseHolds(o, f[i])
  }

  // ---------------------------------------------------------------- token lists

  function Nots<A>(n: nat): seq<Token<A>> {
    if n == 0 then [] else [Not] + Nots(n - 1)
  }

  function AtomTokens<A>(a: Atom<A>): seq<Token<A>> {
    match a
    case Plain(t) => [t]
    case SubIn(s, l) => [Substring(s), In(l)]
  }

  function LiteralTokens<A>(l: Literal<A>): seq<Token<A>> {
    Nots(l.nots) + AtomTokens(l.atom)
  }

  function ClauseTokens<A>(c: Clause<A>): seq<Token<A>> {
    if c == [] then []
    else LiteralTokens(c[0]) + if |c| == 1 then [] else [And] + ClauseTokens(c[1..])
  }

  function Tokens<A>(f: Formula<A>): seq<Token<A>> {
    if f == [] then []
    else ClauseTokens(f[0]) + if |f| == 1 then [] else [Or] + Tokens(f[1..])
  }

  // ---------------------------------------------------------------- the machine

  /** CV, TmpV, Passed, isSaved, canSaved, isnot, and the operand SUBSTRING left for IN. */
  datatype Flags<A> = Flags(cv: bool, tmpV: bool, passed: bool, isSaved: bool, canSaved: bool, isNot: bool,
                            substring: Option<A>)

  /** The flags at the start of a row: CV is whatever the previous row left. */
  function FirstFlags<A>(cv: bool): Flags<A> {
    Flags(cv, true, false, false, false, false, None)
  }

  /** The tail shared by LIKE, BETWEEN and IN: `isnot` flips both flags. */
  function Negated<A>(f: Flags<A>): Flags<A> {
    if f.isNot then f.(cv := !f.cv, canSaved := !f.cv) else f
  }

  function Advance<A>(o: Oracle<A>, f: Flags<A>, t: Token<A>): Flags<A> {
    if f.passed then
      if t.Or? then
        if f.cv then f.(isNot := false, isSaved := true) else f.(isNot := false, tmpV := true, passed := false)
      else f
    else match t
      case Compare(a) => var r := o.holds(a) && f.tmpV; Negated(f.(cv := r, canSaved := r))
      case Like(a) => var r := o.holds(a); Negated(f.(cv := r, canSaved := r || f.canSaved))
      case Between(a) => var r := o.holds(a); Negated(f.(cv := r, canSaved := r))
      case In(a) =>
        var r := if f.substring.Some? then o.inSub(f.substring.value, a) else o.holds(a);
        Negated(f.(cv := r, canSaved := r, substring := None))
      case Substring(a) => f.(substring := Some(a))
      case Not => f.(isNot := !f.isNot)
      case And => if f.cv then f.(isNot := false, tmpV := true) else f.(isNot := false, passed := true)
      case Or =>
        if f.cv then f.(isNot := false, isSaved := true) else f.(isNot := false, tmpV := true, passed := false)
  }

  /** The token loop: it breaks as soon as an OR has saved the row. */
  function Run<A>(o: Oracle<A>, f: Flags<A>, ts: seq<Token<A>>): Flags<A>
    decreases |ts|
  {
    if f.isSaved || ts == [] then f else Run(o, Advance(o, f, ts[0]), ts[1..])
  }

  /** Saved by an OR inside the loop, or by the test after it; never by both. */
  predicate Saves<A>(f: Flags<A>) {
    f.isSaved || (f.canSaved && !f.passed && f.cv)
  }

  // ---------------------------------------------------------------- the proof

  /** The flags where a literal may start. */
  ghost predicate Ready<A>(f: Flags<A>) {
    f.tmpV && !f.passed && !f.isSaved && !f.isNot && f.substring.None?
  }

  /** The flags after an atom whose literal has the value `r`. */
  ghost predicate Decided<A>(f: Flags<A>, r: bool) {
    f.tmpV && !f.passed && !f.isSaved && f.substring.None? && f.cv == r && (f.cv ==> f.canSaved)
  }

  lemma {:induction false} RunNots<A>(o: Oracle<A>, f: Flags<A>, n: nat, rest: seq<Token<A>>)
    requires !f.passed && !f.isSaved
    ensures Run(o, f, Nots(n) + rest) == Run(o, f.(isNot := f.isNot != (n % 2 == 1)), rest)
    decreases n
  {
    if n == 0 {
      assert Nots<A>(0) + rest == rest;
    } else {
      var ts := Nots<A>(n) + rest;
      assert ts[0] == Not && ts[1..] == Nots<A>(n - 1) + rest;
      RunNots(o, f.(isNot := !f.isNot), n - 1, rest);
    }
  }

  lemma {:induction false} RunAtom<A>(o: Oracle<A>, f: Flags<A>, a: Atom<A>, rest: seq<Token<A>>) returns (g: Flags<A>)
    requires f.tmpV && !f.passed && !f.isSaved && f.substring.None?
    requires a.Plain? ==> IsAtomToken(a.token)
    ensures Run(o, f, AtomTokens(a) + rest) == Run(o, g, rest)
    ensures Decided(g, AtomHolds(o, a) != f.isNot)
  {
    var ts := AtomTokens(a) + rest;
    match a
    case Plain(t) =>
      g := Advance(o, f, t);
      assert ts[0] == t && ts[1..] == rest;
    case SubIn(s, l) =>
      var h := Advance(o, f, Substring(s));
      g := Advance(o, h, In(l));
      assert ts[0] == Substring(s) && ts[1..] == [In(l)] + rest;
      assert ([In(l)] + rest)[1..] == rest;
      assert Run(o, h, [In(l)] + rest) == Run(o, g, rest);
  }

  lemma {:induction false} RunLiteral<A>(o: Oracle<A>, f: Flags<A>, l: Literal<A>, rest: seq<Token<A>>) returns (g: Flags<A>)
    requires Ready(f) && (l.atom.Plain? ==> IsAtomToken(l.atom.token))
    ensures Run(o, f, LiteralTokens(l) + rest) == Run(o, g, rest)
    ensures Decided(g, LiteralHolds(o, l))
  {
    Assoc(Nots(l.nots), AtomTokens(l.atom), rest);
    RunNots(o, f, l.nots, AtomTokens(l.atom) + rest);
    g := RunAtom(o, f.(isNot := l.nots % 2 == 1), l.atom, rest);
  }

  /** Once an AND has failed, everything up to the next OR is skipped. */
  lemma {:induction false} RunPassed<A>(o: Oracle<A>, f: Flags<A>, skipped: seq<Token<A>>, rest: seq<Token<A>>)
    requires f.passed && !f.isSaved && Or !in skipped
    ensures Run(o, f, skipped + rest) == Run(o, f, rest)
  {
    if skipped == [] {
      assert skipped + rest == rest;
    } else {
      assert (skipped + rest)[1..] == skipped[1..] + rest;
      RunPassed(o, f, skipped[1..], rest);
    }
  }

  lemma {:induction false} NotsHaveNoOr<A>(n: nat)
    ensures Or !in Nots<A>(n)
  {
    if n > 0 {
      NotsHaveNoOr<A>(n - 1);
    }
  }

  lemma {:induction false} ClauseHasNoOr<A>(c: Clause<A>)
    requires c == [] || WellFormedClause(c)
    ensures Or !in ClauseTokens(c)
  {
    if c != [] {
      NotsHaveNoOr<A>(c[0].nots);
      assert Or !in AtomTokens(c[0].atom);
      if |c| > 1 {
        ClauseHasNoOr(c[1..]);
      }
    }
  }

  /** The flags at the end of a clause: the clause's value, or a failed AND on the way. */
  ghost predicate Closed<A>(f: Flags<A>, r: bool) {
    && f.tmpV && !f.isSaved && f.substring.None? && f.cv == r
    && (r ==> f.canSaved && !f.passed)
  }

  lemma {:induction false} RunClause<A>(o: Oracle<A>, f: Flags<A>, c: Clause<A>, rest: seq<Token<A>>)
    returns (g: Flags<A>)
    requires Ready(f) && WellFormedClause(c)
    ensures Run(o, f, ClauseTokens(c) + rest) == Run(o, g, rest)
    ensures Closed(g, ClauseHolds(o, c))
    decreases |c|
  {
    var tail := if |c| == 1 then [] else [And] + ClauseTokens(c[1..]);
    Assoc(LiteralTokens(c[0]), tail, rest);
    g := RunLiteral(o, f, c[0], tail + rest);
    if |c| == 1 {
      Unit(rest);
      assert ClauseHolds(o, c) == LiteralHolds(o, c[0]);
    } else {
      var h := Advance(o, g, And);
      Assoc([And], ClauseTokens(c[1..]), rest);
      assert ([And] + (ClauseTokens(c[1..]) + rest))[1..] == ClauseTokens(c[1..]) + rest;
      assert Run(o, g, tail + rest) == Run(o, h, ClauseTokens(c[1..]) + rest);
      if LiteralHolds(o, c[0]) {
        g := RunClause(o, h, c[1..], rest);
        ClauseSplit(o, c);
      } else {
        ClauseHasNoOr(c[1..]);
        RunPassed(o, h, ClauseTokens(c[1..]), rest);
        g := h;
      }
    }
  }

  lemma {:induction false} ClauseSplit<A>(o: Oracle<A>, c: Clause<A>)
    requires WellFormedClause(c) && |c| > 1
    ensures ClauseHolds(o, c) <==> LiteralHolds(o, c[0]) && ClauseHolds(o, c[1..])
  {
  }

  lemma {:induction false} FormulaSplit<A>(o: Oracle<A>, f: Formula<A>)
    requires WellFormed(f) && |f| > 1
    ensures Holds(o, f) <==> ClauseHolds(o, f[0]) || Holds(o, f[1..])
  {
  }

  /** For every well-formed token list the one-pass machine saves a row exactly when the
      OR of ANDs is true, whatever CV the row before it left behind. */
  lemma {:induction false} MachineMeetsFormula<A>(o: Oracle<A>, f: Flags<A>, formula: Formula<A>)
    requires Ready(f) && WellFormed(formula)
    ensures Saves(Run(o, f, Tokens(formula))) <==> Holds(o, formula)
    ensures Run(o, f, Tokens(formula)).substring.None? && Run(o, f, Tokens(formula)).tmpV
    decreases |formula|
  {
    var c := formula[0];
    var tail := if |formula| == 1 then [] else [Or] + Tokens(formula[1..]);
    var g := RunClause(o, f, c, tail);
    if |formula| == 1 {
      assert Holds(o, formula) == ClauseHolds(o, formula[0]);
    } else {
      FormulaSplit(o, formula);
      var h := Advance(o, g, Or);
      assert ([Or] + Tokens(formula[1..]))[1..] == Tokens(formula[1..]);
      assert Run(o, g, tail) == Run(o, h, Tokens(formula[1..]));
      if !ClauseHolds(o, c) {
        MachineMeetsFormula(o, h, formula[1..]);
      }
    }
  }
}
