/** The filter thread (filter.cc): the row and token loops with their flags, copying
    accepted rows into the output buffer, proved against the flag machine. */
module BlockFilter {
  import opened Rows
  import opened PagedBuffer
  import opened FlagMachine

  /** The switch over one token, flag by flag. */
  method TokenStep<A>(o: Oracle<A>, f: Flags<A>, t: Token<A>) returns (g: Flags<A>)
    ensures g == Advance(o, f, t)
  {
    var cv, tmpV, passed, isSaved, canSaved, isNot, substring :=
      f.cv, f.tmpV, f.passed, f.isSaved, f.canSaved, f.isNot, f.substring;
    if passed {
      if t.Or? {
        isNot := false;
        if cv { isSaved := true; } else { tmpV := true; passed := false; }
      }
    } else {
      match t
      case Compare(a) =>
        if o.holds(a) && tmpV { cv := true; canSaved := true; } else { cv := false; canSaved := false; }
        if isNot { cv, canSaved := !cv, !cv; }
      case Like(a) =>
        cv := o.holds(a);
        if cv { canSaved := true; }
        if isNot { cv, canSaved := !cv, !cv; }
      case Between(a) =>
        cv := o.holds(a);
        canSaved := cv;
        if isNot { cv, canSaved := !cv, !cv; }
      case In(a) =>
        if substring.Some? { cv := o.inSub(substring.value, a); substring := None; } else { cv := o.holds(a); }
        canSaved := cv;
        if isNot { cv, canSaved := !cv, !cv; }
      case Substring(a) => substring := Some(a);
      case Not => isNot := !isNot;
      case And =>
        isNot := false;
        if !cv { passed := true; } else { tmpV := cv; }
      case Or =>
        isNot := false;
        if cv { isSaved := true; } else { tmpV := true; passed := false; }
    }
    g := Flags(cv, tmpV, passed, isSaved, canSaved, isNot, substring);
  }

  /** The token loop for one row; `saves` counts the calls of SavedRow. */
  method FilterRow<A>(o: Oracle<A>, tokens: seq<Token<A>>, cv: bool, ghost formula: Formula<A>)
    returns (saves: nat, cv': bool)
    requires WellFormed(formula) && tokens == Tokens(formula)
    ensures saves == if Holds(o, formula) then 1 else 0
  {
    var f: Flags<A> := FirstFlags(cv);
    saves := 0;
    var j := 0;
    assert tokens[0..] == tokens;
    while j < |tokens|
      invariant j <= |tokens| && saves == 0 && !f.isSaved
      invariant Run(o, FirstFlags(cv), tokens) == Run(o, f, tokens[j..])
    {
      assert tokens[j..][0] == tokens[j] && tokens[j..][1..] == tokens[j + 1..];
      f := TokenStep(o, f, tokens[j]);
      j := j + 1;
      if f.isSaved {
        saves := saves + 1;
        break;
      }
    }
    if f.canSaved && !f.isSaved && !f.passed && f.cv {
      saves := saves + 1;
    }
    cv' := f.cv;
    MachineMeetsFormula(o, FirstFlags(cv), formula);
  }

  /** The WHERE clause as a test on rows. */
  ghost function Where<A>(oracle: Row -> Oracle<A>, formula: Formula<A>): Row -> bool
    requires WellFormed(formula)
  {
    r => Holds(oracle(r), formula)
  }

  lemma {:induction false} KeepSnoc(where: Row -> bool, rows: seq<Row>, row: Row)
    ensures Keep(where, rows + [row]) == Keep(where, rows) + if where(row) then [row] else []
  {
    KeepAppend(where, rows, [row]);
    assert Keep(where, [row]) == (if where(row) then [row] else []) + Keep(where, []);
  }

  /** The rows kept so far leave room for the next one. */
  lemma {:induction false} RoomForNext(where: Row -> bool, page: Page, i: nat)
    requires Valid(page) && i < page.rowCount
    ensures |Concat(Keep(where, FirstRows(page, i)))| + |RowAt(page, i)| <= BUFF_SIZE
  {
    KeepBytes(where, FirstRows(page, i));
    LengthUpTo(page, i);
    assert page.rowOffset[i] <= RowEnd(page, i) <= page.length;
    if i > 0 {
      assert RowEnd(page, i - 1) == page.rowOffset[i];
    }
  }

  /** BlockFilter: the output buffer holds exactly the accepted rows of the input, in
      order and byte for byte, and never overflows. */
  method FilterPage<A>(page: Page, oracle: Row -> Oracle<A>, tokens: seq<Token<A>>, cv0: bool,
                       ghost formula: Formula<A>)
    returns (out: ResultBuffer)
    requires Valid(page) && WellFormed(formula) && tokens == Tokens(formula)
    ensures fresh(out) && fresh(out.data) && Valid(out.View())
    ensures Decode(out.View()) == Keep(Where(oracle, formula), Decode(page))
  {
    out := new ResultBuffer();
    ghost var where := Where(oracle, formula);
    var cv, i := cv0, 0;
    while i < page.rowCount
      invariant i <= page.rowCount && fresh(out) && fresh(out.data) && Valid(out.View())
      invariant Decode(out.View()) == Keep(where, FirstRows(page, i))
    {
      var row := page.data[page.rowOffset[i]..RowEnd(page, i)];
      KeepSnoc(where, FirstRows(page, i), row);
      RoomForNext(where, page, i);
      LengthIsTotal(out.View());
      var saves;
      saves, cv := FilterRow(oracle(row), tokens, cv, formula);
      if saves != 0 {
        out.AppendRow(row);
      } else {
        Unit(Keep(where, FirstRows(page, i)));
      }
      i := i + 1;
    }
  }
}
