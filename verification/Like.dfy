/** The two LIKE matchers: `LikeSubString_v2` of the filter (filter.cc) and the one inside
    calculPostfix (merge_manager.cc), against the `%` part of section 8.5 of ISO/IEC 9075-2. */
module Like {
  import opened Rows

  // ---------------------------------------------------------------- the standard

  /** `%` stands for any run of characters, every other character for itself. */
  predicate Matches(s: string, p: string)
    decreases |p|, |s|
  {
    if p == "" then s == ""
    else if p[0] == '%' then Matches(s, p[1..]) || (s != "" && Matches(s[1..], p))
    else s != "" && s[0] == p[0] && Matches(s[1..], p[1..])
  }

  predicate At(s: string, k: int, t: string) {
    0 <= k && k + |t| <= |s| && s[k..k + |t|] == t
  }

  predicate Contains(s: string, t: string) { exists k :: 0 <= k <= |s| && At(s, k, t) }

  predicate StartsWith(s: string, t: string) { At(s, 0, t) }

  predicate EndsWith(s: string, t: string) { At(s, |s| - |t|, t) }

  // ---------------------------------------------------------------- the filter's matcher

  /** std::string::substr for a position inside the string. */
  function Substr(s: string, pos: nat, n: nat): string
    requires pos <= |s|
  {
    if pos + n <= |s| then s[pos..pos + n] else s[pos..]
  }

  /** Repeated getline: a delimiter at the very end opens no further segment. */
  function Split(p: string): seq<string> {
    SplitFrom("", p)
  }

  function SplitFrom(buffer: string, p: string): seq<string>
    decreases |p|
  {
    if p == "" then (if buffer == "" then [] else [buffer])
    else if p[0] == '%' then [buffer] + SplitFrom("", p[1..])
    else SplitFrom(buffer + [p[0]], p[1..])
  }

  /** A result, or the std::out_of_range of substr. */
  datatype Verdict = Yes | No | Throws

  /** The facts the loops read: the target, the segments, and where the pattern has its `%`. */
  datatype Query = Query(lv: string, val: seq<string>, isFirst: bool, isLast: bool)

  function LastOf(q: Query): string
    requires q.val != []
  {
    q.val[|q.val| - 1]
  }

  /** LvLen - last.length() + 1 in size_t arithmetic. */
  function Bound(q: Query): nat
    requires q.val != []
  {
    var b := |q.lv| - |LastOf(q)| + 1;
    if b >= 0 then b else b % 0x1_0000_0000_0000_0000
  }

  /** The inner loop from segment `i` and position `j`; it is never re-entered, because the
      outer loop returns as soon as the inner one ends. A match moves on to the next segment
      and, by `continue`, also past one more character. */
  function Search(q: Query, i: nat, j: nat): Verdict
    requires i < |q.val|
    decreases if j <= |q.lv| then |q.lv| + 1 - j else 0
  {
    if j >= Bound(q) then No
    else if !q.isFirst && Substr(q.lv, 0, |q.val[i]|) != q.val[i] then No
    else if !q.isLast && |LastOf(q)| > |q.lv| then Throws
    else if !q.isLast && !EndsWith(q.lv, LastOf(q)) then No
    else if j > |q.lv| then Throws
    else if Substr(q.lv, j, |q.val[i]|) == q.val[i] then
      if i == |q.val| - 1 then Yes else Search(q, i + 1, j + |q.val[i]| + 1)
    else Search(q, i, j + 1)
  }

  function QueryOf(lv: string, rv: string): Query
    requires rv != ""
  {
    Query(lv, Split(rv), rv[0] == '%', rv[|rv| - 1] == '%')
  }

  function LikeV2(lv: string, rv: string): Verdict
    requires rv != ""
  {
    var q := QueryOf(lv, rv);
    var i := if q.isFirst then 1 else 0;
    if i < |q.val| then Search(q, i, 0) else No
  }

  /** `split`, character by character. */
  method SplitPattern(p: string) returns (val: seq<string>)
    ensures val == Split(p)
  {
    val := [];
    var buffer := "";
    assert p[0..] == p;
    for k := 0 to |p|
      invariant Split(p) == val + SplitFrom(buffer, p[k..])
    {
      assert p[k..][0] == p[k] && p[k..][1..] == p[k + 1..];
      if p[k] == '%' {
        assert val + ([buffer] + SplitFrom("", p[k + 1..])) == val + [buffer] + SplitFrom("", p[k + 1..]);
        val := val + [buffer];
        buffer := "";
      } else {
        buffer := buffer + [p[k]];
      }
    }
    if buffer != "" {
      val := val + [buffer];
    }
  }

  /** The loops of LikeSubString_v2, the inner one moving the outer index as well. */
  method SearchLoop(q: Query, start: nat) returns (r: Verdict)
    requires start < |q.val|
    ensures r == Search(q, start, 0)
  {
    var lv, val, last := q.lv, q.val, LastOf(q);
    var i, j := start, 0;
    var bound := Bound(q);
    while j < bound
      invariant 0 <= i < |val| && 0 <= j
      invariant Search(q, start, 0) == Search(q, i, j)
      decreases if j <= |lv| then |lv| + 1 - j else 0
    {
      if !q.isFirst && Substr(lv, 0, |val[i]|) != val[i] { return No; }
      if !q.isLast {
        if |last| > |lv| { return Throws; }
        if Substr(lv, |lv| - |last|, |last|) != last { return No; }
      }
      if j > |lv| { return Throws; }
      if Substr(lv, j, |val[i]|) == val[i] {
        if i == |val| - 1 { return Yes; }
        j := j + |val[i]|;
        i := i + 1;
      }
      j := j + 1;
    }
    return No;
  }

  method LikeSubStringV2(lv: string, rv: string) returns (r: Verdict)
    requires rv != ""
    ensures r == LikeV2(lv, rv)
  {
    var isFirst, isLast := rv[0] == '%', rv[|rv| - 1] == '%';
    var val := SplitPattern(rv);
    var i := if isFirst then 1 else 0;
    if i < |val| {
      r := SearchLoop(Query(lv, val, isFirst, isLast), i);
    } else {
      r := No;
    }
  }

  // ---------------------------------------------------------------- patterns and their segments

  /** The pattern in front of segment `n`: each earlier segment closed by its `%`. */
  function Head(val: seq<string>, n: nat): string
    requires n <= |val|
  {
    if n == 0 then "" else Head(val, n - 1) + val[n - 1] + "%"
  }

  /** The pattern a segment list came from. */
  function Joined(val: seq<string>, isLast: bool): string
    requires val != []
  {
    if isLast then Head(val, |val|) else Head(val, |val| - 1) + val[|val| - 1]
  }

  lemma {:induction false} Regroup(p: string, h: string, v: string)
    ensures p + h + v + "%" == p + (h + v + "%")
  {
    Assoc(p, h, v);
    Assoc(p, h + v, "%");
  }

  lemma {:induction false} HeadOne(val: seq<string>)
    requires val != []
    ensures Head(val, 1) == val[0] + "%" + Head(val, 0)
  {
    assert Head(val, 0) == "";
    Unit(val[0]);
    Unit(val[0] + "%");
  }

  lemma {:induction false} HeadTail(val: seq<string>, n: nat)
    requires 0 < n <= |val|
    ensures Head(val, n) == val[0] + "%" + Head(val[1..], n - 1)
    decreases n
  {
    if n == 1 {
      HeadOne(val);
    } else {
      HeadTail(val, n - 1);
      Regroup(val[0] + "%", Head(val[1..], n - 2), val[n - 1]);
      assert val[1..][n - 2] == val[n - 1];
    }
  }

  lemma {:induction false} JoinedCons(s: string, val: seq<string>, isLast: bool)
    requires val != []
    ensures Joined([s] + val, isLast) == s + "%" + Joined(val, isLast)
  {
    var n, all := |val| - 1, [s] + val;
    assert all[1..] == val;
    if isLast {
      HeadTail(all, n + 2);
    } else {
      HeadTail(all, n + 1);
      Assoc(s + "%", Head(val, n), val[n]);
    }
  }

  lemma {:induction false} JoinedOne(s: string)
    ensures Joined([s], true) == s + "%" && Joined([s], false) == s
  {
    assert Head([s], 0) == "";
    assert Head([s], 1) == "" + s + "%";
    assert "" + s == s;
  }

  ghost predicate Spells(val: seq<string>, isLast: bool, p: string) {
    val != [] && Joined(val, isLast) == p
  }

  predicate EndsInPercent(p: string) { p != "" && p[|p| - 1] == '%' }

  lemma {:induction false} TailEnd(p: string)
    requires |p| > 1
    ensures EndsInPercent(p[1..]) == EndsInPercent(p)
  {
    assert p[1..][|p| - 2] == p[|p| - 1];
  }

  lemma {:induction false} SpellsCons(buffer: string, val: seq<string>, isLast: bool, rest: string)
    requires Spells(val, isLast, rest)
    ensures Spells([buffer] + val, isLast, buffer + (['%'] + rest))
  {
    JoinedCons(buffer, val, isLast);
    assert buffer + "%" + rest == buffer + (['%'] + rest);
  }

  /** The first character of what is left: a `%` closes the segment, any other joins it. */
  lemma {:induction false} SpellsPercent(buffer: string, p: string)
    requires |p| > 1 && p[0] == '%' && Spells(SplitFrom("", p[1..]), EndsInPercent(p[1..]), p[1..])
    ensures Spells(SplitFrom(buffer, p), EndsInPercent(p), buffer + p)
  {
    TailEnd(p);
    SpellsCons(buffer, SplitFrom("", p[1..]), EndsInPercent(p), p[1..]);
    assert p == ['%'] + p[1..];
  }

  lemma {:induction false} SpellsChar(buffer: string, p: string)
    requires p != "" && p[0] != '%' && Spells(SplitFrom(buffer + [p[0]], p[1..]), EndsInPercent(p[1..]), buffer + [p[0]] + p[1..])
    ensures Spells(SplitFrom(buffer, p), EndsInPercent(p), buffer + p)
  {
    assert buffer + [p[0]] + p[1..] == buffer + p;
    if |p| > 1 { TailEnd(p); }
  }

  lemma {:induction false} SpellsLast(buffer: string, p: string)
    requires p == "%" || (p == "" && buffer != "")
    ensures Spells(SplitFrom(buffer, p), EndsInPercent(p), buffer + p)
  {
    JoinedOne(buffer);
    if p == "%" {
      assert p[1..] == "";
      assert SplitFrom("", "") == [];
      assert SplitFrom(buffer, p) == [buffer] + SplitFrom("", p[1..]) == [buffer];
    } else {
      assert buffer + p == buffer;
    }
  }

  /** Splitting loses nothing: the segments spell the pattern again. */
  lemma {:induction false} SplitSpells(buffer: string, p: string)
    requires buffer + p != ""
    ensures Spells(SplitFrom(buffer, p), EndsInPercent(p), buffer + p)
    decreases |p|
  {
    if p == "" || p == "%" {
      SpellsLast(buffer, p);
    } else if p[0] == '%' {
      SplitSpells("", p[1..]);
      assert "" + p[1..] == p[1..];
      SpellsPercent(buffer, p);
    } else {
      SplitSpells(buffer + [p[0]], p[1..]);
      SpellsChar(buffer, p);
    }
  }

  lemma {:induction false} SplitFirst(buffer: string, p: string)
    requires '%' in p
    ensures SplitFrom(buffer, p) != [] && (p[0] == '%' ==> SplitFrom(buffer, p)[0] == buffer)
    decreases |p|
  {
    if p[0] != '%' {
      SplitFirst(buffer + [p[0]], p[1..]);
    }
  }

  // ---------------------------------------------------------------- soundness

  lemma {:induction false} MatchesAppend(a: string, p: string, b: string, q: string)
    requires Matches(a, p) && Matches(b, q)
    ensures Matches(a + b, p + q)
    decreases |p|, |a|
  {
    if p == "" {
      assert a + b == b && p + q == q;
    } else if p[0] == '%' {
      assert (p + q)[1..] == p[1..] + q;
      if Matches(a, p[1..]) {
        MatchesAppend(a, p[1..], b, q);
      } else {
        MatchesAppend(a[1..], p, b, q);
        assert (a + b)[1..] == a[1..] + b;
      }
    } else {
      MatchesAppend(a[1..], p[1..], b, q);
      assert (a + b)[1..] == a[1..] + b && (p + q)[1..] == p[1..] + q;
    }
  }

  lemma {:induction false} AnythingMatchesPercent(s: string)
    ensures Matches(s, "%")
    decreases |s|
  {
    if s == "" {
      assert Matches("", "%"[1..]);
    } else {
      AnythingMatchesPercent(s[1..]);
    }
  }

  lemma {:induction false} PlainMatchesItself(t: string)
    requires '%' !in t
    ensures Matches(t, t)
    decreases |t|
  {
    if t != "" {
      PlainMatchesItself(t[1..]);
    }
  }

  lemma {:induction false} SegmentsArePlain(buffer: string, p: string, i: nat)
    requires '%' !in buffer && i < |SplitFrom(buffer, p)|
    ensures '%' !in SplitFrom(buffer, p)[i]
    decreases |p|
  {
    if p == "" {
    } else if p[0] == '%' {
      if i > 0 {
        SegmentsArePlain("", p[1..], i - 1);
      }
    } else {
      SegmentsArePlain(buffer + [p[0]], p[1..], i);
    }
  }

  ghost predicate PlainSegments(q: Query) {
    q.val != [] && forall i :: 0 <= i < |q.val| ==> '%' !in q.val[i]
  }

  /** The part of the target up to `j` matches the pattern up to segment `i`. */
  ghost predicate Placed(q: Query, i: nat, j: nat)
    requires i <= |q.val|
  {
    j <= |q.lv| ==> Matches(q.lv[..j], Head(q.val, i))
  }

  /** More of the target may be left to a `%`. */
  lemma {:induction false} PlacedLater(q: Query, i: nat, j: nat, k: nat)
    requires 0 < i <= |q.val| && Placed(q, i, j) && j <= k <= |q.lv|
    ensures Matches(q.lv[..k], Head(q.val, i))
  {
    PercentAbsorbs(q.lv[..j], Head(q.val, i - 1) + q.val[i - 1], q.lv[j..k]);
    assert q.lv[..k] == q.lv[..j] + q.lv[j..k];
  }

  lemma {:induction false} PercentAbsorbs(a: string, p: string, b: string)
    requires Matches(a, p + "%")
    ensures Matches(a + b, p + "%")
    decreases |p|, |a|
  {
    var q := p + "%";
    if p == "" {
      assert p + "%" == "%";
      AnythingMatchesPercent(a + b);
    } else if p[0] == '%' {
      assert q[1..] == p[1..] + "%";
      if Matches(a, q[1..]) {
        PercentAbsorbs(a, p[1..], b);
      } else {
        PercentAbsorbs(a[1..], p, b);
        assert (a + b)[1..] == a[1..] + b;
      }
    } else {
      assert q[1..] == p[1..] + "%";
      PercentAbsorbs(a[1..], p[1..], b);
      assert (a + b)[1..] == a[1..] + b;
    }
  }

  lemma {:induction false} PlaceSegment(q: Query, i: nat, j: nat)
    requires PlainSegments(q) && i < |q.val| && Placed(q, i, j) && j <= |q.lv|
    requires Substr(q.lv, j, |q.val[i]|) == q.val[i]
    ensures At(q.lv, j, q.val[i])
    ensures Matches(q.lv[..j + |q.val[i]|], Head(q.val, i) + q.val[i])
    ensures Placed(q, i + 1, j + |q.val[i]| + 1)
  {
    var t, k := q.val[i], j + |q.val[i]|;
    PlainMatchesItself(t);
    MatchesAppend(q.lv[..j], Head(q.val, i), t, t);
    assert q.lv[..k] == q.lv[..j] + t;
    if k + 1 <= |q.lv| {
      AnythingMatchesPercent(q.lv[k..k + 1]);
      MatchesAppend(q.lv[..k], Head(q.val, i) + t, q.lv[k..k + 1], "%");
      assert q.lv[..k + 1] == q.lv[..k] + q.lv[k..k + 1];
    }
  }

  lemma {:induction false} FinishOpen(q: Query, i: nat, k: nat)
    requires q.val != [] && i == |q.val| - 1 && k <= |q.lv|
    requires Matches(q.lv[..k], Head(q.val, i) + q.val[i])
    ensures Matches(q.lv, Joined(q.val, true))
  {
    AnythingMatchesPercent(q.lv[k..]);
    MatchesAppend(q.lv[..k], Head(q.val, i) + q.val[i], q.lv[k..], "%");
    assert q.lv == q.lv[..k] + q.lv[k..];
  }

  lemma {:induction false} FinishAtEnd(q: Query, i: nat, j: nat)
    requires PlainSegments(q) && 0 < i == |q.val| - 1 && Placed(q, i, j)
    requires j <= |q.lv| - |q.val[i]| && EndsWith(q.lv, q.val[i])
    ensures Matches(q.lv, Joined(q.val, false))
  {
    var t := q.val[i];
    var e := |q.lv| - |t|;
    PlacedLater(q, i, j, e);
    PlainMatchesItself(t);
    MatchesAppend(q.lv[..e], Head(q.val, i), t, t);
    assert q.lv == q.lv[..e] + t;
  }

  /** The last segment has been found: the rest of the target goes to a final `%`, or the
      segment is moved to the very end, where the code has checked that it stands. */
  lemma {:induction false} Finish(q: Query, i: nat, j: nat)
    requires PlainSegments(q) && i == |q.val| - 1 && Placed(q, i, j) && j <= |q.lv|
    requires Substr(q.lv, j, |q.val[i]|) == q.val[i]
    requires !q.isLast ==> EndsWith(q.lv, q.val[i]) && i > 0
    ensures Matches(q.lv, Joined(q.val, q.isLast))
  {
    PlaceSegment(q, i, j);
    if q.isLast {
      FinishOpen(q, i, j + |q.val[i]|);
    } else {
      FinishAtEnd(q, i, j);
    }
  }

  lemma {:induction false} PlaceNext(q: Query, i: nat, j: nat)
    requires PlainSegments(q) && i < |q.val| && Placed(q, i, j) && j <= |q.lv|
    requires Substr(q.lv, j, |q.val[i]|) == q.val[i]
    ensures Placed(q, i + 1, j + |q.val[i]| + 1)
  {
    PlaceSegment(q, i, j);
  }

  lemma {:induction false} PlacedSkip(q: Query, i: nat, j: nat)
    requires 0 < i < |q.val| && Placed(q, i, j)
    ensures Placed(q, i, j + 1)
  {
    if j + 1 <= |q.lv| {
      PlacedLater(q, i, j, j + 1);
    }
  }

  lemma {:induction false} SearchSound(q: Query, i: nat, j: nat)
    requires PlainSegments(q) && i < |q.val| && Placed(q, i, j)
    requires i == 0 ==> j == 0 && !q.isFirst
    requires !q.isLast ==> |q.val| > 1
    requires Search(q, i, j) == Yes
    ensures Matches(q.lv, Joined(q.val, q.isLast))
    decreases if j <= |q.lv| then |q.lv| + 1 - j else 0
  {
    if Substr(q.lv, j, |q.val[i]|) != q.val[i] {
      PlacedSkip(q, i, j);
      SearchSound(q, i, j + 1);
    } else if i == |q.val| - 1 {
      Finish(q, i, j);
    } else {
      PlaceNext(q, i, j);
      SearchSound(q, i + 1, j + |q.val[i]| + 1);
    }
  }

  /** For every pattern with a `%`: when the filter says yes, the target really is LIKE the
      pattern, its segments standing in order and apart. */
  lemma {:induction false} LikeV2Sound(lv: string, rv: string)
    requires '%' in rv && LikeV2(lv, rv) == Yes
    ensures Matches(lv, rv)
  {
    var q := QueryOf(lv, rv);
    SplitSpells("", rv);
    SplitFirst("", rv);
    assert "" + rv == rv;
    forall i | 0 <= i < |q.val| ensures '%' !in q.val[i] {
      SegmentsArePlain("", rv, i);
    }
    assert Head(q.val, 0) == "";
    if q.isFirst {
      assert Head(q.val, 1) == "" + "" + "%";
      AnythingMatchesPercent(lv[..0]);
      SearchSound(q, 1, 0);
    } else {
      SearchSound(q, 0, 0);
    }
  }

  /** The only patterns it throws on have a last segment longer than the target by two or more. */
  lemma {:induction false} SearchThrows(q: Query, i: nat, j: nat)
    requires i < |q.val| && Search(q, i, j) == Throws
    ensures |LastOf(q)| > |q.lv| + 1
    decreases if j <= |q.lv| then |q.lv| + 1 - j else 0
  {
    if |LastOf(q)| <= |q.lv| + 1 {
      if Substr(q.lv, j, |q.val[i]|) == q.val[i] {
        SearchThrows(q, i + 1, j + |q.val[i]| + 1);
      } else {
        SearchThrows(q, i, j + 1);
      }
    }
  }

  // ---------------------------------------------------------------- greedy search is complete

  /** Segments from `i` on stand in the target from position `j` on, in order, at least one
      character apart, and none starts beyond the loop's bound. */
  ghost predicate Spaced(q: Query, i: nat, j: nat)
    requires i < |q.val|
    decreases |q.val| - i, 1
  {
    exists p: nat :: j <= p && SpacedAt(q, i, p)
  }

  /** The same with segment `i` at position `p`. */
  ghost predicate SpacedAt(q: Query, i: nat, p: nat)
    requires i < |q.val|
    decreases |q.val| - i, 0
  {
    && p + |LastOf(q)| <= |q.lv| && At(q.lv, p, q.val[i])
    && (i == |q.val| - 1 || Spaced(q, i + 1, p + |q.val[i]| + 1))
  }

  lemma {:induction false} AtIsSubstr(s: string, j: nat, t: string)
    requires j <= |s|
    ensures At(s, j, t) <==> Substr(s, j, |t|) == t
  {
  }

  lemma {:induction false} SpacedPlace(q: Query, i: nat, j: nat) returns (p: nat)
    requires i < |q.val| && Spaced(q, i, j)
    ensures j <= p && SpacedAt(q, i, p)
  {
    p :| j <= p && SpacedAt(q, i, p);
  }

  lemma {:induction false} SpacedEarlier(q: Query, i: nat, j: nat, k: nat)
    requires i < |q.val| && j <= k && Spaced(q, i, k)
    ensures Spaced(q, i, j)
  {
    var p: nat :| k <= p && SpacedAt(q, i, p);
  }

  /** A segment that fits here may as well be placed here. */
  lemma {:induction false} SpacedHere(q: Query, i: nat, j: nat)
    requires i < |q.val| && j + |LastOf(q)| <= |q.lv| && At(q.lv, j, q.val[i])
    ensures Spaced(q, i, j) <==> i == |q.val| - 1 || Spaced(q, i + 1, j + |q.val[i]| + 1)
  {
    if Spaced(q, i, j) && i < |q.val| - 1 {
      var p := SpacedPlace(q, i, j);
      SpacedEarlier(q, i + 1, j + |q.val[i]| + 1, p + |q.val[i]| + 1);
    }
    if i == |q.val| - 1 || Spaced(q, i + 1, j + |q.val[i]| + 1) {
      assert SpacedAt(q, i, j);
    }
  }

  lemma {:induction false} SpacedSkip(q: Query, i: nat, j: nat)
    requires i < |q.val| && !At(q.lv, j, q.val[i])
    ensures Spaced(q, i, j) <==> Spaced(q, i, j + 1)
  {
    if Spaced(q, i, j) {
      var p := SpacedPlace(q, i, j);
      assert p != j;
    }
    if Spaced(q, i, j + 1) {
      SpacedEarlier(q, i, j, j + 1);
    }
  }

  /** Nothing is placed beyond the bound. */
  lemma {:induction false} SpacedBelowBound(q: Query, i: nat, j: nat)
    requires i < |q.val| && Spaced(q, i, j)
    ensures j + |LastOf(q)| <= |q.lv|
  {
    var p: nat :| j <= p && SpacedAt(q, i, p);
  }

  /** What a pattern without a leading `%` is held to: every segment from `i` on, not only the
      first, is compared with the beginning of the target. */
  ghost predicate AllPrefixes(q: Query, i: nat) {
    forall k :: i <= k < |q.val| ==> StartsWith(q.lv, q.val[k])
  }

  /** The tests on the two ends of the target that every turn of the loop repeats. */
  ghost predicate EndsHold(q: Query, i: nat)
    requires i < |q.val|
  {
    && |LastOf(q)| <= |q.lv|
    && (q.isFirst || AllPrefixes(q, i))
    && (q.isLast || EndsWith(q.lv, LastOf(q)))
  }

  /** With the ends in order, a turn of the loop only looks at position `j`. */
  lemma {:induction false} SearchStep(q: Query, i: nat, j: nat)
    requires i < |q.val| && EndsHold(q, i) && j < Bound(q)
    ensures Search(q, i, j) ==
            if !At(q.lv, j, q.val[i]) then Search(q, i, j + 1)
            else if i == |q.val| - 1 then Yes
            else Search(q, i + 1, j + |q.val[i]| + 1)
  {
    AtIsSubstr(q.lv, j, q.val[i]);
    AtIsSubstr(q.lv, 0, q.val[i]);
  }

  /** Taking the first place where a segment fits never misses a placement. */
  lemma {:induction false} GreedyComplete(q: Query, i: nat, j: nat)
    requires i < |q.val| && EndsHold(q, i)
    ensures Search(q, i, j) == Yes <==> Spaced(q, i, j)
    decreases if j <= |q.lv| then |q.lv| + 1 - j else 0
  {
    if j < Bound(q) {
      SearchStep(q, i, j);
      if !At(q.lv, j, q.val[i]) {
        SpacedSkip(q, i, j);
        GreedyComplete(q, i, j + 1);
      } else {
        SpacedHere(q, i, j);
        if i < |q.val| - 1 {
          GreedyComplete(q, i + 1, j + |q.val[i]| + 1);
        }
      }
    } else if Spaced(q, i, j) {
      SpacedBelowBound(q, i, j);
    }
  }

  /** A yes has passed all the other tests on the way. */
  lemma {:induction false} YesNeeds(q: Query, i: nat, j: nat)
    requires i < |q.val| && Search(q, i, j) == Yes
    ensures |LastOf(q)| <= |q.lv| && (q.isLast || EndsWith(q.lv, LastOf(q)))
    ensures q.isFirst || AllPrefixes(q, i)
    decreases if j <= |q.lv| then |q.lv| + 1 - j else 0
  {
    AtIsSubstr(q.lv, 0, q.val[i]);
    AtIsSubstr(q.lv, j, q.val[i]);
    if At(q.lv, j, q.val[i]) {
      if i < |q.val| - 1 {
        YesNeeds(q, i + 1, j + |q.val[i]| + 1);
      }
    } else {
      YesNeeds(q, i, j + 1);
    }
  }

  /** Exactly when the filter says yes, for every pattern and target: the segments can be
      placed in order and at least one character apart, the last one also stands at the end
      unless the pattern ends in `%`, and without a leading `%` every segment is also a
      beginning of the target. */
  lemma {:induction false} LikeV2Exact(lv: string, rv: string)
    requires rv != ""
    ensures var q := QueryOf(lv, rv);
            var i := if q.isFirst then 1 else 0;
            LikeV2(lv, rv) == Yes <==>
              && i < |q.val| && Spaced(q, i, 0)
              && (q.isLast || EndsWith(lv, LastOf(q)))
              && (q.isFirst || AllPrefixes(q, 0))
  {
    var q := QueryOf(lv, rv);
    var i := if q.isFirst then 1 else 0;
    if i < |q.val| {
      if Search(q, i, 0) == Yes {
        YesNeeds(q, i, 0);
        GreedyComplete(q, i, 0);
      } else if Spaced(q, i, 0) && (q.isLast || EndsWith(lv, LastOf(q))) && (q.isFirst || AllPrefixes(q, 0)) {
        SpacedBelowBound(q, i, 0);
        GreedyComplete(q, i, 0);
      }
    }
  }

  /** Adjacent segments are the standard's business but not the filter's. */
  lemma {:induction false} AdjacentSegmentsMissed()
    ensures Matches("ab", "%a%b%") && LikeV2("ab", "%a%b%") == No
  {
  }

  // ---------------------------------------------------------------- the three common shapes

  /** The matcher inside calculPostfix; a pattern without `%` gets no answer at all. */
  datatype MergeVerdict = Answer(yes: bool) | Thrown | NoAnswer

  function MergeLike(target: string, str: string): MergeVerdict {
    var n := |str|;
    if n == 0 then Thrown
    else if str[0] == '%' && str[n - 1] == '%' then Answer(Contains(target, if n == 1 then "" else str[1..n - 1]))
    else if str[0] == '%' then
      var find := str[1..];
      if |find| > |target| then Thrown else Answer(find == target[|target| - |find|..])
    else if str[n - 1] == '%' then
      var find := str[..n - 1];
      Answer(find == Substr(target, 0, |find|))
    else NoAnswer
  }

  lemma {:induction false} SplitPlain(buffer: string, s: string, rest: string)
    requires '%' !in s
    ensures SplitFrom(buffer, s + rest) == SplitFrom(buffer + s, rest)
    decreases |s|
  {
    if s == "" {
      assert s + rest == rest && buffer + s == buffer;
    } else {
      assert (s + rest)[1..] == s[1..] + rest;
      SplitPlain(buffer + [s[0]], s[1..], rest);
      assert buffer + [s[0]] + s[1..] == buffer + s;
    }
  }

  lemma {:induction false} SplitEnd(s: string)
    requires s != "" && '%' !in s
    ensures SplitFrom("", s) == [s] && SplitFrom("", s + "%") == [s]
  {
    assert "" + s == s;
    SplitPlain("", s, "%");
    SplitPlain("", s, "");
    assert s + "" == s;
    assert "%"[1..] == "";
    assert SplitFrom(s, "%") == [s] + SplitFrom("", "");
  }

  lemma {:induction false} SplitShapes(s: string)
    requires s != "" && '%' !in s
    ensures Split("%" + s + "%") == ["", s] && Split("%" + s) == ["", s] && Split(s + "%") == [s]
  {
    SplitEnd(s);
    assert ("%" + s + "%")[1..] == s + "%";
    assert ("%" + s)[1..] == s;
  }

  lemma {:induction false} SearchOne(q: Query, j: nat)
    requires q.isFirst && |q.val| == 2 && |q.val[1]| <= |q.lv| + 1
    requires q.isLast || (|q.val[1]| <= |q.lv| && EndsWith(q.lv, q.val[1]))
    ensures Search(q, 1, j) == Yes <==> exists k: nat :: j <= k && At(q.lv, k, q.val[1])
    decreases if j <= |q.lv| then |q.lv| + 1 - j else 0
  {
    if j < Bound(q) {
      AtIsSubstr(q.lv, j, q.val[1]);
      if !At(q.lv, j, q.val[1]) {
        SearchOne(q, j + 1);
        if k: nat :| j <= k && At(q.lv, k, q.val[1]) {
          assert k != j;
        }
      }
    }
  }

  /** With a leading `%` and a last segment two or more characters longer than the target the
      unsigned bound has wrapped, and the search runs off the end of the target. */
  lemma {:induction false} SearchRunsOff(q: Query, i: nat, j: nat)
    requires q.isFirst && i < |q.val| && |q.lv| + 1 < |LastOf(q)| < 0x8000_0000
    requires j <= |q.lv| + 1
    ensures Search(q, i, j) == Throws
    decreases if j <= |q.lv| then |q.lv| + 1 - j else 0
  {
    assert Bound(q) > |q.lv| + 1;
    if q.isLast && j <= |q.lv| {
      AtIsSubstr(q.lv, j, q.val[i]);
      if At(q.lv, j, q.val[i]) {
        SearchRunsOff(q, i + 1, j + |q.val[i]| + 1);
      } else {
        SearchRunsOff(q, i, j + 1);
      }
    }
  }

  lemma {:induction false} LeadingPercentSplits(rv: string)
    requires |rv| >= 2 && rv[0] == '%'
    ensures Split(rv) == [""] + SplitFrom("", rv[1..]) && |Split(rv)| >= 2
  {
    SplitSpells("", rv[1..]);
  }

  /** Segments `i` to `m - 1` can be placed from position `j` on, one character apart. */
  ghost predicate Fits(q: Query, i: nat, j: nat, m: nat)
    requires i <= m <= |q.val|
    decreases m - i, 1
  {
    i == m || exists p: nat :: j <= p && FitsAt(q, i, p, m)
  }

  ghost predicate FitsAt(q: Query, i: nat, p: nat, m: nat)
    requires i < m <= |q.val|
    decreases m - i, 0
  {
    At(q.lv, p, q.val[i]) && Fits(q, i + 1, p + |q.val[i]| + 1, m)
  }

  lemma {:induction false} FitsPlace(q: Query, i: nat, j: nat, m: nat) returns (p: nat)
    requires i < m <= |q.val| && Fits(q, i, j, m)
    ensures j <= p && FitsAt(q, i, p, m)
  {
    p :| j <= p && FitsAt(q, i, p, m);
  }

  lemma {:induction false} FitsEarlier(q: Query, i: nat, j: nat, k: nat, m: nat)
    requires i <= m <= |q.val| && j <= k && Fits(q, i, k, m)
    ensures Fits(q, i, j, m)
  {
    if i < m {
      var p := FitsPlace(q, i, k, m);
    }
  }

  lemma {:induction false} FitsHere(q: Query, i: nat, j: nat, m: nat)
    requires i < m <= |q.val| && At(q.lv, j, q.val[i])
    ensures Fits(q, i, j, m) <==> Fits(q, i + 1, j + |q.val[i]| + 1, m)
  {
    if Fits(q, i, j, m) {
      var p := FitsPlace(q, i, j, m);
      FitsEarlier(q, i + 1, j + |q.val[i]| + 1, p + |q.val[i]| + 1, m);
    }
    if Fits(q, i + 1, j + |q.val[i]| + 1, m) {
      assert FitsAt(q, i, j, m);
    }
  }

  lemma {:induction false} FitsSkip(q: Query, i: nat, j: nat, m: nat)
    requires i <= m <= |q.val| && i < |q.val| && !At(q.lv, j, q.val[i])
    ensures Fits(q, i, j, m) <==> Fits(q, i, j + 1, m)
  {
    if i < m && Fits(q, i, j, m) {
      var p := FitsPlace(q, i, j, m);
      assert p != j;
    }
    if Fits(q, i, j + 1, m) {
      FitsEarlier(q, i, j, j + 1, m);
    }
  }

  /** Segment `m` is the first that finds no place, and it and those before it are all
      beginnings of the target. */
  ghost predicate Strays(q: Query, i: nat, j: nat, m: nat)
    requires i <= m < |q.val|
  {
    && (forall k :: i <= k <= m ==> StartsWith(q.lv, q.val[k]))
    && Fits(q, i, j, m) && !Fits(q, i, j, m + 1)
  }

  ghost predicate RunsOff(q: Query, i: nat, j: nat) {
    exists m :: i <= m < |q.val| && Strays(q, i, j, m)
  }

  lemma {:induction false} BehindTheEnd(q: Query, i: nat, j: nat)
    requires i < |q.val| && j > |q.lv| && StartsWith(q.lv, q.val[i])
    ensures RunsOff(q, i, j)
  {
    if Fits(q, i, j, i + 1) {
      var p := FitsPlace(q, i, j, i + 1);
    }
    assert Strays(q, i, j, i);
  }

  lemma {:induction false} StraysHere(q: Query, i: nat, j: nat, m: nat)
    requires i < m < |q.val| && At(q.lv, j, q.val[i]) && StartsWith(q.lv, q.val[i])
    ensures Strays(q, i, j, m) <==> Strays(q, i + 1, j + |q.val[i]| + 1, m)
  {
    FitsHere(q, i, j, m);
    FitsHere(q, i, j, m + 1);
  }

  lemma {:induction false} RunsOffHere(q: Query, i: nat, j: nat)
    requires i < |q.val| && At(q.lv, j, q.val[i]) && StartsWith(q.lv, q.val[i])
    ensures RunsOff(q, i, j) <==> RunsOff(q, i + 1, j + |q.val[i]| + 1)
  {
    FitsHere(q, i, j, i + 1);
    if RunsOff(q, i, j) {
      var m :| i <= m < |q.val| && Strays(q, i, j, m);
      StraysHere(q, i, j, m);
    }
    if RunsOff(q, i + 1, j + |q.val[i]| + 1) {
      var m :| i + 1 <= m < |q.val| && Strays(q, i + 1, j + |q.val[i]| + 1, m);
      StraysHere(q, i, j, m);
    }
  }

  lemma {:induction false} StraysSkip(q: Query, i: nat, j: nat, m: nat)
    requires i <= m < |q.val| && !At(q.lv, j, q.val[i])
    ensures Strays(q, i, j, m) <==> Strays(q, i, j + 1, m)
  {
    FitsSkip(q, i, j, m);
    FitsSkip(q, i, j, m + 1);
  }

  lemma {:induction false} RunsOffSkip(q: Query, i: nat, j: nat)
    requires i < |q.val| && !At(q.lv, j, q.val[i])
    ensures RunsOff(q, i, j) <==> RunsOff(q, i, j + 1)
  {
    if RunsOff(q, i, j) {
      var m :| i <= m < |q.val| && Strays(q, i, j, m);
      StraysSkip(q, i, j, m);
    }
    if RunsOff(q, i, j + 1) {
      var m :| i <= m < |q.val| && Strays(q, i, j + 1, m);
      StraysSkip(q, i, j, m);
    }
  }

  /** Without a leading `%` but with a final one, the search runs off exactly at such a segment. */
  lemma {:induction false} SearchStrays(q: Query, i: nat, j: nat)
    requires !q.isFirst && q.isLast && i < |q.val| && |q.lv| + 1 < |LastOf(q)| < 0x8000_0000
    requires j <= |q.lv| + 1
    ensures Search(q, i, j) == Throws <==> RunsOff(q, i, j)
    decreases if j <= |q.lv| then |q.lv| + 1 - j else 0
  {
    assert Bound(q) > |q.lv| + 1;
    AtIsSubstr(q.lv, 0, q.val[i]);
    if !StartsWith(q.lv, q.val[i]) {
      assert forall m :: i <= m < |q.val| ==> !Strays(q, i, j, m);
    } else if j == |q.lv| + 1 {
      BehindTheEnd(q, i, j);
    } else {
      AtIsSubstr(q.lv, j, q.val[i]);
      if At(q.lv, j, q.val[i]) {
        RunsOffHere(q, i, j);
        SearchStrays(q, i + 1, j + |q.val[i]| + 1);
      } else {
        RunsOffSkip(q, i, j);
        SearchStrays(q, i, j + 1);
      }
    }
  }

  /** Exactly when the filter throws, for every pattern and target: the last segment is two or
      more characters longer than the target, and no comparison with the beginning of the
      target, made only without a leading `%`, says no first. */
  lemma {:induction false} ThrowsIff(lv: string, rv: string)
    requires rv != "" && |rv| < 0x8000_0000
    ensures Split(rv) != []
    ensures var q := QueryOf(lv, rv);
            LikeV2(lv, rv) == Throws <==>
              && |LastOf(q)| > |lv| + 1
              && (q.isFirst || if q.isLast then RunsOff(q, 0, 0) else |q.val| >= 2 && StartsWith(lv, q.val[0]))
  {
    SplitSpells("", rv);
    Unit(rv);
    var q := QueryOf(lv, rv);
    var i := if q.isFirst then 1 else 0;
    LastIsShorter("", rv);
    if |LastOf(q)| <= |lv| + 1 {
      if i < |q.val| && Search(q, i, 0) == Throws { SearchThrows(q, i, 0); }
    } else if q.isFirst {
      assert rv != "%";
      LeadingPercentSplits(rv);
      SearchRunsOff(q, 1, 0);
    } else if q.isLast {
      SearchStrays(q, 0, 0);
    } else {
      AtIsSubstr(lv, 0, q.val[0]);
    }
  }

  lemma {:induction false} LastIsShorter(buffer: string, p: string)
    requires SplitFrom(buffer, p) != []
    ensures |SplitFrom(buffer, p)[|SplitFrom(buffer, p)| - 1]| <= |buffer| + |p|
    decreases |p|
  {
    if p != "" {
      if p[0] != '%' {
        LastIsShorter(buffer + [p[0]], p[1..]);
      } else if SplitFrom("", p[1..]) != [] {
        LastIsShorter("", p[1..]);
      }
    }
  }

  /** `%s%`, s possibly empty, on a target long enough: exactly "contains". */
  lemma {:induction false} ContainsAnswer(q: Query)
    requires q.isFirst && q.isLast && |q.val| == 2 && |q.val[1]| <= |q.lv| + 1
    ensures Search(q, 1, 0) == if Contains(q.lv, q.val[1]) then Yes else No
  {
    SearchOne(q, 0);
    if Search(q, 1, 0) == Throws { SearchThrows(q, 1, 0); }
  }

  /** `%s` on a target long enough: exactly "ends with". */
  lemma {:induction false} EndsAnswer(q: Query)
    requires q.isFirst && !q.isLast && |q.val| == 2 && |q.val[1]| <= |q.lv| + 1
    ensures Search(q, 1, 0) == if EndsWith(q.lv, q.val[1]) then Yes else No
  {
    if EndsWith(q.lv, q.val[1]) {
      SearchOne(q, 0);
    }
    if Search(q, 1, 0) == Throws { SearchThrows(q, 1, 0); }
    if Search(q, 1, 0) == Yes { YesNeeds(q, 1, 0); }
  }

  /** `s%`: exactly "starts with". */
  lemma {:induction false} StartsAnswer(q: Query)
    requires !q.isFirst && q.isLast && |q.val| == 1
    ensures Search(q, 0, 0) == if StartsWith(q.lv, q.val[0]) then Yes else No
  {
    AtIsSubstr(q.lv, 0, q.val[0]);
  }

  /** `%s%`: exactly "contains", as long as s is at most one character longer than the
      target; beyond that the unsigned bound wraps and the search runs off the end. */
  lemma {:induction false} ContainsShape(lv: string, s: string)
    requires s != "" && '%' !in s
    ensures |s| <= |lv| + 1 ==> LikeV2(lv, "%" + s + "%") == if Contains(lv, s) then Yes else No
    ensures |lv| + 1 < |s| < 0x8000_0000 ==> LikeV2(lv, "%" + s + "%") == Throws
    ensures MergeLike(lv, "%" + s + "%") == Answer(Contains(lv, s))
  {
    var rv := "%" + s + "%";
    SplitShapes(s);
    var q := QueryOf(lv, rv);
    assert rv[1..|rv| - 1] == s;
    if |s| <= |lv| + 1 {
      ContainsAnswer(q);
    } else if |s| < 0x8000_0000 {
      SearchRunsOff(q, 1, 0);
    }
  }

  /** `%s`: exactly "ends with" under the same bound; merge throws one character earlier. */
  lemma {:induction false} EndsShape(lv: string, s: string)
    requires s != "" && '%' !in s
    ensures |s| <= |lv| + 1 ==> LikeV2(lv, "%" + s) == if EndsWith(lv, s) then Yes else No
    ensures |lv| + 1 < |s| < 0x8000_0000 ==> LikeV2(lv, "%" + s) == Throws
    ensures MergeLike(lv, "%" + s) == if |s| <= |lv| then Answer(EndsWith(lv, s)) else Thrown
  {
    var rv := "%" + s;
    SplitShapes(s);
    var q := QueryOf(lv, rv);
    assert rv[1..] == s;
    assert rv[|rv| - 1] == s[|s| - 1] && s[|s| - 1] in s;
    if |s| <= |lv| + 1 {
      EndsAnswer(q);
    } else if |s| < 0x8000_0000 {
      SearchRunsOff(q, 1, 0);
    }
  }

  /** `s%`: exactly "starts with", for both and for any length. */
  lemma {:induction false} StartsShape(lv: string, s: string)
    requires s != "" && '%' !in s
    ensures LikeV2(lv, s + "%") == if StartsWith(lv, s) then Yes else No
    ensures MergeLike(lv, s + "%") == Answer(StartsWith(lv, s))
  {
    var rv := s + "%";
    SplitShapes(s);
    var q := QueryOf(lv, rv);
    assert rv[0] == s[0] && s[0] in s;
    assert rv[..|rv| - 1] == s;
    AtIsSubstr(lv, 0, s);
    StartsAnswer(q);
  }

  /** Merge looks for whatever stands between the outer `%`, an inner `%` taken literally. */
  lemma {:induction false} MergeLooksLiterally(lv: string, x: string)
    ensures MergeLike(lv, "%" + x + "%") == Answer(Contains(lv, x))
    ensures x != "" && x[|x| - 1] != '%' ==>
              MergeLike(lv, "%" + x) == if |x| <= |lv| then Answer(EndsWith(lv, x)) else Thrown
    ensures x != "" && x[0] != '%' ==> MergeLike(lv, x + "%") == Answer(StartsWith(lv, x))
  {
    var both := "%" + x + "%";
    assert both[1..|both| - 1] == x;
    assert ("%" + x)[1..] == x && (x + "%")[..|x|] == x;
    AtIsSubstr(lv, 0, x);
    if |x| <= |lv| {
      assert lv[|lv| - |x|..] == lv[|lv| - |x|..|lv|];
    }
  }

  // ---------------------------------------------------------------- the shapes in the standard

  lemma {:induction false} PlainMeansEqual(l: string, s: string)
    requires '%' !in s
    ensures Matches(l, s) <==> l == s
    decreases |s|
  {
    if s != "" && l != "" {
      PlainMeansEqual(l[1..], s[1..]);
      assert l == [l[0]] + l[1..] && s == [s[0]] + s[1..];
    }
  }

  lemma {:induction false} PlainPercentMeansStarts(l: string, s: string)
    requires '%' !in s
    ensures Matches(l, s + "%") <==> StartsWith(l, s)
    decreases |s|
  {
    if s == "" {
      assert s + "%" == "%";
      AnythingMatchesPercent(l);
    } else if l != "" {
      assert (s + "%")[1..] == s[1..] + "%";
      PlainPercentMeansStarts(l[1..], s[1..]);
      if |s| <= |l| {
        assert l[..|s|] == [l[0]] + l[1..][..|s| - 1] && s == [s[0]] + s[1..];
      }
    }
  }

  lemma {:induction false} PercentMeansSomewhere(l: string, p: string)
    ensures Matches(l, "%" + p) <==> exists k: nat :: k <= |l| && Matches(l[k..], p)
    decreases |l|
  {
    assert ("%" + p)[1..] == p;
    assert l[0..] == l;
    if l != "" {
      PercentMeansSomewhere(l[1..], p);
      if k: nat :| k <= |l| && Matches(l[k..], p) {
        if k > 0 {
          assert l[1..][k - 1..] == l[k..];
        }
      }
      if k: nat :| k <= |l[1..]| && Matches(l[1..][k..], p) {
        assert l[1..][k..] == l[k + 1..];
      }
    }
  }

  /** The three shapes mean what the standard says they mean. */
  lemma {:induction false} ShapesInTheStandard(l: string, s: string)
    requires '%' !in s
    ensures Matches(l, "%" + s + "%") <==> Contains(l, s)
    ensures Matches(l, "%" + s) <==> EndsWith(l, s)
    ensures Matches(l, s + "%") <==> StartsWith(l, s)
  {
    PlainPercentMeansStarts(l, s);
    PercentMeansSomewhere(l, s + "%");
    PercentMeansSomewhere(l, s);
    assert "%" + s + "%" == "%" + (s + "%");
    forall k: nat | k <= |l|
      ensures Matches(l[k..], s + "%") <==> At(l, k, s)
      ensures Matches(l[k..], s) <==> l[k..] == s
    {
      PlainPercentMeansStarts(l[k..], s);
      PlainMeansEqual(l[k..], s);
      if k + |s| <= |l| {
        assert l[k..][..|s|] == l[k..k + |s|];
      }
    }
    if EndsWith(l, s) {
      assert l[|l| - |s|..] == s;
    }
  }

  // ---------------------------------------------------------------- when the matchers are LIKE

  /** The first `n` segments with nothing in between. */
  function Flat(val: seq<string>, n: nat): string
    requires n <= |val|
  {
    if n == 0 then "" else Flat(val, n - 1) + val[n - 1]
  }

  lemma {:induction false} FlatMatchesHead(val: seq<string>, n: nat)
    requires n <= |val| && forall i :: 0 <= i < |val| ==> '%' !in val[i]
    ensures Matches(Flat(val, n), Head(val, n))
  {
    if n > 0 {
      FlatMatchesHead(val, n - 1);
      PlainMatchesItself(val[n - 1]);
      MatchesAppend(Flat(val, n - 1), Head(val, n - 1), val[n - 1], val[n - 1]);
      AnythingMatchesPercent("");
      MatchesAppend(Flat(val, n), Head(val, n - 1) + val[n - 1], "", "%");
      Unit(Flat(val, n));
    }
  }

  lemma {:induction false} FlatMatchesJoined(val: seq<string>, isLast: bool)
    requires val != [] && forall i :: 0 <= i < |val| ==> '%' !in val[i]
    ensures Matches(Flat(val, |val|), Joined(val, isLast))
  {
    var n := |val| - 1;
    if isLast {
      FlatMatchesHead(val, |val|);
    } else {
      FlatMatchesHead(val, n);
      PlainMatchesItself(val[n]);
      MatchesAppend(Flat(val, n), Head(val, n), val[n], val[n]);
    }
  }

  /** Every `%` may stand for nothing: the segments run together match the pattern. */
  lemma {:induction false} FlatMatches(rv: string)
    requires rv != ""
    ensures Split(rv) != [] && Matches(Flat(Split(rv), |Split(rv)|), rv)
  {
    SplitSpells("", rv);
    Unit(rv);
    forall i | 0 <= i < |Split(rv)| ensures '%' !in Split(rv)[i] {
      SegmentsArePlain("", rv, i);
    }
    FlatMatchesJoined(Split(rv), EndsInPercent(rv));
  }

  lemma {:induction false} FlatIsPlain(rv: string, n: nat)
    requires n <= |Split(rv)|
    ensures '%' !in Flat(Split(rv), n)
  {
    if n > 0 {
      FlatIsPlain(rv, n - 1);
      SegmentsArePlain("", rv, n - 1);
    }
  }

  /** Segments at least one character apart need room for the gaps. */
  lemma {:induction false} SpacedNeedsRoom(q: Query, i: nat, j: nat)
    requires i < |q.val| && Spaced(q, i, j)
    ensures j + |Flat(q.val, |q.val|)| - |Flat(q.val, i)| + (|q.val| - 1 - i) <= |q.lv|
    decreases |q.val| - i
  {
    var p: nat :| j <= p && SpacedAt(q, i, p);
    if i < |q.val| - 1 {
      SpacedNeedsRoom(q, i + 1, p + |q.val[i]| + 1);
    }
  }

  /** How many segments the filter reads as SQL does: one, behind an empty one for a leading `%`. */
  ghost predicate OneSegment(rv: string)
    requires rv != ""
  {
    |Split(rv)| == if rv[0] == '%' then 2 else 1
  }

  /** What the filter should say. */
  ghost predicate FilterAgrees(lv: string, rv: string)
    requires rv != ""
  {
    LikeV2(lv, rv) == if Matches(lv, rv) then Yes else No
  }

  /** Such a pattern is one plain text with `%` at one end or both. */
  lemma {:induction false} OneSegmentShape(rv: string, s: string)
    requires '%' in rv && OneSegment(rv) && s == Split(rv)[|Split(rv)| - 1]
    ensures '%' !in s
    ensures rv == if rv[0] != '%' then s + "%" else if EndsInPercent(rv) then "%" + s + "%" else "%" + s
  {
    SplitSpells("", rv);
    SplitFirst("", rv);
    Unit(rv);
    SegmentsArePlain("", rv, |Split(rv)| - 1);
    JoinedOne(s);
    if rv[0] == '%' {
      assert Split(rv) == [""] + [s];
      JoinedCons("", [s], EndsInPercent(rv));
      Unit("%");
      Assoc("%", s, "%");
    } else {
      assert Split(rv) == [s];
    }
  }

  lemma {:induction false} OneSegmentAgrees(lv: string, rv: string)
    requires '%' in rv && OneSegment(rv) && |LastOf(QueryOf(lv, rv))| <= |lv| + 1
    ensures FilterAgrees(lv, rv)
  {
    var q := QueryOf(lv, rv);
    OneSegmentShape(rv, LastOf(q));
    ShapesInTheStandard(lv, LastOf(q));
    if !q.isFirst { StartsAnswer(q); }
    else if q.isLast { ContainsAnswer(q); }
    else { EndsAnswer(q); }
  }

  /** Any other pattern has a target, its segments run together, that it matches and the
      filter denies. */
  lemma {:induction false} ManySegmentsMissed(rv: string) returns (lv: string)
    requires '%' in rv && !OneSegment(rv)
    ensures Split(rv) != [] && |LastOf(QueryOf(lv, rv))| <= |lv| + 1
    ensures Matches(lv, rv) && LikeV2(lv, rv) != Yes
  {
    var val := Split(rv);
    SplitFirst("", rv);
    FlatMatches(rv);
    lv := Flat(val, |val|);
    var q := QueryOf(lv, rv);
    var i := if q.isFirst then 1 else 0;
    LikeV2Exact(lv, rv);
    assert Flat(val, 0) == "" && (q.isFirst ==> Flat(val, 1) == "" + val[0]);
    if LikeV2(lv, rv) == Yes {
      SpacedNeedsRoom(q, i, 0);
    }
  }

  /** A pattern without `%` is only compared with both ends of the target, so it accepts more
      than itself. */
  lemma {:induction false} NoPercentIsBothEnds(lv: string, rv: string)
    requires rv != "" && '%' !in rv
    ensures LikeV2(lv, rv) == Yes <==> StartsWith(lv, rv) && EndsWith(lv, rv)
    ensures Split(rv) == [rv]
  {
    SplitEnd(rv);
    assert rv[0] in rv && rv[|rv| - 1] in rv;
    AtIsSubstr(lv, 0, rv);
  }

  lemma {:induction false} NoPercentAcceptsTwice(rv: string)
    requires rv != "" && '%' !in rv
    ensures LikeV2(rv + rv, rv) == Yes && !Matches(rv + rv, rv)
  {
    NoPercentIsBothEnds(rv + rv, rv);
    PlainMeansEqual(rv + rv, rv);
  }

  /** The filter is LIKE, on all targets on which it does not throw, for exactly the patterns
      `s%`, `%s`, `%s%` and `%%`. */
  lemma {:induction false} FilterIsLikeIff(rv: string)
    requires rv != ""
    ensures Split(rv) != []
    ensures (forall lv :: |LastOf(QueryOf(lv, rv))| <= |lv| + 1 ==> FilterAgrees(lv, rv))
            <==> '%' in rv && OneSegment(rv)
  {
    if '%' !in rv {
      NoPercentIsBothEnds(rv, rv);
      NoPercentAcceptsTwice(rv);
      assert !FilterAgrees(rv + rv, rv);
    } else if OneSegment(rv) {
      forall lv | |LastOf(QueryOf(lv, rv))| <= |lv| + 1 ensures FilterAgrees(lv, rv) {
        OneSegmentAgrees(lv, rv);
      }
    } else {
      var lv := ManySegmentsMissed(rv);
      assert !FilterAgrees(lv, rv);
    }
  }

  /** `%` alone is denied for every target. */
  lemma {:induction false} PercentAloneMissed(lv: string)
    ensures Matches(lv, "%") && LikeV2(lv, "%") == No
  {
    AnythingMatchesPercent(lv);
    assert "%"[1..] == "";
    assert Split("%") == [""] + SplitFrom("", "");
  }

  // merge's matcher

  /** What merge looks for: the pattern without its outer `%`. */
  function Find(rv: string): string {
    var inner := if rv != "" && rv[0] == '%' then rv[1..] else rv;
    if inner != "" && inner[|inner| - 1] == '%' then inner[..|inner| - 1] else inner
  }

  ghost predicate MergeAgrees(lv: string, rv: string) {
    MergeLike(lv, rv) == Answer(Matches(lv, rv))
  }

  /** Only then does merge answer at all. */
  predicate PercentAtAnEnd(rv: string) { rv != "" && (rv[0] == '%' || rv[|rv| - 1] == '%') }

  /** Put together from what merge looks for. */
  lemma {:induction false} FindShape(rv: string)
    requires PercentAtAnEnd(rv) && rv != "%" && '%' !in Find(rv)
    ensures var s := Find(rv);
            || rv == "%" + s + "%"
            || (rv == "%" + s && s != "" && s[|s| - 1] != '%')
            || (rv == s + "%" && s != "" && s[0] != '%')
  {
    var s := Find(rv);
    if rv[0] != '%' {
      assert rv[..|rv| - 1] == s;
    } else if rv[|rv| - 1] == '%' {
      assert rv[1..|rv| - 1] == s;
    } else {
      assert rv[1..] == s && s[|s| - 1] == rv[|rv| - 1];
    }
  }

  lemma {:induction false} ShapesAgree(lv: string, s: string)
    requires '%' !in s && |s| <= |lv|
    ensures MergeAgrees(lv, "%" + s + "%")
    ensures s != "" && s[|s| - 1] != '%' ==> MergeAgrees(lv, "%" + s)
    ensures s != "" && s[0] != '%' ==> MergeAgrees(lv, s + "%")
  {
    ShapesInTheStandard(lv, s);
    MergeLooksLiterally(lv, s);
  }

  lemma {:induction false} PlainFindAgrees(lv: string, rv: string)
    requires PercentAtAnEnd(rv) && '%' !in Find(rv) && |Find(rv)| <= |lv|
    ensures MergeAgrees(lv, rv)
  {
    if rv == "%" {
      AnythingMatchesPercent(lv);
      assert At(lv, 0, "");
    } else {
      FindShape(rv);
      ShapesAgree(lv, Find(rv));
    }
  }

  function Padding(n: nat): (p: string)
    ensures |p| == n && '%' !in p
  {
    if n == 0 then "" else "x" + Padding(n - 1)
  }

  lemma {:induction false} PercentSkips(pad: string, s: string, p: string)
    requires p != "" && p[0] == '%' && Matches(s, p)
    ensures Matches(pad + s, p)
    decreases |pad|
  {
    if pad == "" {
      Unit(s);
    } else {
      PercentSkips(pad[1..], s, p);
      assert (pad + s)[1..] == pad[1..] + s;
    }
  }

  /** A target without any `%` of at least a given length that matches the pattern. */
  lemma {:induction false} LongMatch(rv: string, n: nat) returns (lv: string)
    requires rv != "" && (rv[0] == '%' || rv[|rv| - 1] == '%')
    ensures Matches(lv, rv) && '%' !in lv && |lv| >= n
  {
    var flat, pad := Flat(Split(rv), |Split(rv)|), Padding(n);
    FlatMatches(rv);
    FlatIsPlain(rv, |Split(rv)|);
    if rv[0] == '%' {
      PercentSkips(pad, flat, rv);
      lv := pad + flat;
    } else {
      assert rv == rv[..|rv| - 1] + "%";
      PercentAbsorbs(flat, rv[..|rv| - 1], pad);
      lv := flat + pad;
    }
  }

  lemma {:induction false} PlainHasNoPercent(s: string, k: int, t: string)
    requires '%' !in s && At(s, k, t)
    ensures '%' !in t
  {
    forall i | 0 <= i < |t| ensures t[i] != '%' {
      assert t[i] == s[k..k + |t|][i] == s[k + i];
    }
  }

  /** Wherever merge looks, a yes means that the text stands there. */
  lemma {:induction false} YesMeansContains(lv: string, rv: string)
    requires rv != "" && MergeLike(lv, rv) == Answer(true)
    ensures Contains(lv, Find(rv))
  {
    var s := Find(rv);
    if rv[0] == '%' && rv[|rv| - 1] == '%' {
      assert rv == "%" || rv[1..|rv| - 1] == s;
    } else if rv[0] == '%' {
      assert rv[1..] == s;
      assert At(lv, |lv| - |s|, s);
    } else {
      assert rv[..|rv| - 1] == s;
      AtIsSubstr(lv, 0, s);
    }
  }

  lemma {:induction false} InnerPercentDenied(lv: string, rv: string)
    requires rv != "" && '%' in Find(rv) && '%' !in lv
    ensures MergeLike(lv, rv) != Answer(true)
  {
    if MergeLike(lv, rv) == Answer(true) {
      YesMeansContains(lv, rv);
      var k :| 0 <= k <= |lv| && At(lv, k, Find(rv));
      PlainHasNoPercent(lv, k, Find(rv));
    }
  }

  /** Merge's matcher is LIKE, on all targets that are long enough, for exactly the patterns
      with a `%` at one end or both and none inside. */
  lemma {:induction false} MergeIsLikeIff(rv: string)
    ensures (forall lv :: |Find(rv)| <= |lv| ==> MergeAgrees(lv, rv)) <==> PercentAtAnEnd(rv) && '%' !in Find(rv)
  {
    if !PercentAtAnEnd(rv) {
      assert !MergeAgrees(Find(rv), rv);
    } else if '%' in Find(rv) {
      var lv := LongMatch(rv, |Find(rv)|);
      InnerPercentDenied(lv, rv);
      assert !MergeAgrees(lv, rv);
    } else {
      forall lv | |Find(rv)| <= |lv| ensures MergeAgrees(lv, rv) {
        PlainFindAgrees(lv, rv);
      }
    }
  }
}
