/** The key columns written in front of a row (scan.cc, getPrimaryKeyData), and why
    merge finds them again (merge_manager.cc, getColOffset). */
module PrimaryKey {
  import opened Rows
  import opened RowLayout
  import opened BigEndian

  const SEP: Byte := 0x03
  const GAP: Byte := 0x20
  const FIN: Byte := 0x02

  /** INT32, INT64 and DATE keys are byte-reversed, DECIMAL and STRING keys copied,
      VARSTRING keys rewritten with a length byte. */
  datatype Kind = Reversed | Copied | VarString

  datatype KeyColumn = KeyColumn(kind: Kind, length: nat)

  // ---------------------------------------------------------------- one key column

  function Reverse(s: Row): (r: Row)
    ensures |r| == |s|
  {
    if s == [] then [] else Reverse(s[1..]) + [s[0]]
  }

  /** The characters of a varstring key: up to FIN, without separators and padding. */
  function VarContent(key: Row, at: nat): Row
    decreases |key| - at
  {
    if at >= |key| || key[at] == FIN then []
    else if key[at] == SEP || key[at] == GAP then VarContent(key, at + 1)
    else [key[at]] + VarContent(key, at + 1)
  }

  /** The position behind the terminator. */
  function VarNext(key: Row, at: nat): (n: nat)
    ensures n >= at
    decreases |key| - at
  {
    if at >= |key| then at else if key[at] == FIN then at + 1 else VarNext(key, at + 1)
  }

  ghost predicate Terminated(key: Row, at: nat)
    decreases |key| - at
  {
    at < |key| && (key[at] == FIN || Terminated(key, at + 1))
  }

  /** What the key holds for one column is there and fits its declaration. */
  ghost predicate Readable(key: Row, at: nat, c: KeyColumn) {
    if c.kind.VarString? then Terminated(key, at) && |VarContent(key, at)| <= c.length
    else at + c.length <= |key|
  }

  /** The length in front of a varstring key: one byte, or two, the more significant first. */
  function LengthBytes(n: nat): Row {
    if n < 256 then [n] else [n / 256 % 256, n % 256]
  }

  /** The bytes written for one column. */
  function Field(key: Row, at: nat, c: KeyColumn): Row
    requires !c.kind.VarString? ==> at + c.length <= |key|
  {
    match c.kind
    case Reversed => Reverse(key[at..at + c.length])
    case Copied => key[at..at + c.length]
    case VarString => LengthBytes(|VarContent(key, at)|) + VarContent(key, at)
  }

  function Next(key: Row, at: nat, c: KeyColumn): nat {
    if c.kind.VarString? then VarNext(key, at) else at + c.length
  }

  // ---------------------------------------------------------------- all key columns

  ghost predicate ReadableFrom(key: Row, at: nat, cs: seq<KeyColumn>)
    decreases |cs|
  {
    cs != [] ==> Readable(key, at, cs[0]) && ReadableFrom(key, Next(key, at, cs[0]), cs[1..])
  }

  ghost function Fields(key: Row, at: nat, cs: seq<KeyColumn>): (fs: seq<Row>)
    requires ReadableFrom(key, at, cs)
    ensures |fs| == |cs|
    decreases |cs|
  {
    if cs == [] then [] else [Field(key, at, cs[0])] + Fields(key, Next(key, at, cs[0]), cs[1..])
  }

  /** One turn of the loop below. */
  lemma {:induction false} VarStep(key: Row, at: nat, content: Row)
    requires Terminated(key, at) && key[at] != FIN
    ensures Terminated(key, at + 1) && VarNext(key, at) == VarNext(key, at + 1)
    ensures content + VarContent(key, at)
         == (if key[at] == SEP || key[at] == GAP then content else content + [key[at]]) + VarContent(key, at + 1)
  {
  }

  /** The loop that strips a varstring key. */
  method ReadVarString(key: Row, at: nat) returns (content: Row, next: nat)
    requires Terminated(key, at)
    ensures content == VarContent(key, at) && next == VarNext(key, at)
  {
    content, next := [], at;
    var end := false;
    Unit(VarContent(key, at));
    while !end
      invariant !end ==> Terminated(key, next) && VarNext(key, at) == VarNext(key, next)
      invariant !end ==> VarContent(key, at) == content + VarContent(key, next)
      invariant end ==> content == VarContent(key, at) && next == VarNext(key, at)
      decreases !end, |key| - next
    {
      if key[next] == SEP || key[next] == GAP {
        VarStep(key, next, content);
        next := next + 1;
      } else if key[next] == FIN {
        Unit(content);
        next := next + 1;
        end := true;
      } else {
        VarStep(key, next, content);
        content := content + [key[next]];
        next := next + 1;
      }
    }
  }

  method ReverseBytes(s: Row) returns (r: Row)
    ensures r == Reverse(s)
  {
    r := [];
    var i := 0;
    assert s[..|s|] == s;
    while i < |s|
      invariant i <= |s|
      invariant Reverse(s) == r + Reverse(s[..|s| - i])
    {
      ReverseLast(s[..|s| - i]);
      assert s[..|s| - i][..|s| - i - 1] == s[..|s| - i - 1];
      r := r + [s[|s| - i - 1]];
      i := i + 1;
    }
  }

  lemma {:induction false} ReverseLast(s: Row)
    requires s != []
    ensures Reverse(s) == [s[|s| - 1]] + Reverse(s[..|s| - 1])
  {
    if |s| > 1 {
      ReverseLast(s[1..]);
      assert s[1..][..|s| - 2] == s[..|s| - 1][1..];
    }
  }

  /** The switch over the key type: what is written for one column, and where the next begins. */
  method WriteField(key: Row, at: nat, c: KeyColumn) returns (field: Row, next: nat)
    requires Readable(key, at, c)
    ensures field == Field(key, at, c) && next == Next(key, at, c)
  {
    match c.kind {
      case Reversed =>
        field := ReverseBytes(key[at..at + c.length]);
        next := at + c.length;
      case Copied =>
        field, next := key[at..at + c.length], at + c.length;
      case VarString =>
        var content;
        content, next := ReadVarString(key, at);
        var n := |content|;
        if n < 256 {
          field := [n] + content;
        } else {
          field := [n / 256 % 256, n % 256] + content;
        }
    }
  }

  lemma {:induction false} FieldsCons(key: Row, at: nat, cs: seq<KeyColumn>)
    requires cs != [] && ReadableFrom(key, at, cs)
    ensures Concat(Fields(key, at, cs)) == Field(key, at, cs[0]) + Concat(Fields(key, Next(key, at, cs[0]), cs[1..]))
  {
    var field, later := Field(key, at, cs[0]), Fields(key, Next(key, at, cs[0]), cs[1..]);
    assert ([field] + later)[1..] == later;
  }

  /** getPrimaryKeyData: behind the four bytes of the index number, column by column. */
  method GetPrimaryKeyData(key: Row, cs: seq<KeyColumn>) returns (dest: Row)
    requires ReadableFrom(key, 4, cs)
    ensures dest == Concat(Fields(key, 4, cs))
  {
    dest := [];
    var at: nat := 4;
    var i := 0;
    assert cs[0..] == cs;
    while i < |cs|
      invariant i <= |cs| && ReadableFrom(key, at, cs[i..])
      invariant Concat(Fields(key, 4, cs)) == dest + Concat(Fields(key, at, cs[i..]))
    {
      assert cs[i..][0] == cs[i] && cs[i..][1..] == cs[i + 1..];
      FieldsCons(key, at, cs[i..]);
      var field, next := WriteField(key, at, cs[i]);
      Assoc(dest, field, Concat(Fields(key, next, cs[i + 1..])));
      dest, at, i := dest + field, next, i + 1;
    }
  }

  // ---------------------------------------------------------------- finding them again

  /** The first columns of the table are its key columns (scan.h). */
  ghost predicate KeySchema(s: Schema, cs: seq<KeyColumn>) {
    && |cs| <= |s| && (s != [] ==> s[0].offset == 0)
    && forall i :: 0 <= i < |cs| ==> s[i].len == cs[i].length && (s[i].varchar <==> cs[i].kind.VarString?)
  }

  /** Where the key holds column `k`. */
  function KeyAt(key: Row, at: nat, cs: seq<KeyColumn>, k: nat): nat
    requires k < |cs|
    decreases k
  {
    if k == 0 then at else KeyAt(key, Next(key, at, cs[0]), cs[1..], k - 1)
  }

  /** A varstring key that merge reads as it was written. Scan chooses one or two length bytes
      by the actual length and puts the more significant first; merge chooses by the declared
      length and reads the less significant first. So two length bytes must be equal. */
  predicate Delimits(c: KeyColumn, n: nat) {
    c.kind.VarString? && c.length >= 256 ==> n >= 256 && n / 256 == n % 256
  }

  /** Column `k` of a key is such. */
  predicate DelimitsAt(key: Row, cs: seq<KeyColumn>, k: nat)
    requires k < |cs|
  {
    Delimits(cs[k], |VarContent(key, KeyAt(key, 4, cs, k))|)
  }

  lemma {:induction false} FieldsAt(key: Row, at: nat, cs: seq<KeyColumn>, k: nat)
    requires ReadableFrom(key, at, cs) && k < |cs|
    ensures Readable(key, KeyAt(key, at, cs, k), cs[k])
    ensures Fields(key, at, cs)[k] == Field(key, KeyAt(key, at, cs, k), cs[k])
    decreases k
  {
    if k > 0 {
      FieldsAt(key, Next(key, at, cs[0]), cs[1..], k - 1);
    }
  }

  lemma {:induction false} TwoByteLength(n: nat)
    requires n >= 256
    ensures n / 256 % 256 + 256 * (n % 256) == n <==> n / 256 == n % 256
  {
    var hi, lo := n / 256, n % 256;
    assert n == 256 * hi + lo;
    assert hi == 256 * (hi / 256) + hi % 256;
  }

  /** Merge finds the end of a field exactly when it delimits itself. */
  lemma {:induction false} FieldEndFound(c: KeyColumn, col: Column, key: Row, from: nat, row: Row, at: nat)
    requires col.len == c.length && (col.varchar <==> c.kind.VarString?) && Readable(key, from, c)
    requires var f := Field(key, from, c); at + |f| <= |row| && row[at..at + |f|] == f
    ensures FieldSize(col, row, at) == |Field(key, from, c)| <==> Delimits(c, |VarContent(key, from)|)
  {
    if c.kind.VarString? {
      var content, f := VarContent(key, from), Field(key, from, c);
      var n := |content|;
      assert row[at] == row[at..at + |f|][0] == f[0];
      if n >= 256 {
        assert row[at + 1] == row[at..at + |f|][1] == f[1];
        TwoByteLength(n);
      }
    }
  }

  lemma {:induction false} MiddleSlice(a: Row, b: Row, c: Row)
    ensures (a + b + c)[|a|..|a| + |b|] == b
  {
  }

  lemma {:induction false} ConcatSplit(fs: seq<Row>, i: nat, value: Row)
    requires i < |fs|
    ensures var row, at := Concat(fs) + value, |Concat(fs[..i])|;
            at + |fs[i]| <= |row| && row[at..at + |fs[i]|] == fs[i]
    ensures |Concat(fs[..i + 1])| == |Concat(fs[..i])| + |fs[i]|
  {
    var a, b, c := Concat(fs[..i]), fs[i], Concat(fs[i + 1..]);
    assert fs[..i + 1] == fs[..i] + [fs[i]];
    ConcatSnoc(fs[..i], fs[i]);
    assert fs == fs[..i + 1] + fs[i + 1..];
    ConcatAppend(fs[..i + 1], fs[i + 1..]);
    Assoc(a + b, c, value);
    MiddleSlice(a, b, c + value);
  }

  /** All key columns, one after the other, and the value. */
  ghost function Assembled(key: Row, cs: seq<KeyColumn>, value: Row): Row
    requires ReadableFrom(key, 4, cs)
  {
    Concat(Fields(key, 4, cs)) + value
  }

  /** Found the start of a field, merge finds the next exactly when the field delimits itself. */
  lemma {:induction false} NextStart(s: Schema, cs: seq<KeyColumn>, key: Row, value: Row, i: nat)
    requires KeySchema(s, cs) && ReadableFrom(key, 4, cs) && i < |cs|
    requires Start(s, Assembled(key, cs, value), i) == |Concat(Fields(key, 4, cs)[..i])|
    ensures var fs, row := Fields(key, 4, cs), Assembled(key, cs, value);
            && |Concat(fs[..i + 1])| == |Concat(fs[..i])| + |fs[i]|
            && (FieldSize(s[i], row, |Concat(fs[..i])|) == |fs[i]| <==> DelimitsAt(key, cs, i))
  {
    var fs := Fields(key, 4, cs);
    ConcatSplit(fs, i, value);
    FieldsAt(key, 4, cs, i);
    FieldEndFound(cs[i], s[i], key, KeyAt(key, 4, cs, i), Assembled(key, cs, value), |Concat(fs[..i])|);
  }

  lemma {:induction false} StartOfField(s: Schema, cs: seq<KeyColumn>, key: Row, value: Row, i: nat)
    requires KeySchema(s, cs) && ReadableFrom(key, 4, cs) && i <= |cs|
    requires forall k :: 0 <= k < i ==> DelimitsAt(key, cs, k)
    ensures Start(s, Assembled(key, cs, value), i) == |Concat(Fields(key, 4, cs)[..i])|
  {
    if i > 0 {
      StartOfField(s, cs, key, value, i - 1);
      NextStart(s, cs, key, value, i - 1);
      assert DelimitsAt(key, cs, i - 1);
    }
  }

  /** Merge puts key column `i` exactly where field `i` was written, finds its end, and finds
      the value behind the last field. */
  ghost predicate Recovered(s: Schema, fs: seq<Row>, row: Row, i: nat)
    requires i < |fs| <= |s|
  {
    var at := Eager(s, row, i);
    && at == |Concat(fs[..i])| && at + |fs[i]| <= |row| && row[at..at + |fs[i]|] == fs[i]
    && at + FieldSize(s[i], row, at) == |Concat(fs[..i + 1])|
    && Start(s, row, |fs|) == |Concat(fs)|
  }

  lemma {:induction false} DelimitedRecovered(s: Schema, cs: seq<KeyColumn>, key: Row, value: Row, i: nat)
    requires ReadableFrom(key, 4, cs) && KeySchema(s, cs) && Packed(s) && i < |cs|
    requires forall k :: 0 <= k < |cs| ==> DelimitsAt(key, cs, k)
    ensures Recovered(s, Fields(key, 4, cs), Assembled(key, cs, value), i)
  {
    var fs := Fields(key, 4, cs);
    StartOfField(s, cs, key, value, i);
    StartOfField(s, cs, key, value, |cs|);
    assert fs[..|cs|] == fs;
    NextStart(s, cs, key, value, i);
    assert DelimitsAt(key, cs, i);
    ConcatSplit(fs, i, value);
    EagerIsStart(s, Assembled(key, cs, value), i);
  }

  /** The first column that does not delimit itself is not recovered. */
  lemma {:induction false} UndelimitedLost(s: Schema, cs: seq<KeyColumn>, key: Row, value: Row, i: nat)
    requires ReadableFrom(key, 4, cs) && KeySchema(s, cs) && Packed(s) && i < |cs|
    requires !DelimitsAt(key, cs, i) && forall k :: 0 <= k < i ==> DelimitsAt(key, cs, k)
    ensures !Recovered(s, Fields(key, 4, cs), Assembled(key, cs, value), i)
  {
    StartOfField(s, cs, key, value, i);
    NextStart(s, cs, key, value, i);
    EagerIsStart(s, Assembled(key, cs, value), i);
  }

  lemma {:induction false} FirstUndelimited(key: Row, cs: seq<KeyColumn>, n: nat) returns (i: nat)
    requires n <= |cs| && exists k :: 0 <= k < n && !DelimitsAt(key, cs, k)
    ensures i < n && !DelimitsAt(key, cs, i) && forall k :: 0 <= k < i ==> DelimitsAt(key, cs, k)
  {
    if exists k :: 0 <= k < n - 1 && !DelimitsAt(key, cs, k) {
      i := FirstUndelimited(key, cs, n - 1);
    } else {
      i := n - 1;
    }
  }

  /** For every readable key: merge's column offsets are exactly where each key column was
      written, and the value begins where the last of them ends, if and only if every
      varstring key is declared with fewer than 256 bytes or has two equal length bytes. */
  lemma {:induction false} KeyColumnsRecovered(s: Schema, cs: seq<KeyColumn>, key: Row, value: Row)
    requires ReadableFrom(key, 4, cs) && KeySchema(s, cs) && Packed(s)
    ensures (forall i :: 0 <= i < |cs| ==> Recovered(s, Fields(key, 4, cs), Assembled(key, cs, value), i))
            <==> forall k :: 0 <= k < |cs| ==> DelimitsAt(key, cs, k)
  {
    if forall k :: 0 <= k < |cs| ==> DelimitsAt(key, cs, k) {
      forall i | 0 <= i < |cs| ensures Recovered(s, Fields(key, 4, cs), Assembled(key, cs, value), i) {
        DelimitedRecovered(s, cs, key, value, i);
      }
    } else {
      var i := FirstUndelimited(key, cs, |cs|);
      UndelimitedLost(s, cs, key, value, i);
    }
  }

  // ---------------------------------------------------------------- when a key is written at all

  /** The constructor's loop over the columns: `primary_length` is reset for every one. */
  method PrimaryLength(lengths: seq<nat>, primaryCount: nat) returns (primaryLength: nat)
    requires lengths != []
    ensures primaryLength == if primaryCount >= |lengths| then lengths[|lengths| - 1] else 0
  {
    primaryLength := 0;
    for j := 0 to |lengths|
      invariant primaryLength == if j > 0 && j <= primaryCount then lengths[j - 1] else 0
    {
      primaryLength := 0;
      if j < primaryCount {
        primaryLength := primaryLength + lengths[j];
      }
    }
  }

  // ---------------------------------------------------------------- room for the key

  /** How many bytes are written for one column. */
  function WrittenLength(key: Row, at: nat, c: KeyColumn): nat {
    if c.kind.VarString? then |LengthBytes(|VarContent(key, at)|)| + |VarContent(key, at)| else c.length
  }

  function KeyLength(key: Row, at: nat, cs: seq<KeyColumn>): nat
    decreases |cs|
  {
    if cs == [] then 0 else WrittenLength(key, at, cs[0]) + KeyLength(key, Next(key, at, cs[0]), cs[1..])
  }

  lemma {:induction false} KeyLengthIs(key: Row, at: nat, cs: seq<KeyColumn>)
    requires ReadableFrom(key, at, cs)
    ensures |Concat(Fields(key, at, cs))| == KeyLength(key, at, cs)
    decreases |cs|
  {
    if cs != [] {
      KeyLengthIs(key, Next(key, at, cs[0]), cs[1..]);
      FieldsCons(key, at, cs);
    }
  }

  /** `total_row_data` has primary_length bytes for the key, which for a key that is written at
      all is the declared length of the last key column. */
  ghost predicate FitsTotalRow(key: Row, cs: seq<KeyColumn>, value: Row)
    requires cs != [] && ReadableFrom(key, 4, cs)
  {
    |Assembled(key, cs, value)| <= cs[|cs| - 1].length + |value|
  }

  /** Key and value fit `total_row_data` exactly when the bytes of all key columns together are
      no more than the last one is declared with. */
  lemma {:induction false} KeyFitsIff(key: Row, cs: seq<KeyColumn>, value: Row)
    requires cs != [] && ReadableFrom(key, 4, cs)
    ensures FitsTotalRow(key, cs, value) <==> KeyLength(key, 4, cs) <= cs[|cs| - 1].length
  {
    KeyLengthIs(key, 4, cs);
  }

  function DeclaredLength(cs: seq<KeyColumn>): nat {
    if cs == [] then 0 else cs[0].length + DeclaredLength(cs[1..])
  }

  ghost predicate FixedLengths(cs: seq<KeyColumn>) {
    forall i :: 0 <= i < |cs| ==> !cs[i].kind.VarString? && cs[i].length > 0
  }

  lemma {:induction false} FixedKeyLength(key: Row, at: nat, cs: seq<KeyColumn>)
    requires FixedLengths(cs)
    ensures KeyLength(key, at, cs) == DeclaredLength(cs)
    decreases |cs|
  {
    if cs != [] {
      FixedKeyLength(key, Next(key, at, cs[0]), cs[1..]);
    }
  }

  lemma {:induction false} MoreThanTheLast(cs: seq<KeyColumn>)
    requires cs != [] && FixedLengths(cs)
    ensures DeclaredLength(cs) >= cs[|cs| - 1].length
    ensures DeclaredLength(cs) == cs[|cs| - 1].length <==> |cs| == 1
    decreases |cs|
  {
    if |cs| == 1 {
      assert DeclaredLength(cs[1..]) == 0;
    } else {
      MoreThanTheLast(cs[1..]);
    }
  }

  /** With key columns of fixed length that is so exactly when there is only one of them. */
  lemma {:induction false} FixedKeysFitIffOne(key: Row, cs: seq<KeyColumn>, value: Row)
    requires cs != [] && ReadableFrom(key, 4, cs) && FixedLengths(cs)
    ensures FitsTotalRow(key, cs, value) <==> |cs| == 1
  {
    KeyFitsIff(key, cs, value);
    FixedKeyLength(key, 4, cs);
    MoreThanTheLast(cs);
  }

  /** Two int32 keys: eight bytes where four are allowed for. */
  lemma {:induction false} TwoIntKeysOverrun(key: Row, value: Row)
    requires |key| >= 12
    ensures var cs := [KeyColumn(Reversed, 4), KeyColumn(Reversed, 4)];
            && ReadableFrom(key, 4, cs) && |Concat(Fields(key, 4, cs))| == 8
            && !FitsTotalRow(key, cs, value)
  {
    var c := KeyColumn(Reversed, 4);
    var cs := [c, c];
    assert cs[1..] == [c] && [c][1..] == [];
    assert ReadableFrom(key, 12, []) && ReadableFrom(key, 8, [c]);
    assert DeclaredLength([c]) == 4 + DeclaredLength([]);
    assert DeclaredLength(cs) == 4 + DeclaredLength(cs[1..]) == 8;
    KeyLengthIs(key, 4, cs);
    FixedKeyLength(key, 4, cs);
    FixedKeysFitIffOne(key, cs, value);
  }

  // ---------------------------------------------------------------- integer keys

  lemma {:induction false} ReverseFlips(s: Row, i: nat)
    requires i < |s|
    ensures Reverse(s)[i] == s[|s| - 1 - i]
  {
    if i < |s| - 1 {
      ReverseFlips(s[1..], i);
    }
  }

  /** The byte of an integer key with the sign bit stays as it is. */
  lemma {:induction false} SignByteKept(key: Row, at: nat, n: nat)
    requires n > 0 && at + n <= |key|
    ensures Field(key, at, KeyColumn(Reversed, n))[n - 1] == key[at]
  {
    ReverseFlips(key[at..at + n], n - 1);
  }

  /** Reversing a big-endian number makes it little-endian. */
  lemma {:induction false} ReverseChangesOrder(s: Row)
    ensures LittleEndian(Reverse(s)) == Value(s)
  {
    if s != [] {
      var tail := s[1..];
      ReverseChangesOrder(tail);
      LittleSnoc(Reverse(tail), s[0]);
      assert Reverse(s) == Reverse(tail) + [s[0]];
      ValueCons(s);
    }
  }

  /** A key holds the integer `v` as v + 2^(8n-1), most significant byte first. */
  ghost predicate HoldsInteger(key: Row, at: nat, n: nat, v: int)
    requires n > 0 && at + n <= |key|
  {
    v < Half(n) && Value(key[at..at + n]) == v + Half(n)
  }

  /** What is read back from the row is off by half the range, for every integer: never `v`. */
  lemma {:induction false} IntegerKeyIsOff(key: Row, at: nat, n: nat, v: int)
    requires n > 0 && at + n <= |key| && HoldsInteger(key, at, n, v)
    ensures var read := AsSigned(LittleEndian(Field(key, at, KeyColumn(Reversed, n))), n);
            read == (if v < 0 then v + Half(n) else v - Half(n)) && read != v
  {
    ReverseChangesOrder(key[at..at + n]);
  }

  // ---------------------------------------------------------------- varstring keys

  /** Bytes that do not survive in a varstring key: the separator, the blank, the terminator. */
  predicate IsSpecial(b: Byte) { b == SEP || b == GAP || b == FIN }

  ghost predicate Plain(text: Row) { forall i :: 0 <= i < |text| ==> !IsSpecial(text[i]) }

  /** A text followed by the terminator stands in the key. */
  ghost predicate TextAt(key: Row, at: nat, text: Row) {
    at + |text| < |key| && key[at..at + |text|] == text && key[at + |text|] == FIN
  }

  lemma {:induction false} TextAtTail(key: Row, at: nat, text: Row)
    requires TextAt(key, at, text) && text != []
    ensures key[at] == text[0] && TextAt(key, at + 1, text[1..])
  {
    assert key[at] == key[at..at + |text|][0];
    assert key[at + 1..at + |text|] == key[at..at + |text|][1..];
  }

  lemma {:induction false} ContentIsShorter(key: Row, at: nat, text: Row)
    requires TextAt(key, at, text)
    ensures |VarContent(key, at)| <= |text|
    decreases |text|
  {
    if text != [] {
      TextAtTail(key, at, text);
      ContentIsShorter(key, at + 1, text[1..]);
    }
  }

  /** The text comes out as it went in exactly when it holds none of them: blanks inside a text
      are dropped like padding. */
  lemma {:induction false} TextSurvivesIff(key: Row, at: nat, text: Row)
    requires TextAt(key, at, text)
    ensures VarContent(key, at) == text <==> Plain(text)
    decreases |text|
  {
    if text != [] {
      TextAtTail(key, at, text);
      TextSurvivesIff(key, at + 1, text[1..]);
      ContentIsShorter(key, at + 1, text[1..]);
      assert Plain(text) <==> !IsSpecial(text[0]) && Plain(text[1..]);
      assert text == [text[0]] + text[1..];
    }
  }

  // ---------------------------------------------------------------- a key and its columns

  /** What a key holds for a column: its bytes, or a text that a terminator follows. */
  datatype Part = Fixed(bytes: Row) | Text(text: Row)

  ghost predicate PartFor(c: KeyColumn, p: Part) {
    match p
    case Fixed(bytes) => !c.kind.VarString? && |bytes| == c.length
    case Text(text) => c.kind.VarString? && FIN !in text && |Stripped(text)| <= c.length
  }

  ghost predicate PartsFor(cs: seq<KeyColumn>, ps: seq<Part>) {
    |ps| == |cs| && forall i :: 0 <= i < |cs| ==> PartFor(cs[i], ps[i])
  }

  function PartBytes(p: Part): Row {
    match p
    case Fixed(bytes) => bytes
    case Text(text) => text + [FIN]
  }

  function PartsBytes(ps: seq<Part>): Row {
    if ps == [] then [] else PartBytes(ps[0]) + PartsBytes(ps[1..])
  }

  /** A text without its separators and blanks. */
  function Stripped(text: Row): Row {
    if text == [] then []
    else (if text[0] == SEP || text[0] == GAP then [] else [text[0]]) + Stripped(text[1..])
  }

  /** What a column of the row must hold: integers and dates least significant byte first,
      decimals and strings as they are, varstrings behind their length. */
  ghost predicate Image(c: KeyColumn, p: Part, field: Row)
    requires PartFor(c, p)
  {
    match c.kind
    case Reversed => |field| == |p.bytes| && forall i :: 0 <= i < |field| ==> field[i] == p.bytes[|p.bytes| - 1 - i]
    case Copied => field == p.bytes
    case VarString =>
      var text := Stripped(p.text);
      if |text| < 256 then field == [|text|] + text
      else |field| == 2 + |text| && field[2..] == text
           && field[0] == |text| / 256 % 256 && field[1] == |text| % 256
  }

  lemma {:induction false} PlainIsStripped(text: Row)
    requires Plain(text)
    ensures Stripped(text) == text
  {
    if text != [] {
      assert !IsSpecial(text[0]);
      PlainIsStripped(text[1..]);
    }
  }

  /** Reading a text that stands in the key. */
  lemma {:induction false} TextRead(key: Row, at: nat, text: Row)
    requires TextAt(key, at, text) && FIN !in text
    ensures Terminated(key, at) && VarContent(key, at) == Stripped(text) && VarNext(key, at) == at + |text| + 1
    decreases |text|
  {
    if text != [] {
      TextAtTail(key, at, text);
      TextRead(key, at + 1, text[1..]);
    }
  }

  /** One column: the field is its image, and the next column is read from behind its part. */
  lemma {:induction false} PartRead(key: Row, at: nat, c: KeyColumn, p: Part)
    requires PartFor(c, p) && PartStands(key, at, p)
    ensures Readable(key, at, c) && Next(key, at, c) == at + |PartBytes(p)|
    ensures Image(c, p, Field(key, at, c))
  {
    match p
    case Fixed(bytes) =>
      if c.kind.Reversed? {
        forall i | 0 <= i < |bytes| ensures Reverse(bytes)[i] == bytes[|bytes| - 1 - i] {
          ReverseFlips(bytes, i);
        }
      }
    case Text(text) =>
      var all := text + [FIN];
      assert key[at..at + |text|] == all[..|text|] == text;
      assert key[at + |text|] == key[at..at + |all|][|text|] == FIN;
      TextRead(key, at, text);
  }

  ghost predicate PartStands(key: Row, at: nat, p: Part) {
    at + |PartBytes(p)| <= |key| && key[at..at + |PartBytes(p)|] == PartBytes(p)
  }

  /** The parts stand in the key, one after the other, from a position on. */
  ghost predicate PartsAt(key: Row, at: nat, ps: seq<Part>)
    decreases |ps|
  {
    ps != [] ==> PartStands(key, at, ps[0]) && PartsAt(key, at + |PartBytes(ps[0])|, ps[1..])
  }

  lemma {:induction false} PrefixSplit(tail: Row, x: Row, y: Row)
    requires x + y <= tail
    ensures |x| <= |tail| && tail[..|x|] == x && y <= tail[|x|..]
  {
    var z := x + y;
    assert z[..|x|] == x && z[|x|..] == y;
    assert tail[..|z|] == z;
    assert tail[..|x|] == tail[..|z|][..|x|];
    assert tail[|x|..][..|y|] == tail[..|z|][|x|..];
  }

  lemma {:induction false} TailOfTail(key: Row, at: nat, n: nat)
    requires at + n <= |key|
    ensures key[at..][..n] == key[at..at + n] && key[at..][n..] == key[at + n..]
  {
  }

  lemma {:induction false} FirstStands(key: Row, at: nat, x: Row, y: Row)
    requires at <= |key| && x + y <= key[at..]
    ensures at + |x| <= |key| && key[at..at + |x|] == x && y <= key[at + |x|..]
  {
    PrefixSplit(key[at..], x, y);
    TailOfTail(key, at, |x|);
  }

  lemma {:induction false} PartsStand(key: Row, at: nat, ps: seq<Part>)
    requires at <= |key| && PartsBytes(ps) <= key[at..]
    ensures PartsAt(key, at, ps)
    decreases |ps|
  {
    if ps != [] {
      FirstStands(key, at, PartBytes(ps[0]), PartsBytes(ps[1..]));
      PartsStand(key, at + |PartBytes(ps[0])|, ps[1..]);
    }
  }

  lemma {:induction false} PartsForTail(cs: seq<KeyColumn>, ps: seq<Part>)
    requires PartsFor(cs, ps) && cs != []
    ensures PartFor(cs[0], ps[0]) && PartsFor(cs[1..], ps[1..])
  {
    forall i | 0 <= i < |cs| - 1 ensures PartFor(cs[1..][i], ps[1..][i]) {
      assert PartFor(cs[i + 1], ps[i + 1]);
    }
  }

  lemma {:induction false} PartReadable(key: Row, at: nat, c: KeyColumn, p: Part)
    requires PartFor(c, p) && PartStands(key, at, p)
    ensures Readable(key, at, c) && Next(key, at, c) == at + |PartBytes(p)|
  {
    PartRead(key, at, c, p);
  }

  lemma {:induction false} ReadableCons(key: Row, at: nat, cs: seq<KeyColumn>, next: nat)
    requires cs != [] && Readable(key, at, cs[0]) && next == Next(key, at, cs[0]) && ReadableFrom(key, next, cs[1..])
    ensures ReadableFrom(key, at, cs)
  {
  }

  lemma {:induction false} PartsReadable(key: Row, at: nat, cs: seq<KeyColumn>, ps: seq<Part>)
    requires PartsFor(cs, ps) && PartsAt(key, at, ps)
    ensures ReadableFrom(key, at, cs)
    decreases |cs|
  {
    if cs != [] {
      var next := at + |PartBytes(ps[0])|;
      PartsForTail(cs, ps);
      PartsReadable(key, next, cs[1..], ps[1..]);
      PartReadable(key, at, cs[0], ps[0]);
      ReadableCons(key, at, cs, next);
    }
  }

  /** Column `k` is read from where part `k` stands. */
  lemma {:induction false} PartPlace(key: Row, at: nat, cs: seq<KeyColumn>, ps: seq<Part>, k: nat)
    requires PartsFor(cs, ps) && PartsAt(key, at, ps) && k < |cs|
    ensures PartStands(key, KeyAt(key, at, cs, k), ps[k])
    decreases k
  {
    PartsForTail(cs, ps);
    if k > 0 {
      PartPlace(key, at + |PartBytes(ps[0])|, cs[1..], ps[1..], k - 1);
      PartReadable(key, at, cs[0], ps[0]);
    }
  }

  lemma {:induction false} PartsRead(key: Row, at: nat, cs: seq<KeyColumn>, ps: seq<Part>, k: nat)
    requires PartsFor(cs, ps) && PartsAt(key, at, ps) && ReadableFrom(key, at, cs) && k < |cs|
    ensures Image(cs[k], ps[k], Fields(key, at, cs)[k])
  {
    PartPlace(key, at, cs, ps, k);
    FieldsAt(key, at, cs, k);
    PartRead(key, KeyAt(key, at, cs, k), cs[k], ps[k]);
  }

  /** For every key put together from an index number, the parts of its columns and anything
      behind them: what is written is the images of the parts, one after the other. */
  lemma {:induction false} KeyWritten(index: Row, cs: seq<KeyColumn>, ps: seq<Part>, behind: Row)
    returns (fields: seq<Row>)
    requires |index| == 4 && PartsFor(cs, ps)
    ensures var key := index + PartsBytes(ps) + behind;
            ReadableFrom(key, 4, cs) && Concat(Fields(key, 4, cs)) == Concat(fields)
    ensures |fields| == |cs| && forall k :: 0 <= k < |cs| ==> Image(cs[k], ps[k], fields[k])
  {
    var key := index + PartsBytes(ps) + behind;
    assert key[4..] == PartsBytes(ps) + behind;
    PartsStand(key, 4, ps);
    PartsReadable(key, 4, cs, ps);
    fields := Fields(key, 4, cs);
    forall k | 0 <= k < |cs| ensures Image(cs[k], ps[k], fields[k]) {
      PartsRead(key, 4, cs, ps, k);
    }
  }
}
