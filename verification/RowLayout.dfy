/** Where the columns of a packed row lie: found lazily with a memo by the filter
    (filter.cc, GetColumnoff) and eagerly with a running correction by merge
    (merge_manager.cc, getColOffset). */
module RowLayout {
  import opened Rows

  /** One entry of table_col, table_offset, table_offlen and table_datatype;
      `varchar` is MySQL_VARSTRING. */
  datatype Column = Column(name: string, offset: nat, len: nat, varchar: bool)

  type Schema = seq<Column>

  ghost predicate DistinctNames(s: Schema) {
    forall i, j :: 0 <= i < j < |s| ==> s[i].name != s[j].name
  }

  /** Declared offsets follow each other without gaps. */
  ghost predicate Packed(s: Schema) {
    forall i :: 0 <= i < |s| - 1 ==> s[i + 1].offset == s[i].offset + s[i].len
  }

  /** A byte of a row. Memory outside it is read as zero; no result below depends on that. */
  function ByteAt(row: Row, at: int): Byte {
    if 0 <= at < |row| then row[at] else 0
  }

  /** The length prefix of a varchar takes one byte, or two from 256 declared bytes on. */
  function PrefixSize(c: Column): nat {
    if !c.varchar then 0 else if c.len < 256 then 1 else 2
  }

  function Payload(c: Column, row: Row, at: int): nat {
    if !c.varchar then c.len
    else if c.len < 256 then ByteAt(row, at)
    else ByteAt(row, at) + 256 * ByteAt(row, at + 1)
  }

  function FieldSize(c: Column, row: Row, at: int): nat {
    PrefixSize(c) + Payload(c, row, at)
  }

  /** Where column `i` really starts: the fields before it, one after the other. */
  function Start(s: Schema, row: Row, i: nat): nat
    requires i <= |s|
  {
    if i == 0 then (if s == [] then 0 else s[0].offset)
    else Start(s, row, i - 1) + FieldSize(s[i - 1], row, Start(s, row, i - 1))
  }

  /** Every field lies inside the row and the last one ends it. */
  ghost predicate WellFormedRow(s: Schema, row: Row) {
    && (forall i :: 0 <= i <= |s| ==> Start(s, row, i) <= |row|)
    && Start(s, row, |s|) == |row|
  }

  // ---------------------------------------------------------------- eager

  /** `tune`: by how much the fields before column `i` differ from their declared sizes. */
  function Tune(s: Schema, row: Row, i: nat): int
    requires i <= |s|
  {
    if i == 0 then 0
    else
      var c := s[i - 1];
      var at := c.offset + Tune(s, row, i - 1);
      Tune(s, row, i - 1) + if c.varchar then FieldSize(c, row, at) - c.len else 0
  }

  function Eager(s: Schema, row: Row, i: nat): int
    requires i < |s|
  {
    s[i].offset + Tune(s, row, i)
  }

  method GetColOffset(s: Schema, row: Row) returns (offsets: seq<int>)
    ensures |offsets| == |s|
    ensures forall i :: 0 <= i < |s| ==> offsets[i] == Eager(s, row, i)
  {
    offsets := [];
    var tune := 0;
    for i := 0 to |s|
      invariant |offsets| == i && tune == Tune(s, row, i)
      invariant forall j :: 0 <= j < i ==> offsets[j] == Eager(s, row, j)
    {
      var at := s[i].offset + tune;
      if s[i].varchar {
        if s[i].len < 256 {
          tune := tune + ByteAt(row, at) + 1 - s[i].len;
        } else {
          tune := tune + (ByteAt(row, at) + 256 * ByteAt(row, at + 1)) + 2 - s[i].len;
        }
      }
      offsets := offsets + [at];
    }
  }

  /** On a packed schema the running correction finds every column. */
  lemma {:induction false} EagerIsStart(s: Schema, row: Row, i: nat)
    requires Packed(s) && i < |s|
    ensures Eager(s, row, i) == Start(s, row, i)
  {
    if i > 0 {
      EagerIsStart(s, row, i - 1);
    }
  }

  /** It finds them all for one row exactly when the schema is packed. */
  lemma {:induction false} EagerIffPacked(s: Schema, row: Row)
    ensures (forall i :: 0 <= i < |s| ==> Eager(s, row, i) == Start(s, row, i)) <==> Packed(s)
  {
    if Packed(s) {
      forall i | 0 <= i < |s| ensures Eager(s, row, i) == Start(s, row, i) {
        EagerIsStart(s, row, i);
      }
    } else {
      var i :| 0 <= i < |s| - 1 && s[i + 1].offset != s[i].offset + s[i].len;
      if Eager(s, row, i) == Start(s, row, i) {
        assert Eager(s, row, i + 1) != Start(s, row, i + 1);
      }
    }
  }

  // ---------------------------------------------------------------- lazy

  /** The row in its place in the scan buffer. */
  ghost predicate RowInBuffer(buffer: seq<Byte>, base: nat, row: Row) {
    base + |row| <= |buffer| && buffer[base..base + |row|] == row
  }

  /** Reading a field through the buffer is reading it in the row. */
  lemma {:induction false} SameField(s: Schema, buffer: seq<Byte>, base: nat, row: Row, i: nat)
    requires RowInBuffer(buffer, base, row) && WellFormedRow(s, row) && i < |s|
    ensures Payload(s[i], buffer, base + Start(s, row, i)) == Payload(s[i], row, Start(s, row, i))
  {
    var at := Start(s, row, i);
    assert Start(s, row, i + 1) == at + FieldSize(s[i], row, at) <= |row|;
    if s[i].varchar {
      assert buffer[base + at] == buffer[base..base + |row|][at];
      if s[i].len >= 256 {
        assert buffer[base + at + 1] == buffer[base..base + |row|][at + 1];
      }
    }
  }

  /** The memo of the filter: `rowfilterdata`, `newstartptr` and `newlengthraw`. */
  class ColumnFinder {
    const schema: Schema
    const buffer: seq<Byte>
    var colIndexMap: map<string, nat>
    var rowOffset: nat
    var offsetCount: nat
    var newStartPtr: map<string, int>
    var newLengthRaw: map<string, int>
    ghost var row: Row

    /** The first `offsetCount` columns, and no others, are memoised at their true places. */
    ghost predicate Ok()
      reads this
    {
      && schema != [] && DistinctNames(schema)
      && RowInBuffer(buffer, rowOffset, row) && WellFormedRow(schema, row)
      && offsetCount <= |schema|
      && (forall i :: 0 <= i < |schema| ==> schema[i].name in colIndexMap && colIndexMap[schema[i].name] == i)
      && (forall n :: n in colIndexMap ==> colIndexMap[n] < |schema|)
      && (forall i :: 0 <= i < |schema| ==> (schema[i].name in newStartPtr <==> i < offsetCount))
      && (forall i :: 0 <= i < |schema| ==> (schema[i].name in newLengthRaw <==> i < offsetCount))
      && forall i :: 0 <= i < offsetCount ==> Memoised(i)
    }

    ghost predicate Memoised(i: nat)
      requires i < |schema| && schema[i].name in newStartPtr && schema[i].name in newLengthRaw
      reads this
    {
      && newStartPtr[schema[i].name] == rowOffset + Start(schema, row, i) + PrefixSize(schema[i])
      && newLengthRaw[schema[i].name] == Payload(schema[i], row, Start(schema, row, i))
    }

    constructor (schema: Schema, buffer: seq<Byte>, rowOffset: nat, ghost row: Row)
      requires schema != [] && DistinctNames(schema)
      requires RowInBuffer(buffer, rowOffset, row) && WellFormedRow(schema, row)
      ensures Ok() && this.schema == schema && this.rowOffset == rowOffset && this.row == row
    {
      this.schema, this.buffer, this.rowOffset, this.row := schema, buffer, rowOffset, row;
      offsetCount, newStartPtr, newLengthRaw := 0, map[], map[];
      colIndexMap := map n | n in (set i | 0 <= i < |schema| :: schema[i].name) ::
                       IndexOf(schema, n);
      new;
      forall i | 0 <= i < |schema| ensures IndexOf(schema, schema[i].name) == i {
        IndexOfName(schema, i);
      }
    }

    /** A new row: BlockFilter clears the memo. */
    method NextRow(rowOffset: nat, ghost row: Row)
      requires Ok() && RowInBuffer(buffer, rowOffset, row) && WellFormedRow(schema, row)
      modifies this
      ensures Ok() && this.rowOffset == rowOffset && this.row == row && offsetCount == 0
    {
      this.rowOffset, this.row := rowOffset, row;
      offsetCount, newStartPtr, newLengthRaw := 0, map[], map[];
    }

    /** Memoise one more column. */
    method Memoise()
      requires Ok() && offsetCount < |schema|
      modifies this
      ensures Ok() && offsetCount == old(offsetCount) + 1
      ensures rowOffset == old(rowOffset) && row == old(row) && colIndexMap == old(colIndexMap)
    {
      var i := offsetCount;
      var c := schema[i];
      var start: int;
      if i == 0 {
        start := rowOffset + c.offset;
      } else {
        assert Memoised(i - 1);
        start := newStartPtr[schema[i - 1].name] + newLengthRaw[schema[i - 1].name];
      }
      assert start == rowOffset + Start(schema, row, i);
      SameField(schema, buffer, rowOffset, row, i);
      Record(c, start + PrefixSize(c), Payload(c, buffer, start));
    }

    /** Enter the next column into the memo. */
    method Record(c: Column, start: int, length: int)
      requires Ok() && offsetCount < |schema| && c == schema[offsetCount]
      requires start == rowOffset + Start(schema, row, offsetCount) + PrefixSize(c)
      requires length == Payload(c, row, Start(schema, row, offsetCount))
      modifies this`newStartPtr, this`newLengthRaw, this`offsetCount
      ensures Ok() && offsetCount == old(offsetCount) + 1
    {
      var i := offsetCount;
      newStartPtr := newStartPtr[c.name := start];
      newLengthRaw := newLengthRaw[c.name := length];
      offsetCount := i + 1;
      forall k | 0 <= k < offsetCount ensures Memoised(k) {
        if k < i { assert old(Memoised(k)); }
      }
    }

    /** Find a column, memoising every column up to it. A name that is not in the
        index map is entered there with index 0, as operator[] does. */
    method GetColumnoff(name: string)
      requires Ok()
      modifies this
      ensures Ok() && rowOffset == old(rowOffset) && row == old(row)
      ensures offsetCount >= old(offsetCount)
      ensures forall i :: 0 <= i < |schema| && schema[i].name == name ==> i < offsetCount
    {
      if name !in colIndexMap {
        colIndexMap := colIndexMap[name := 0];
        forall k | 0 <= k < offsetCount ensures Memoised(k) {
          assert old(Memoised(k));
        }
      }
      var last := colIndexMap[name];
      while offsetCount < last + 1
        invariant Ok() && rowOffset == old(rowOffset) && row == old(row)
        invariant offsetCount >= old(offsetCount)
        invariant name in colIndexMap && colIndexMap[name] == last
        decreases last + 1 - offsetCount
      {
        Memoise();
      }
    }

    /** Any sequence of requests, in any order. */
    method GetColumns(names: seq<string>)
      requires Ok()
      modifies this
      ensures Ok() && rowOffset == old(rowOffset) && row == old(row)
      ensures forall i :: 0 <= i < |schema| && schema[i].name in names ==> i < offsetCount
    {
      for n := 0 to |names|
        invariant Ok() && rowOffset == old(rowOffset) && row == old(row)
        invariant forall i :: 0 <= i < |schema| && schema[i].name in names[..n] ==> i < offsetCount
      {
        GetColumnoff(names[n]);
      }
      assert names[..|names|] == names;
    }
  }

  function IndexOf(s: Schema, name: string): nat
    requires name in (set i | 0 <= i < |s| :: s[i].name)
    ensures IndexOf(s, name) < |s| && s[IndexOf(s, name)].name == name
  {
    if s[0].name == name then 0 else
      assert name in (set i | 0 <= i < |s[1..]| :: s[1..][i].name) by {
        var i :| 0 <= i < |s| && s[i].name == name;
        assert s[1..][i - 1].name == name;
      }
      1 + IndexOf(s[1..], name)
  }

  lemma {:induction false} IndexOfName(s: Schema, i: nat)
    requires DistinctNames(s) && i < |s|
    ensures s[i].name in (set k | 0 <= k < |s| :: s[k].name) && IndexOf(s, s[i].name) == i
  {
  }

  /** Column `i` is cut at the same places by both: the filter's start is merge's plus the
      row base and the length prefix, its end is where merge puts the next column. */
  ghost predicate SameCut(finder: ColumnFinder, row: Row, offsets: seq<int>, i: nat)
    requires i < |finder.schema| == |offsets|
    reads finder
  {
    var name := finder.schema[i].name;
    && name in finder.newStartPtr && name in finder.newLengthRaw
    && finder.newStartPtr[name] == finder.rowOffset + offsets[i] + PrefixSize(finder.schema[i])
    && finder.newStartPtr[name] + finder.newLengthRaw[name]
       == finder.rowOffset + if i + 1 < |offsets| then offsets[i + 1] else |row|
  }

  lemma {:induction false} MemoisedIsSameCut(finder: ColumnFinder, row: Row, offsets: seq<int>, i: nat)
    requires finder.Ok() && Packed(finder.schema) && row == finder.row && i < finder.offsetCount
    requires |offsets| == |finder.schema|
    requires forall k :: 0 <= k < |offsets| ==> offsets[k] == Eager(finder.schema, row, k)
    ensures SameCut(finder, row, offsets, i)
  {
    assert finder.Memoised(i);
    EagerIsStart(finder.schema, row, i);
    var at := Start(finder.schema, row, i);
    assert Start(finder.schema, row, i + 1) == at + FieldSize(finder.schema[i], row, at);
    if i + 1 < |offsets| {
      EagerIsStart(finder.schema, row, i + 1);
    }
  }

  /** For every packed schema, well-formed row and order of requests the two stages cut
      the row at the same places. */
  method ColumnsAgree(finder: ColumnFinder, row: Row, names: seq<string>) returns (offsets: seq<int>)
    requires finder.Ok() && Packed(finder.schema) && row == finder.row
    modifies finder
    ensures finder.Ok() && |offsets| == |finder.schema|
    ensures forall i :: 0 <= i < |finder.schema| ==> offsets[i] == Eager(finder.schema, row, i)
    ensures forall i :: 0 <= i < |finder.schema| && finder.schema[i].name in names ==> SameCut(finder, row, offsets, i)
  {
    finder.GetColumns(names);
    offsets := GetColOffset(finder.schema, row);
    forall i | 0 <= i < |finder.schema| && finder.schema[i].name in names
      ensures SameCut(finder, row, offsets, i)
    {
      MemoisedIsSameCut(finder, row, offsets, i);
    }
  }

  // ---------------------------------------------------------------- rows put together from their columns

  /** A column as it is stored: a varchar behind its length, one byte for declarations under 256
      bytes and else two, the less significant first. */
  function Stored(c: Column, content: Row): Row {
    if !c.varchar then content
    else if c.len < 256 then [|content| % 256] + content
    else [|content| % 256, |content| / 256 % 256] + content
  }

  ghost predicate ContentFor(c: Column, content: Row) {
    if !c.varchar then |content| == c.len else |content| < if c.len < 256 then 256 else 65536
  }

  ghost predicate ContentsFor(s: Schema, contents: seq<Row>) {
    |contents| == |s| && forall i :: 0 <= i < |s| ==> ContentFor(s[i], contents[i])
  }

  /** Whatever stands in front of the first column, and the first `n` columns. */
  function Assemble(lead: Row, s: Schema, contents: seq<Row>, n: nat): Row
    requires n <= |s| == |contents|
  {
    if n == 0 then lead else Assemble(lead, s, contents, n - 1) + Stored(s[n - 1], contents[n - 1])
  }

  lemma {:induction false} AssembleGrows(lead: Row, s: Schema, contents: seq<Row>, n: nat, m: nat)
    requires n <= m <= |s| == |contents|
    ensures Assemble(lead, s, contents, n) <= Assemble(lead, s, contents, m)
    decreases m - n
  {
    if n < m {
      AssembleGrows(lead, s, contents, n, m - 1);
    }
  }

  lemma {:induction false} PrefixLookup(a: Row, b: Row, k: nat)
    requires a <= b && k < |a|
    ensures b[k] == a[k]
  {
  }

  lemma {:induction false} StoredIsRead(c: Column, content: Row, before: Row, row: Row)
    requires ContentFor(c, content) && before + Stored(c, content) <= row
    ensures FieldSize(c, row, |before|) == |Stored(c, content)| && Payload(c, row, |before|) == |content|
  {
    var all := before + Stored(c, content);
    if c.varchar {
      PrefixLookup(all, row, |before|);
      assert all[|before|] == Stored(c, content)[0];
      if c.len >= 256 {
        PrefixLookup(all, row, |before| + 1);
        assert all[|before| + 1] == Stored(c, content)[1];
      }
    }
  }

  /** Column `i` starts where it was put. */
  lemma {:induction false} StartIsWhereItWasPut(lead: Row, s: Schema, contents: seq<Row>, i: nat)
    requires s != [] && s[0].offset == |lead| && ContentsFor(s, contents) && i <= |s|
    ensures Start(s, Assemble(lead, s, contents, |s|), i) == |Assemble(lead, s, contents, i)|
  {
    if i > 0 {
      StartIsWhereItWasPut(lead, s, contents, i - 1);
      AssembleGrows(lead, s, contents, i, |s|);
      StoredIsRead(s[i - 1], contents[i - 1], Assemble(lead, s, contents, i - 1), Assemble(lead, s, contents, |s|));
    }
  }

  /** Every row put together from its columns is well formed, and each column is cut out of it
      with exactly the content it was given. */
  lemma {:induction false} ColumnsReadBack(lead: Row, s: Schema, contents: seq<Row>, i: nat)
    requires s != [] && s[0].offset == |lead| && ContentsFor(s, contents) && i < |s|
    ensures var row := Assemble(lead, s, contents, |s|);
            var at := Start(s, row, i) + PrefixSize(s[i]);
            && WellFormedRow(s, row)
            && at + Payload(s[i], row, Start(s, row, i)) <= |row|
            && row[at..at + Payload(s[i], row, Start(s, row, i))] == contents[i]
  {
    var row, before := Assemble(lead, s, contents, |s|), Assemble(lead, s, contents, i);
    forall k | 0 <= k <= |s| ensures Start(s, row, k) == |Assemble(lead, s, contents, k)| <= |row| {
      StartIsWhereItWasPut(lead, s, contents, k);
      AssembleGrows(lead, s, contents, k, |s|);
    }
    AssembleGrows(lead, s, contents, i + 1, |s|);
    StoredIsRead(s[i], contents[i], before, row);
    ContentCut(s[i], contents[i], before, row);
  }

  lemma {:induction false} ContentCut(c: Column, content: Row, before: Row, row: Row)
    requires ContentFor(c, content) && before + Stored(c, content) <= row
    ensures var at := |before| + PrefixSize(c); at + |content| <= |row| && row[at..at + |content|] == content
  {
    var all := before + Stored(c, content);
    var at := |before| + PrefixSize(c);
    assert all[at..] == content;
    assert row[..|all|] == all;
    assert row[at..at + |content|] == row[..|all|][at..];
  }
}
