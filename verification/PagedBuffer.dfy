/** The paged row buffer shared by `Result` (merge_manager.h) and `MergeResult`
    (return.h): a fixed block of bytes and the offset of every row in it. */
module PagedBuffer {
  import opened Rows

  /** The buffer as a value, the way it is copied into a queue. */
  datatype Page = Page(data: seq<Byte>, rowOffset: seq<nat>, rowCount: nat, length: nat)

  ghost predicate Valid(p: Page) {
    && |p.data| == BUFF_SIZE
    && p.rowCount == |p.rowOffset|
    && p.length <= BUFF_SIZE
    && (p.rowOffset == [] ==> p.length == 0)
    && (p.rowOffset != [] ==> p.rowOffset[0] == 0)
    && (forall i :: 0 <= i < |p.rowOffset| ==> p.rowOffset[i] <= RowEnd(p, i) <= p.length)
  }

  /** Where row `i` ends: at the next offset, or at the end of the data. */
  function RowEnd(p: Page, i: nat): nat
    requires i < |p.rowOffset|
  {
    if i + 1 < |p.rowOffset| then p.rowOffset[i + 1] else p.length
  }

  function RowAt(p: Page, i: nat): Row
    requires Valid(p) && i < p.rowCount
  {
    p.data[p.rowOffset[i]..RowEnd(p, i)]
  }

  function FirstRows(p: Page, n: nat): (rows: seq<Row>)
    requires Valid(p) && n <= p.rowCount
    ensures |rows| == n
  {
    if n == 0 then [] else FirstRows(p, n - 1) + [RowAt(p, n - 1)]
  }

  /** The rows a page holds, in order. */
  function Decode(p: Page): (rows: seq<Row>)
    requires Valid(p)
    ensures |rows| == p.rowCount
  {
    FirstRows(p, p.rowCount)
  }

  /** The offsets of a valid page never decrease. */
  lemma {:induction false} OffsetsSorted(p: Page, i: nat, j: nat)
    requires Valid(p) && i <= j < p.rowCount
    ensures p.rowOffset[i] <= p.rowOffset[j]
    decreases j - i
  {
    if i < j {
      assert p.rowOffset[i] <= RowEnd(p, i);
      OffsetsSorted(p, i + 1, j);
    }
  }

  /** memcpy of `src` into `data` at `at`. */
  function Splice(data: seq<Byte>, at: nat, src: Row): (r: seq<Byte>)
    requires at + |src| <= |data|
    ensures |r| == |data|
    ensures r[..at] == data[..at] && r[at..at + |src|] == src
  {
    data[..at] + src + data[at + |src|..]
  }

  function Append(p: Page, row: Row): Page
    requires p.length + |row| <= |p.data|
  {
    Page(Splice(p.data, p.length, row), p.rowOffset + [p.length], p.rowCount + 1, p.length + |row|)
  }

  /** InitResult / InitMergeResult. The memset there spans sizeof(BUFF_SIZE), the
      size of an int, so only four bytes are cleared. */
  function Reset(p: Page): Page
    requires |p.data| >= 4
  {
    Page(Splice(p.data, 0, [0, 0, 0, 0]), [], 0, 0)
  }

  lemma {:induction false} ResetIsEmpty(p: Page)
    requires |p.data| == BUFF_SIZE
    ensures Valid(Reset(p)) && Decode(Reset(p)) == []
    ensures Reset(p).data[..4] == [0, 0, 0, 0] && Reset(p).data[4..] == p.data[4..]
  {
  }

  /** Appending keeps every old row byte for byte and adds exactly the new one. */
  lemma {:induction false} AppendDecodes(p: Page, row: Row)
    requires Valid(p) && p.length + |row| <= BUFF_SIZE
    ensures Valid(Append(p, row))
    ensures Decode(Append(p, row)) == Decode(p) + [row]
  {
    AppendIsValid(p, row);
    var q := Append(p, row);
    AppendKeeps(p, row, p.rowCount);
    assert RowAt(q, p.rowCount) == row;
  }

  lemma {:induction false} AppendIsValid(p: Page, row: Row)
    requires Valid(p) && p.length + |row| <= BUFF_SIZE
    ensures Valid(Append(p, row))
  {
    var q := Append(p, row);
    forall i | 0 <= i < q.rowCount ensures q.rowOffset[i] <= RowEnd(q, i) <= q.length {
      if i < p.rowCount {
        assert p.rowOffset[i] <= RowEnd(p, i) <= p.length;
      }
    }
  }

  lemma {:induction false} SamePart(a: seq<Byte>, b: seq<Byte>, n: nat, i: nat, j: nat)
    requires n <= |a| && n <= |b| && a[..n] == b[..n] && i <= j <= n
    ensures a[i..j] == b[i..j]
  {
    assert a[i..j] == a[..n][i..j] && b[i..j] == b[..n][i..j];
  }

  lemma {:induction false} AppendKeeps(p: Page, row: Row, n: nat)
    requires Valid(p) && p.length + |row| <= BUFF_SIZE && n <= p.rowCount
    requires Valid(Append(p, row))
    ensures FirstRows(Append(p, row), n) == FirstRows(p, n)
  {
    if n > 0 {
      AppendKeeps(p, row, n - 1);
      var q, i := Append(p, row), n - 1;
      assert RowEnd(q, i) == RowEnd(p, i) <= p.length;
      SamePart(p.data, q.data, p.length, p.rowOffset[i], RowEnd(p, i));
    }
  }

  /** A page uses exactly the bytes of its rows. */
  lemma {:induction false} LengthIsTotal(p: Page)
    requires Valid(p)
    ensures |Concat(Decode(p))| == p.length
  {
    LengthUpTo(p, p.rowCount);
  }

  lemma {:induction false} LengthUpTo(p: Page, n: nat)
    requires Valid(p) && n <= p.rowCount
    ensures |Concat(FirstRows(p, n))| == if n == 0 then 0 else RowEnd(p, n - 1)
  {
    if n > 0 {
      LengthUpTo(p, n - 1);
      ConcatSnoc(FirstRows(p, n - 1), RowAt(p, n - 1));
      assert p.rowOffset[n - 1] <= RowEnd(p, n - 1);
    }
  }

  /** memcpy, byte by byte. */
  method CopyInto(data: array<Byte>, at: nat, src: Row)
    requires at + |src| <= data.Length
    modifies data
    ensures data[..] == Splice(old(data[..]), at, src)
  {
    for k := 0 to |src|
      invariant forall i :: 0 <= i < k ==> data[at + i] == src[i]
      invariant forall i :: 0 <= i < at || at + k <= i < data.Length ==> data[i] == old(data[i])
    {
      data[at + k] := src[k];
    }
  }

  /** The buffer a stage fills in place. */
  class ResultBuffer {
    const data: array<Byte>
    var rowOffset: seq<nat>
    var rowCount: nat
    var length: nat

    ghost function View(): Page
      reads this, data
    {
      Page(data[..], rowOffset, rowCount, length)
    }

    constructor ()
      ensures Valid(View()) && Decode(View()) == [] && length == 0
      ensures fresh(data)
    {
      data := new Byte[BUFF_SIZE];
      rowOffset, rowCount, length := [], 0, 0;
    }

    method AppendRow(row: Row)
      requires Valid(View()) && length + |row| <= BUFF_SIZE
      modifies this, data
      ensures Valid(View()) && Decode(View()) == old(Decode(View())) + [row]
      ensures length == old(length) + |row|
    {
      AppendDecodes(View(), row);
      rowOffset := rowOffset + [length];
      CopyInto(data, length, row);
      length := length + |row|;
      rowCount := rowCount + 1;
      assert View() == Append(old(View()), row);
    }

    method Init()
      requires data.Length == BUFF_SIZE
      modifies this, data
      ensures Valid(View()) && Decode(View()) == [] && length == 0
    {
      ResetIsEmpty(View());
      data[0], data[1], data[2], data[3] := 0, 0, 0, 0;
      rowOffset, rowCount, length := [], 0, 0;
    }

    method Snapshot() returns (p: Page)
      ensures p == View()
    {
      p := Page(data[..], rowOffset, rowCount, length);
    }
  }
}
