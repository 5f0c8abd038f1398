/** Bytes, rows and the two size constants shared by every stage (config.h). */
module Rows {

  type Byte = b: int | 0 <= b < 256

  type Row = seq<Byte>

  const NUM_OF_BLOCKS := 15
  const BUFF_SIZE := NUM_OF_BLOCKS * 5000

  datatype Option<+T> = None | Some(value: T)

  function Held<T>(o: Option<T>): seq<T> {
    if o.Some? then [o.value] else []
  }

  function Concat(rows: seq<Row>): Row {
    if rows == [] then [] else rows[0] + Concat(rows[1..])
  }

  lemma {:induction false} ConcatAppend(a: seq<Row>, b: seq<Row>)
    ensures Concat(a + b) == Concat(a) + Concat(b)
  {
    if a == [] {
      assert a + b == b;
    } else {
      assert (a + b)[1..] == a[1..] + b;
      ConcatAppend(a[1..], b);
    }
  }

  lemma {:induction false} ConcatSnoc(a: seq<Row>, r: Row)
    ensures Concat(a + [r]) == Concat(a) + r
  {
    ConcatAppend(a, [r]);
    assert Concat([r]) == r + Concat([]);
  }

  /** The rows a WHERE clause lets through, in order. */
  function Keep(where: Row -> bool, rows: seq<Row>): seq<Row> {
    if rows == [] then [] else (if where(rows[0]) then [rows[0]] else []) + Keep(where, rows[1..])
  }

  lemma {:induction false} KeepAppend(where: Row -> bool, a: seq<Row>, b: seq<Row>)
    ensures Keep(where, a + b) == Keep(where, a) + Keep(where, b)
  {
    if a == [] {
      assert a + b == b;
    } else {
      assert (a + b)[1..] == a[1..] + b;
      KeepAppend(where, a[1..], b);
    }
  }

  /** What is kept is in the list and passes, each row as often as it is there. */
  lemma {:induction false} KeepExactly(where: Row -> bool, rows: seq<Row>, r: Row)
    ensures multiset(Keep(where, rows))[r] == if where(r) then multiset(rows)[r] else 0
  {
    if rows != [] {
      KeepExactly(where, rows[1..], r);
      assert rows == [rows[0]] + rows[1..];
    }
  }

  /** Kept rows take no more bytes. */
  lemma {:induction false} KeepBytes(where: Row -> bool, rows: seq<Row>)
    ensures |Concat(Keep(where, rows))| <= |Concat(rows)|
  {
    if rows != [] {
      KeepBytes(where, rows[1..]);
      var kept := if where(rows[0]) then [rows[0]] else [];
      ConcatAppend(kept, Keep(where, rows[1..]));
      assert Concat([rows[0]]) == rows[0] + Concat([]);
    }
  }

  /** Sequence identities, kept out of larger proofs. */
  lemma {:induction false} Assoc<T>(a: seq<T>, b: seq<T>, c: seq<T>)
    ensures (a + b) + c == a + (b + c)
  {
  }

  lemma {:induction false} Unit<T>(a: seq<T>)
    ensures a + [] == a && [] + a == a
  {
  }
}
