/** The merge stage (merge_manager.cc, return.h) at the level of rows: one output
    buffer per snippet, flushed when a row does not fit and closed when the block
    counts add up. */
module Merge {
  import opened Rows
  import opened Scan

  /** What is pushed to ReturnQueue. */
  datatype Message = Message(key: Key, total: nat, rows: seq<Row>, count: nat, current: nat)

  /** The entry of m_MergeManager for one key. */
  datatype Buffer = Buffer(total: nat, rows: seq<Row>, count: nat, current: nat)

  function NewBuffer(total: nat): Buffer {
    Buffer(total, [], 0, 0)
  }

  function Pushed(key: Key, b: Buffer): Message {
    Message(key, b.total, b.rows, b.count, b.current)
  }

  /** InitMergeResult: the block count restarts, `current` does not. */
  function Flushed(b: Buffer): Buffer {
    b.(rows := [], count := 0)
  }

  /** The buffer after an action, if the key still has one, and what was pushed. */
  datatype Outcome = Outcome(buffer: Option<Buffer>, out: Option<Message>)

  /** One projected row: flush first when it would not fit. */
  function AddRow(key: Key, b: Buffer, row: Row): (o: Outcome)
    ensures o.buffer.Some?
  {
    if Bytes(b.rows) + |row| > BUFF_SIZE
    then Outcome(Some(Flushed(b).(rows := [row])), Some(Pushed(key, b)))
    else Outcome(Some(b.(rows := b.rows + [row])), None)
  }

  /** The end of a batch: its block count is added only now, after all its rows. */
  function Close(key: Key, b: Buffer, count: nat): Outcome {
    var c := b.(count := b.count + count, current := b.current + count);
    if c.total == c.current then Outcome(None, Some(Pushed(key, c))) else Outcome(Some(c), None)
  }

  function Project(info: Info, rows: seq<Row>): seq<Row> {
    if rows == [] then [] else [info.project(rows[0])] + Project(info, rows[1..])
  }

  lemma {:induction false} ProjectAppend(info: Info, a: seq<Row>, b: seq<Row>)
    ensures Project(info, a + b) == Project(info, a) + Project(info, b)
  {
    if a == [] {
      assert a + b == b;
    } else {
      assert (a + b)[1..] == a[1..] + b;
      ProjectAppend(info, a[1..], b);
    }
  }

  lemma {:induction false} ProjectLength(info: Info, rows: seq<Row>)
    ensures |Project(info, rows)| == |rows|
  {
    if rows != [] {
      ProjectLength(info, rows[1..]);
    }
  }

  lemma {:induction false} ProjectRowByRow(info: Info, rows: seq<Row>, i: nat)
    requires i < |rows|
    ensures |Project(info, rows)| == |rows| && Project(info, rows)[i] == info.project(rows[i])
  {
    ProjectLength(info, rows);
    if i > 0 {
      ProjectRowByRow(info, rows[1..], i - 1);
    }
  }

  /** All projected rows of a batch, in order: the final buffer and everything pushed. */
  function AddRows(key: Key, b: Buffer, rows: seq<Row>): (Buffer, seq<Message>)
    decreases |rows|
  {
    if rows == [] then (b, [])
    else
      var o := AddRow(key, b, rows[0]);
      var (c, later) := AddRows(key, o.buffer.value, rows[1..]);
      (c, Held(o.out) + later)
  }

  /** The whole of MergeBlock on the buffer of its key. */
  function MergeBatch(b: Buffer, batch: Batch): (Option<Buffer>, seq<Message>) {
    var (c, pushed) := AddRows(batch.key, b, Project(batch.info, batch.rows));
    var o := Close(batch.key, c, batch.count);
    (o.buffer, pushed + Held(o.out))
  }
}
