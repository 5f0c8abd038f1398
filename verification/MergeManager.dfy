/** The merge thread itself (merge_manager.cc): the table of output buffers, filled
    row by row and pushed as copies, proved against module Merge. */
module MergeManager {
  import opened Rows
  import opened PagedBuffer
  import opened Scan
  import opened Merge
  import Scanner

  /** `MergeResult`, a value: the table holds it by value and a push copies it. */
  datatype MergeResult = MergeResult(total: nat, page: Page, count: nat, current: nat)

  datatype Sent = Sent(key: Key, result: MergeResult)

  ghost function Seen(r: MergeResult): Buffer
    requires Valid(r.page)
  {
    Buffer(r.total, Decode(r.page), r.count, r.current)
  }

  ghost predicate AllValid(sent: seq<Sent>) {
    forall i :: 0 <= i < |sent| ==> Valid(sent[i].result.page)
  }

  /** The messages a sequence of pushes stands for. */
  ghost function Heard(sent: seq<Sent>): (ms: seq<Message>)
    requires AllValid(sent)
    ensures |ms| == |sent|
  {
    if sent == [] then []
    else Heard(sent[..|sent| - 1]) + [Pushed(sent[|sent| - 1].key, Seen(sent[|sent| - 1].result))]
  }

  lemma {:induction false} HeardAppend(a: seq<Sent>, b: seq<Sent>)
    requires AllValid(a) && AllValid(b)
    ensures AllValid(a + b) && Heard(a + b) == Heard(a) + Heard(b)
  {
    if b == [] {
      Unit(a);
    } else {
      var n := |b| - 1;
      assert (a + b)[..|a + b| - 1] == a + b[..n];
      HeardAppend(a, b[..n]);
      Assoc(Heard(a), Heard(b[..n]), [Pushed(b[n].key, Seen(b[n].result))]);
    }
  }

  /** Later rows only add to what earlier ones pushed. */
  lemma {:induction false} AddRowsSnoc(key: Key, b: Buffer, rows: seq<Row>, row: Row)
    ensures var (c, ms) := AddRows(key, b, rows);
            var o := AddRow(key, c, row);
            AddRows(key, b, rows + [row]) == (o.buffer.value, ms + Held(o.out))
    decreases |rows|
  {
    if rows == [] {
      assert rows + [row] == [row];
      var o := AddRow(key, b, row);
      assert AddRows(key, o.buffer.value, [row][1..]) == (o.buffer.value, []);
      Unit(Held(o.out));
    } else {
      assert (rows + [row])[1..] == rows[1..] + [row];
      var o := AddRow(key, b, rows[0]);
      AddRowsSnoc(key, o.buffer.value, rows[1..], row);
      var (c, ms) := AddRows(key, o.buffer.value, rows[1..]);
      Assoc(Held(o.out), ms, Held(AddRow(key, c, row).out));
    }
  }

  /** One more row of the page: what AddRows makes of it. */
  lemma {:induction false} NextRow(key: Key, b: Buffer, info: Info, page: Page, i: nat)
    requires Valid(page) && i < page.rowCount
    ensures var (c, ms) := AddRows(key, b, Project(info, FirstRows(page, i)));
            var o := AddRow(key, c, info.project(RowAt(page, i)));
            AddRows(key, b, Project(info, FirstRows(page, i + 1))) == (o.buffer.value, ms + Held(o.out))
  {
    var rows, row := FirstRows(page, i), RowAt(page, i);
    ProjectAppend(info, rows, [row]);
    assert Project(info, [row]) == [info.project(row)] + Project(info, []) == [info.project(row)];
    assert FirstRows(page, i + 1) == rows + [row];
    AddRowsSnoc(key, b, Project(info, rows), info.project(row));
  }

  /** No row of the batch grows when it is projected: new_row_data has the row's own length. */
  ghost predicate Fits(result: Scanner.Result)
    requires Valid(result.page)
  {
    forall i :: 0 <= i < result.page.rowCount ==> |result.info.project(RowAt(result.page, i))| <= |RowAt(result.page, i)|
  }

  class Manager {
    var table: map<Key, MergeResult>
    var returnQueue: seq<Sent>

    ghost predicate Ok()
      reads this
    {
      AllValid(returnQueue) && forall k :: k in table ==> Valid(table[k].page)
    }

    constructor ()
      ensures Ok() && table == map[] && returnQueue == []
    {
      table, returnQueue := map[], [];
    }

    /** A key's buffer, or the new one MergeBlock would create. */
    ghost function BufferFor(k: Key, total: nat): Buffer
      requires Ok()
      reads this
    {
      if k in table then Seen(table[k]) else NewBuffer(total)
    }

    /** Copy the buffer of a key into ReturnQueue and start it afresh (InitMergeResult). */
    method Flush(key: Key)
      requires Ok() && key in table
      modifies this
      ensures Ok() && returnQueue == old(returnQueue) + [Sent(key, old(table[key]))]
      ensures table.Keys == old(table).Keys
      ensures forall k :: k in table && k != key ==> table[k] == old(table)[k]
      ensures Seen(table[key]) == Flushed(old(Seen(table[key]))) && table[key].page.length == 0
    {
      var r := table[key];
      returnQueue := returnQueue + [Sent(key, r)];
      ResetIsEmpty(r.page);
      table := table[key := r.(page := Reset(r.page), count := 0)];
    }

    method PutRow(key: Key, row: Row) returns (ghost sent: seq<Sent>)
      requires Ok() && key in table && |row| <= BUFF_SIZE
      modifies this
      ensures Ok() && key in table && returnQueue == old(returnQueue) + sent && AllValid(sent)
      ensures table.Keys == old(table).Keys
      ensures forall k :: k in table && k != key ==> table[k] == old(table)[k]
      ensures Seen(table[key]) == AddRow(key, old(Seen(table[key])), row).buffer.value
      ensures Heard(sent) == Held(AddRow(key, old(Seen(table[key])), row).out)
    {
      LengthIsTotal(table[key].page);
      sent := [];
      Unit(returnQueue);
      if table[key].page.length + |row| > BUFF_SIZE {
        sent := [Sent(key, table[key])];
        Flush(key);
      }
      StoreRow(key, row);
    }

    /** The row fits: copy it in. */
    method StoreRow(key: Key, row: Row)
      requires Ok() && key in table && table[key].page.length + |row| <= BUFF_SIZE
      modifies this`table
      ensures Ok() && table.Keys == old(table).Keys
      ensures forall k :: k in table && k != key ==> table[k] == old(table)[k]
      ensures var b := old(Seen(table[key])); Seen(table[key]) == b.(rows := b.rows + [row])
    {
      var r := table[key];
      AppendDecodes(r.page, row);
      table := table[key := r.(page := Append(r.page, row))];
    }

    /** The end of MergeBlock: add the block count, push and forget a complete buffer. */
    method CloseBatch(key: Key, count: nat) returns (ghost sent: seq<Sent>)
      requires Ok() && key in table
      modifies this
      ensures Ok() && returnQueue == old(returnQueue) + sent && AllValid(sent)
      ensures forall k :: k != key ==> (k in table <==> k in old(table)) && (k in table ==> table[k] == old(table)[k])
      ensures var o := Close(key, old(Seen(table[key])), count);
              && Heard(sent) == Held(o.out)
              && (key in table <==> o.buffer.Some?)
              && (key in table ==> Seen(table[key]) == o.buffer.value)
    {
      var r := table[key].(count := table[key].count + count, current := table[key].current + count);
      table := table[key := r];
      sent := [];
      Unit(returnQueue);
      if r.total == r.current {
        sent := [Sent(key, r)];
        returnQueue := returnQueue + [Sent(key, r)];
        table := table - {key};
      }
    }

    /** All rows of a batch. */
    method PutRows(result: Scanner.Result) returns (ghost sent: seq<Sent>)
      requires Ok() && Scanner.Sound(result) && result.key in table && Fits(result)
      modifies this
      ensures Ok() && result.key in table && returnQueue == old(returnQueue) + sent && AllValid(sent)
      ensures table.Keys == old(table).Keys
      ensures forall k :: k in table && k != result.key ==> table[k] == old(table)[k]
      ensures (Seen(table[result.key]), Heard(sent))
           == AddRows(result.key, old(Seen(table[result.key])), Project(result.info, Decode(result.page)))
    {
      var key, page := result.key, result.page;
      sent := [];
      Unit(returnQueue);
      ghost var start := Seen(table[key]);
      var i := 0;
      while i < page.rowCount
        invariant i <= page.rowCount
        invariant Ok() && key in table && returnQueue == old(returnQueue) + sent && AllValid(sent)
        invariant table.Keys == old(table).Keys
        invariant forall k :: k in table && k != key ==> table[k] == old(table)[k]
        invariant (Seen(table[key]), Heard(sent))
               == AddRows(key, start, Project(result.info, FirstRows(page, i)))
      {
        var row := page.data[page.rowOffset[i]..RowEnd(page, i)];
        NextRow(key, start, result.info, page, i);
        ghost var more := PutRow(key, result.info.project(row));
        HeardAppend(sent, more);
        Assoc(old(returnQueue), sent, more);
        sent := sent + more;
        i := i + 1;
      }
    }

    /** MergeBlock refines MergeBatch on the buffer of its key and touches no other key. */
    method MergeBlock(result: Scanner.Result) returns (ghost sent: seq<Sent>)
      requires Ok() && Scanner.Sound(result) && Fits(result)
      modifies this
      ensures Ok() && returnQueue == old(returnQueue) + sent && AllValid(sent)
      ensures forall k :: k != result.key ==>
                (k in table <==> k in old(table)) && (k in table ==> table[k] == old(table)[k])
      ensures var (buffer, ms) := MergeBatch(old(BufferFor(result.key, result.total)), Scanner.Said(result));
              && Heard(sent) == ms
              && (result.key in table <==> buffer.Some?)
              && (result.key in table ==> Seen(table[result.key]) == buffer.value)
    {
      var key := result.key;
      if key !in table {
        var page := Page(seq(BUFF_SIZE, _ => 0), [], 0, 0);
        table := table[key := MergeResult(result.total, page, 0, 0)];
      }
      assert Seen(table[key]) == old(BufferFor(key, result.total));
      sent := PutRows(result);
      ghost var last := CloseBatch(key, result.count);
      HeardAppend(sent, last);
      Assoc(old(returnQueue), sent, last);
      sent := sent + last;
    }
  }
}
