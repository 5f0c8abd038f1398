/** The scan thread itself (scan.cc): the loops over blocks and entries, filling
    the paged buffer in place and pushing copies of it, proved against module Scan. */
module Scanner {
  import opened Rows
  import opened PagedBuffer
  import opened Scan

  /** A `Result` as it is copied into FilterQueue or MergeQueue. */
  datatype Result = Result(key: Key, total: nat, info: Info, page: Page, count: nat)

  ghost predicate Sound(r: Result) {
    Valid(r.page)
  }

  /** What a queued result says, without its page layout. */
  ghost function Said(r: Result): Batch
    requires Sound(r)
  {
    Batch(r.key, r.total, r.info, Decode(r.page), r.count)
  }

  ghost predicate AllSound(q: seq<Result>) {
    forall r :: r in q ==> Sound(r)
  }

  ghost function AllSaid(q: seq<Result>): (bs: seq<Batch>)
    requires AllSound(q)
    ensures |bs| == |q|
  {
    if q == [] then [] else AllSaid(q[..|q| - 1]) + [Said(q[|q| - 1])]
  }

  lemma {:induction false} BytesCons(row: Row, rows: seq<Row>)
    ensures Bytes([row] + rows) == |row| + Bytes(rows)
  {
    assert ([row] + rows)[1..] == rows;
  }

  /** What a turn makes of the outcome of its block. */
  lemma {:induction false} StepIs(sn: Snippet, p: Progress, b: BlockOutcome, current: nat, count: nat)
    requires p.current < |sn.blocks| && b == ScanBlock(sn.blocks[p.current], p.origin)
    requires current == if b.valid then p.current + 1 else |sn.blocks|
    requires count - p.count == if b.valid then 1 else |sn.blocks| - p.current
    ensures Step(sn, p) == EndTurn(sn, current, p.rows + b.rows, count, b.origin)
  {
  }

  lemma {:induction false} SaidOne(r: Result)
    requires Sound(r)
    ensures AllSound([r]) && AllSaid([r]) == [Said(r)]
  {
    assert [r][..0] == [];
  }

  class ScanThread {
    // fields of class Scan
    var indexValid: bool
    var check: bool
    var originIndexNum: seq<Byte>
    var currentBlockCount: nat
    // everything pushed so far
    var filterQueue: seq<Result>
    var mergeQueue: seq<Result>

    /** `check` holds until the first entry of the snippet has set the index number. */
    ghost function Origin(): Option<seq<Byte>>
      reads this
    {
      if check then None else Some(originIndexNum)
    }

    constructor ()
      ensures filterQueue == [] && mergeQueue == []
    {
      indexValid, check, originIndexNum, currentBlockCount := true, true, [], 0;
      filterQueue, mergeQueue := [], [];
    }

    /** One entry: the first sets the index number, a foreign one stops the scan. */
    method ScanEntry(e: Entry, buffer: ResultBuffer)
      requires indexValid && Valid(buffer.View())
      requires Origin().None? || Origin().value == e.indexNum ==> buffer.length + |e.row| <= BUFF_SIZE
      modifies this`indexValid, this`check, this`originIndexNum, buffer, buffer.data
      ensures Valid(buffer.View())
      ensures indexValid == (old(Origin()).None? || old(Origin()).value == e.indexNum)
      ensures Origin() == if indexValid then Some(e.indexNum) else old(Origin())
      ensures Decode(buffer.View()) == old(Decode(buffer.View())) + if indexValid then [e.row] else []
      ensures buffer.length == old(buffer.length) + if indexValid then |e.row| else 0
    {
      if check {
        originIndexNum := e.indexNum;
        check := false;
      }
      if originIndexNum != e.indexNum {
        indexValid := false;
        Unit(Decode(buffer.View()));
      } else {
        buffer.AppendRow(e.row);
      }
    }

    method BlockScan(block: Block, buffer: ResultBuffer)
      requires indexValid && Valid(buffer.View())
      requires buffer.length + Bytes(ScanBlock(block, Origin()).rows) <= BUFF_SIZE
      modifies this`indexValid, this`check, this`originIndexNum, buffer, buffer.data
      ensures Valid(buffer.View())
      ensures var b := ScanBlock(block, old(Origin()));
              && Decode(buffer.View()) == old(Decode(buffer.View())) + b.rows
              && Origin() == b.origin && indexValid == b.valid
    {
      ghost var before := Decode(buffer.View());
      ghost var want := ScanBlock(block, Origin());
      ghost var done: seq<Row> := [];
      for i := 0 to |block|
        invariant indexValid && Valid(buffer.View())
        invariant Decode(buffer.View()) == before + done
        invariant buffer.length + Bytes(ScanBlock(block[i..], Origin()).rows) <= BUFF_SIZE
        invariant want == After(done, ScanBlock(block[i..], Origin()))
      {
        ghost var rest, origin := block[i..], Origin();
        assert rest[1..] == block[i + 1..];
        BytesCons(block[i].row, ScanBlock(rest[1..], Some(block[i].indexNum)).rows);
        ScanEntry(block[i], buffer);
        if !indexValid {
          assert want == After(done, BlockOutcome([], origin, false));
          Unit(done);
          Unit(before + done);
          return;
        }
        AfterCons(done, rest, origin);
        Assoc(before, done, [block[i].row]);
        done := done + [block[i].row];
      }
      assert block[|block|..] == [];
    }

    /** EnQueueData for the two full-scan types. */
    method EnQueueData(r: Result, filtered: bool)
      modifies this`filterQueue, this`mergeQueue
      ensures filterQueue == if filtered then old(filterQueue) + [r] else old(filterQueue)
      ensures mergeQueue == if filtered then old(mergeQueue) else old(mergeQueue) + [r]
    {
      if filtered {
        filterQueue := filterQueue + [r];
      } else {
        mergeQueue := mergeQueue + [r];
      }
    }

    /** The head of the loop in `Scanning`: count the block, read it, and on a foreign
        index number count all the remaining blocks as done. */
    method ReadBlock(sn: Snippet, buffer: ResultBuffer, count0: nat, ghost p: Progress) returns (count: nat)
      requires indexValid && Valid(buffer.View())
      requires p == Progress(currentBlockCount, Decode(buffer.View()), count0, Origin()) && InRange(sn, p)
      requires buffer.length + Bytes(ScanBlock(sn.blocks[currentBlockCount], Origin()).rows) <= BUFF_SIZE
      modifies this`indexValid, this`check, this`originIndexNum, this`currentBlockCount, buffer, buffer.data
      ensures Valid(buffer.View())
      ensures p.current < currentBlockCount <= |sn.blocks| && (currentBlockCount < |sn.blocks| ==> indexValid)
      ensures currentBlockCount < |sn.blocks| ==> count == count0 + 1
      ensures Step(sn, p) == EndTurn(sn, currentBlockCount, Decode(buffer.View()), count, Origin())
    {
      var block := sn.blocks[currentBlockCount];
      currentBlockCount := currentBlockCount + 1;
      count := count0 + 1;
      BlockScan(block, buffer);
      ghost var b := ScanBlock(block, p.origin);
      assert Decode(buffer.View()) == p.rows + b.rows && Origin() == b.origin && indexValid == b.valid;
      if !indexValid {
        count := count + |sn.blocks| - currentBlockCount;
        currentBlockCount := |sn.blocks|;
      }
      StepIs(sn, p, b, currentBlockCount, count);
    }

    ghost function Pushed(filtered: bool): seq<Result>
      reads this
    {
      if filtered then filterQueue else mergeQueue
    }

    /** The loop's own invariant: where it stands in the abstract scan. */
    ghost predicate At(sn: Snippet, buffer: ResultBuffer, count: nat, p: Progress)
      reads this, buffer, buffer.data
    {
      && indexValid && Valid(buffer.View())
      && p == Progress(currentBlockCount, Decode(buffer.View()), count, Origin())
      && InRange(sn, p) && BatchesFit(Batches(sn, p))
    }

    /** The end of a turn: push a copy of the buffer when it is due and start it afresh. */
    method PushIfDue(sn: Snippet, buffer: ResultBuffer, count0: nat)
      returns (count: nat, stop: bool, ghost sent: seq<Result>)
      requires Valid(buffer.View())
      modifies this`filterQueue, this`mergeQueue, buffer, buffer.data
      ensures Valid(buffer.View()) && AllSound(sent)
      ensures Pushed(sn.filtered) == old(Pushed(sn.filtered)) + sent
      ensures Pushed(!sn.filtered) == old(Pushed(!sn.filtered))
      ensures var step := EndTurn(sn, currentBlockCount, old(Decode(buffer.View())), count0, old(Origin()));
              && stop == step.Last?
              && AllSaid(sent) == (if step.Continue? then [] else [step.batch])
              && (!stop ==> step.next == Progress(currentBlockCount, Decode(buffer.View()), count, Origin()))
              && buffer.length == if step.Continue? then old(buffer.length) else 0
    {
      stop, sent, count := currentBlockCount == |sn.blocks|, [], count0;
      if stop || currentBlockCount % NUM_OF_BLOCKS == 0 {
        var page := buffer.Snapshot();
        var r := Result(sn.key, |sn.blocks|, sn.info, page, count);
        EnQueueData(r, sn.filtered);
        sent := [r];
        SaidOne(r);
        buffer.Init();
        count := 0;
      } else {
        Unit(Pushed(sn.filtered));
      }
    }

    /** One turn of the loop: `sent` is what it pushes. */
    method Turn(sn: Snippet, buffer: ResultBuffer, count0: nat, ghost p: Progress)
      returns (count: nat, stop: bool, ghost sent: seq<Result>)
      requires At(sn, buffer, count0, p)
      modifies this, buffer, buffer.data
      ensures stop == Step(sn, p).Last?
      ensures !stop ==> At(sn, buffer, count, Step(sn, p).next) && p.current < Step(sn, p).next.current
      ensures AllSound(sent)
      ensures AllSaid(sent) == if Step(sn, p).Continue? then [] else [Step(sn, p).batch]
      ensures Pushed(sn.filtered) == old(Pushed(sn.filtered)) + sent
      ensures Pushed(!sn.filtered) == old(Pushed(!sn.filtered))
    {
      StepConservesCount(sn, p);
      LengthIsTotal(buffer.View());
      OpenBatchFits(sn, p);
      ConcatAppend(p.rows, ScanBlock(sn.blocks[p.current], p.origin).rows);
      LaterBatchesFit(sn, p);
      var read := ReadBlock(sn, buffer, count0, p);
      count, stop, sent := PushIfDue(sn, buffer, read);
    }

    /** The body of `Scanning` for one snippet: what reaches the queue its scan type
        selects is exactly `Batches`, and the other queue is untouched. */
    method ScanSnippet(sn: Snippet) returns (ghost sent: seq<Result>)
      requires BatchesFit(Batches(sn, START))
      modifies this
      ensures Pushed(sn.filtered) == old(Pushed(sn.filtered)) + sent
      ensures Pushed(!sn.filtered) == old(Pushed(!sn.filtered))
      ensures AllSound(sent) && AllSaid(sent) == Batches(sn, START)
    {
      var buffer := new ResultBuffer();
      var count: nat, stop := 0, |sn.blocks| == 0;
      currentBlockCount, indexValid, check := 0, true, true;
      sent := [];
      ghost var p, all := START, Batches(sn, START);
      while !stop
        invariant fresh(buffer) && fresh(buffer.data)
        invariant !stop ==> At(sn, buffer, count, p)
        invariant AllSound(sent)
        invariant all == AllSaid(sent) + if stop then [] else Batches(sn, p)
        invariant Pushed(sn.filtered) == old(Pushed(sn.filtered)) + sent
        invariant Pushed(!sn.filtered) == old(Pushed(!sn.filtered))
        decreases !stop, |sn.blocks| - p.current
      {
        ghost var more: seq<Result>;
        count, stop, more := Turn(sn, buffer, count, p);
        SaidAppend(sn, p, sent, more);
        Assoc(old(Pushed(sn.filtered)), sent, more);
        sent, p := sent + more, if stop then p else Step(sn, p).next;
      }
      Unit(AllSaid(sent));
    }
  }

  /** Pushing what a step emits keeps the list of batches on course. */
  lemma {:induction false} SaidAppend(sn: Snippet, p: Progress, sent: seq<Result>, more: seq<Result>)
    requires p.current < |sn.blocks| && AllSound(sent) && AllSound(more)
    requires AllSaid(more) == if Step(sn, p).Continue? then [] else [Step(sn, p).batch]
    ensures AllSound(sent + more)
    ensures AllSaid(sent) + Batches(sn, p)
         == AllSaid(sent + more) + if Step(sn, p).Last? then [] else Batches(sn, Step(sn, p).next)
  {
    var step := Step(sn, p);
    if step.Continue? {
      assert sent + more == sent;
    } else {
      var later := if step.Last? then [] else Batches(sn, step.next);
      assert (sent + more)[..|sent|] == sent;
      assert Batches(sn, p) == [step.batch] + later;
      Assoc(AllSaid(sent), [step.batch], later);
    }
  }
}
