/** No row buffer of any stage is overrun: what the pipeline carries always fits, in every state
    of every run. */
module PipelineRoom {
  import opened Rows
  import opened Scan
  import opened Merge
  import opened Pipeline
  import opened PipelineSafety

  // ---------------------------------------------------------------- rows that do not grow

  lemma {:induction false} ShrinkAppend(info: Info, a: seq<Row>, b: seq<Row>)
    ensures AllShrink(info, a + b) <==> AllShrink(info, a) && AllShrink(info, b)
  {
    if a == [] {
      assert a + b == b;
    } else {
      assert (a + b)[1..] == a[1..] + b;
      ShrinkAppend(info, a[1..], b);
    }
  }

  lemma {:induction false} ReachingAppend(sn: Snippet, a: seq<Row>, b: seq<Row>)
    ensures Reaching(sn, a + b) == Reaching(sn, a) + Reaching(sn, b)
  {
    KeepAppend(sn.info.where, a, b);
  }

  // ---------------------------------------------------------------- the invariant

  /** A batch on its way to merge: its page fits, and so does each row as it is projected. */
  ghost predicate MergeRoom(b: Batch) {
    Bytes(b.rows) <= BUFF_SIZE && AllShrink(b.info, b.rows)
  }

  ghost predicate FilterRoom(b: Batch) {
    Bytes(b.rows) <= BUFF_SIZE && AllShrink(b.info, Keep(b.info.where, b.rows))
  }

  /** Everything a job will still push. */
  ghost predicate JobRoom(j: Job) {
    InRange(j.sn, j.at) ==>
      BatchesFit(Batches(j.sn, j.at)) && AllShrink(j.sn.info, Reaching(j.sn, RowsLeft(j.sn, j.at)))
  }

  ghost predicate AllMergeRoom(bs: seq<Batch>) { forall i :: 0 <= i < |bs| ==> MergeRoom(bs[i]) }

  ghost predicate AllFilterRoom(bs: seq<Batch>) { forall i :: 0 <= i < |bs| ==> FilterRoom(bs[i]) }

  ghost predicate AllJobRoom(js: seq<Job>) { forall i :: 0 <= i < |js| ==> JobRoom(js[i]) }

  ghost predicate Room(s: State) {
    AllMergeRoom(MergeLine(s)) && AllFilterRoom(FilterLine(s)) && AllJobRoom(ScanLine(s))
  }

  // ---------------------------------------------------------------- the steps keep it

  lemma {:induction false} FreshJobRoom(sn: Snippet)
    requires Admissible(sn)
    ensures JobRoom(Job(sn, START))
  {
    assert sn.blocks[0..] == sn.blocks;
    Unit(ScannedRows(sn.blocks));
    assert RowsLeft(sn, START) == ScannedRows(sn.blocks);
  }

  lemma {:induction false} JobsGrow(js: seq<Job>, j: Job)
    requires AllJobRoom(js) && JobRoom(j)
    ensures AllJobRoom(js + [j])
  {
  }

  lemma {:induction false} SubmitRoom(s: State, s': State, sn: Snippet)
    requires Room(s) && Submit(s, s', sn)
    ensures Room(s')
  {
    SubmitLine(s, s', sn);
    FreshJobRoom(sn);
    JobsGrow(ScanLine(s), Job(sn, START));
  }

  /** A turn of the scanner: what it pushes fits where it goes, and what is left fits too. */
  lemma {:induction false} StepRoom(sn: Snippet, p: Progress)
    requires InRange(sn, p) && JobRoom(Job(sn, p))
    ensures var left, out := LeftOf(sn, Step(sn, p)), OutOf(Step(sn, p));
            && (left.Some? ==> JobRoom(left.value))
            && (out.Some? ==> if sn.filtered then FilterRoom(out.value) else MergeRoom(out.value))
  {
    StepConservesRows(sn, p);
    StepConservesCount(sn, p);
    LaterBatchesFit(sn, p);
    if Step(sn, p).Emit? {
      var b, q := Step(sn, p).batch, Step(sn, p).next;
      ReachingAppend(sn, b.rows, RowsLeft(sn, q));
      ShrinkAppend(sn.info, Reaching(sn, b.rows), Reaching(sn, RowsLeft(sn, q)));
    }
  }

  lemma {:induction false} MergeLineGrows(bs: seq<Batch>, b: Batch)
    requires AllMergeRoom(bs) && MergeRoom(b)
    ensures AllMergeRoom(bs + [b])
  {
  }

  lemma {:induction false} FilterLineGrows(bs: seq<Batch>, b: Batch)
    requires AllFilterRoom(bs) && FilterRoom(b)
    ensures AllFilterRoom(bs + [b])
  {
  }

  lemma {:induction false} JobsRoom(left: Option<Job>, j: Job, jobs: seq<Job>)
    requires AllJobRoom([j] + jobs) && (left.Some? ==> JobRoom(left.value))
    ensures AllJobRoom(Held(left) + jobs)
  {
    forall i | 0 <= i < |jobs| ensures JobRoom(jobs[i]) {
      assert jobs[i] == ([j] + jobs)[i + 1];
    }
  }

  lemma {:induction false} EnQueueRoom(s: State, filtered: bool, b: Batch)
    requires Room(s) && if filtered then FilterRoom(b) else MergeRoom(b)
    ensures Room(EnQueue(s, filtered, b))
  {
    if filtered {
      Assoc(Held(s.filtering), s.filterQueue, [b]);
      FilterLineGrows(FilterLine(s), b);
    } else {
      Assoc(Held(s.merging), s.mergeQueue, [b]);
      MergeLineGrows(MergeLine(s), b);
    }
  }

  lemma {:induction false} RescanRoom(s: State, left: Option<Job>, filtered: bool, out: Option<Batch>)
    requires Room(s) && s.scanning.Some? && (left.Some? ==> JobRoom(left.value))
    requires out.Some? ==> if filtered then FilterRoom(out.value) else MergeRoom(out.value)
    ensures Room(Rescan(s, left, filtered, out))
  {
    JobsRoom(left, s.scanning.value, Fresh(s.scanQueue));
    if out.Some? {
      EnQueueRoom(s.(scanning := left), filtered, out.value);
    }
  }

  lemma {:induction false} ScanStepRoom(s: State)
    requires Inv(s) && Room(s) && CanScanBlock(s)
    ensures Room(ScanStep(s))
  {
    var Job(sn, p) := s.scanning.value;
    assert ScanLine(s)[0] == s.scanning.value;
    StepRoom(sn, p);
    RescanRoom(s, LeftOf(sn, Step(sn, p)), sn.filtered, OutOf(Step(sn, p)));
  }

  lemma {:induction false} FilterStepRoom(s: State)
    requires Room(s) && s.filtering.Some?
    ensures Room(FilterStep(s))
  {
    var b := s.filtering.value;
    var kept := b.(rows := Keep(b.info.where, b.rows));
    assert FilterLine(s)[0] == b && FilterLine(s)[1..] == s.filterQueue;
    KeepBytes(b.info.where, b.rows);
    assert MergeRoom(kept);
    Assoc(Held(s.merging), s.mergeQueue, [kept]);
    Unit(s.filterQueue);
  }

  lemma {:induction false} MergeStepRoom(s: State)
    requires Room(s) && CanMerge(s)
    ensures Room(MergeStep(s))
  {
    var b := s.merging.value;
    assert MergeLine(s)[0] == b && MergeLine(s)[1..] == s.mergeQueue;
    if b.rows != [] {
      assert MergeRoom(b.(rows := b.rows[1..]));
    } else {
      Unit(s.mergeQueue);
    }
  }

  lemma {:induction false} SameLinesRoom(s: State, s': State)
    requires Room(s) && ScanLine(s') == ScanLine(s) && FilterLine(s') == FilterLine(s) && MergeLine(s') == MergeLine(s)
    ensures Room(s')
  {
  }

  lemma {:induction false} PopsKeepRoom(s: State, s': State)
    requires Room(s)
    requires || (CanScanPop(s) && s' == ScanPop(s)) || (CanFilterPop(s) && s' == FilterPop(s))
             || (CanMergePop(s) && s' == MergePop(s)) || (CanSend(s) && s' == Send(s))
    ensures Room(s')
  {
    PopsKeepLines(s);
    SameLinesRoom(s, s');
  }

  lemma {:induction false} WorkRoom(s: State, s': State)
    requires Inv(s) && Room(s) && Work(s, s')
    ensures Room(s')
  {
    if CanScanBlock(s) && s' == ScanStep(s) { ScanStepRoom(s); }
    else if s.filtering.Some? && s' == FilterStep(s) { FilterStepRoom(s); }
    else if CanMerge(s) && s' == MergeStep(s) { MergeStepRoom(s); }
    else { PopsKeepRoom(s, s'); }
  }

  lemma {:induction false} RunRoom(run: seq<State>)
    requires IsRun(run)
    ensures Inv(run[|run| - 1]) && Room(run[|run| - 1])
  {
    RunKeepsInv(run);
    var n := |run| - 1;
    if n > 0 {
      RunRoom(run[..n]);
      var s, s' := run[n - 1], run[n];
      assert Next(s, s');
      if sn :| Submit(s, s', sn) {
        SubmitRoom(s, s', sn);
      } else {
        WorkRoom(s, s');
      }
    }
  }

  // ---------------------------------------------------------------- what it means

  /** The page scan is filling, with the block it is about to read. */
  ghost predicate ScanPageFits(s: State) {
    CanScanBlock(s) ==> Bytes(Grown(s.scanning.value.sn, s.scanning.value.at)) <= BUFF_SIZE
  }

  /** The row merge is about to project. */
  ghost predicate ProjectionFits(s: State) {
    s.merging.Some? && s.merging.value.rows != [] ==>
      var b := s.merging.value; |b.info.project(b.rows[0])| <= |b.rows[0]|
  }

  ghost predicate BuffersFit(s: State) {
    forall k :: k in s.buffers ==> Bytes(s.buffers[k].rows) <= BUFF_SIZE
  }

  /** In every state of every run: the page being scanned and the block about to be read into it
      fit the scan buffer, every page waiting for the filter or for merge fits, the row being
      projected fits the array of its source row, and every output buffer fits. */
  lemma {:induction false} NoOverrun(run: seq<State>)
    requires IsRun(run)
    ensures var s := run[|run| - 1];
            ScanPageFits(s) && PagesFit(FilterLine(s)) && PagesFit(MergeLine(s)) && ProjectionFits(s) && BuffersFit(s)
  {
    RunRoom(run);
    var s := run[|run| - 1];
    if CanScanBlock(s) {
      assert ScanLine(s)[0] == s.scanning.value;
      OpenBatchFits(s.scanning.value.sn, s.scanning.value.at);
    }
    if s.merging.Some? {
      assert MergeLine(s)[0] == s.merging.value;
    }
    forall k | k in s.buffers ensures Bytes(s.buffers[k].rows) <= BUFF_SIZE {
      assert Accounted(s, k);
      assert ViewOf(s, k).buffer == Some(s.buffers[k]);
    }
  }
}
