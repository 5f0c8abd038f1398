/** The fine-grained steps of the pipeline, run one after the other, are the whole loops of
    the scan and merge threads; the filter's one step is its loop over a page. */
module StageRuns {
  import opened Rows
  import opened Scan
  import opened Merge
  import opened Pipeline
  import opened FlagMachine
  import PagedBuffer
  import Scanner
  import BlockFilter

  // ---------------------------------------------------------------- merge

  /** All steps of the merge thread on the batch it holds. */
  function MergeAll(s: State): State
    requires CanMerge(s)
    decreases |s.merging.value.rows|
  {
    if s.merging.value.rows == [] then MergeStep(s) else MergeAll(MergeStep(s))
  }

  function WithBuffer(buffers: map<Key, Buffer>, k: Key, b: Option<Buffer>): map<Key, Buffer> {
    if b.Some? then buffers[k := b.value] else buffers - {k}
  }

  lemma {:induction false} MergeBatchCons(b: Buffer, batch: Batch)
    requires batch.rows != []
    ensures var o := AddRow(batch.key, b, batch.info.project(batch.rows[0]));
            var (d, later) := MergeBatch(o.buffer.value, batch.(rows := batch.rows[1..]));
            MergeBatch(b, batch) == (d, Held(o.out) + later)
  {
    var x, xs := batch.info.project(batch.rows[0]), Project(batch.info, batch.rows[1..]);
    var o := AddRow(batch.key, b, x);
    assert Project(batch.info, batch.rows) == [x] + xs;
    assert ([x] + xs)[1..] == xs;
    var (c, ms) := AddRows(batch.key, o.buffer.value, xs);
    Assoc(Held(o.out), ms, Held(Close(batch.key, c, batch.count).out));
  }

  lemma {:induction false} MergeBatchNil(b: Buffer, batch: Batch)
    requires batch.rows == []
    ensures var o := Close(batch.key, b, batch.count);
            MergeBatch(b, batch) == (o.buffer, Held(o.out))
  {
    var o := Close(batch.key, b, batch.count);
    assert AddRows(batch.key, b, []) == (b, []);
    Unit(Held(o.out));
  }

  /** Row by row and then the end: together exactly MergeBatch, which MergeBlock computes. */
  lemma {:induction false} MergeStepsAreMergeBatch(s: State)
    requires CanMerge(s)
    ensures var batch := s.merging.value;
            var (buffer, pushed) := MergeBatch(s.buffers[batch.key], batch);
            MergeAll(s) == s.(merging := None, returnQueue := s.returnQueue + pushed,
                              buffers := WithBuffer(s.buffers, batch.key, buffer))
    decreases |s.merging.value.rows|
  {
    var batch := s.merging.value;
    var k := batch.key;
    if batch.rows == [] {
      MergeBatchNil(s.buffers[k], batch);
    } else {
      MergeBatchCons(s.buffers[k], batch);
      var t := MergeStep(s);
      MergeStepsAreMergeBatch(t);
      var o := AddRow(k, s.buffers[k], batch.info.project(batch.rows[0]));
      var (d, later) := MergeBatch(o.buffer.value, batch.(rows := batch.rows[1..]));
      Assoc(s.returnQueue, Held(o.out), later);
      assert WithBuffer(t.buffers, k, d) == WithBuffer(s.buffers, k, d);
    }
  }

  // ---------------------------------------------------------------- scan

  /** All steps of the scan thread on the snippet it holds. */
  ghost function ScanAll(s: State): State
    requires CanScanBlock(s)
    decreases |s.scanning.value.sn.blocks| - s.scanning.value.at.current
  {
    var Job(sn, p) := s.scanning.value;
    var t := ScanStep(s);
    if CanScanBlock(t) && t.scanning.value.sn == sn && t.scanning.value.at.current > p.current then ScanAll(t) else t
  }

  function EnQueueAll(s: State, filtered: bool, bs: seq<Batch>): State
    decreases |bs|
  {
    if bs == [] then s else EnQueueAll(EnQueue(s, filtered, bs[0]), filtered, bs[1..])
  }

  /** Block by block: together exactly the batches that ScanSnippet pushes, in order, to the
      queue the scan type selects. */
  lemma {:induction false} ScanStepsAreBatches(s: State)
    requires CanScanBlock(s) && InRange(s.scanning.value.sn, s.scanning.value.at)
    ensures var Job(sn, p) := s.scanning.value;
            ScanAll(s) == EnQueueAll(s.(scanning := None), sn.filtered, Batches(sn, p))
    decreases |s.scanning.value.sn.blocks| - s.scanning.value.at.current
  {
    var Job(sn, p) := s.scanning.value;
    StepConservesCount(sn, p);
    var t := ScanStep(s);
    match Step(sn, p)
    case Continue(q) =>
      assert t == s.(scanning := Some(Job(sn, q)));
      ScanStepsAreBatches(t);
    case Emit(b, q) =>
      ScanStepsAreBatches(t);
      assert ([b] + Batches(sn, q))[1..] == Batches(sn, q);
      assert t.(scanning := None) == EnQueue(s.(scanning := None), sn.filtered, b);
    case Last(b) =>
      assert EnQueueAll(EnQueue(s.(scanning := None), sn.filtered, b), sn.filtered, []) == t;
  }

  // ---------------------------------------------------------------- filter

  /** The WHERE clause of a batch is the formula its tokens spell. */
  ghost predicate Spelled<A>(info: Info, oracle: Row -> Oracle<A>, formula: Formula<A>)
    requires WellFormed(formula)
  {
    forall r :: info.where(r) == Holds(oracle(r), formula)
  }

  lemma {:induction false} KeepSpelled<A>(info: Info, oracle: Row -> Oracle<A>, formula: Formula<A>, rows: seq<Row>)
    requires WellFormed(formula) && Spelled(info, oracle, formula)
    ensures Keep(info.where, rows) == Keep(BlockFilter.Where(oracle, formula), rows)
  {
    if rows != [] {
      KeepSpelled(info, oracle, formula, rows[1..]);
      assert info.where(rows[0]) == Holds(oracle(rows[0]), formula);
    }
  }

  /** BlockFilter on a queued result: the flag machine over its page, the tags and the block
      count passed on, and the new result pushed to MergeQueue. That is the filter's step of
      the pipeline, whatever CV was left from earlier rows. */
  method FilterStepIsBlockFilter<A>(result: Scanner.Result, oracle: Row -> Oracle<A>, tokens: seq<Token<A>>, cv: bool,
                                          ghost formula: Formula<A>, ghost s: State)
    returns (pushed: Scanner.Result)
    requires Scanner.Sound(result) && WellFormed(formula) && tokens == Tokens(formula)
    requires Spelled(result.info, oracle, formula)
    requires s.filtering == Some(Scanner.Said(result))
    ensures Scanner.Sound(pushed)
    ensures FilterStep(s) == s.(filtering := None, mergeQueue := s.mergeQueue + [Scanner.Said(pushed)])
  {
    var out := BlockFilter.FilterPage(result.page, oracle, tokens, cv, formula);
    var page := out.Snapshot();
    pushed := result.(page := page);
    KeepSpelled(result.info, oracle, formula, PagedBuffer.Decode(result.page));
  }
}
