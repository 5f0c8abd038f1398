/** Every step of every thread keeps the pipeline's invariant. */
module PipelineSafety {
  import opened Rows
  import opened Scan
  import opened Merge
  import opened Pipeline

  // ---------------------------------------------------------------- small facts

  lemma {:induction false} NoBatches(bs: seq<Batch>, k: Key)
    requires forall i :: 0 <= i < |bs| ==> bs[i].key != k
    ensures RowsOf(bs, k) == [] && CountOf(bs, k) == 0
  {
    if bs != [] {
      NoBatches(bs[1..], k);
    }
  }

  lemma {:induction false} NoCountNoRows(sub: Submitted, bs: seq<Batch>, k: Key)
    requires ToMergeOk(sub, bs) && CountOf(bs, k) == 0
    ensures RowsOf(bs, k) == []
  {
    if bs != [] {
      assert BatchTagged(sub, bs[0]);
      NoCountNoRows(sub, bs[1..], k);
    }
  }

  lemma {:induction false} NoJobs(js: seq<Job>, k: Key)
    requires forall i :: 0 <= i < |js| ==> js[i].sn.key != k
    ensures OwedRows(js, k) == [] && OwedCount(js, k) == 0
  {
    if js != [] {
      NoJobs(js[1..], k);
    }
  }

  lemma {:induction false} OwedCountPositive(sub: Submitted, js: seq<Job>, k: Key)
    requires JobsOk(sub, js)
    ensures OwedCount(js, k) >= 0
    ensures OwedCount(js, k) == 0 ==> OwedRows(js, k) == []
  {
    if js != [] {
      OwedCountPositive(sub, js[1..], k);
    }
  }

  lemma {:induction false} NoMessages(ms: seq<Message>, k: Key)
    requires forall i :: 0 <= i < |ms| ==> ms[i].key != k
    ensures ReturnedRows(ms, k) == [] && ReturnedCount(ms, k) == 0
  {
    if ms != [] {
      NoMessages(ms[1..], k);
    }
  }

  lemma {:induction false} FreshSnoc(q: seq<Snippet>, sn: Snippet)
    ensures Fresh(q + [sn]) == Fresh(q) + [Job(sn, START)]
  {
    if q == [] {
      assert Fresh([sn]) == [Job(sn, START)] + Fresh([]);
    } else {
      assert (q + [sn])[1..] == q[1..] + [sn];
      FreshSnoc(q[1..], sn);
    }
  }

  lemma {:induction false} SingleBatch(b: Batch, k: Key)
    ensures RowsOf([b], k) == if b.key == k then b.rows else []
    ensures CountOf([b], k) == if b.key == k then b.count else 0
  {
  }

  lemma {:induction false} SingleMessage(m: Message, k: Key)
    ensures ReturnedRows([m], k) == if m.key == k then m.rows else []
    ensures ReturnedCount([m], k) == if m.key == k then m.count else 0
  {
  }

  /** Adding a batch at the end of a line. */
  lemma {:induction false} LineSnoc(bs: seq<Batch>, b: Batch, k: Key)
    ensures RowsOf(bs + [b], k) == RowsOf(bs, k) + if b.key == k then b.rows else []
    ensures CountOf(bs + [b], k) == CountOf(bs, k) + if b.key == k then b.count else 0
  {
    RowsOfAppend(bs, [b], k);
    SingleBatch(b, k);
  }

  /** Taking, or replacing, the batch at the head of a line. */
  lemma {:induction false} LineHead(b: Batch, rest: seq<Batch>, k: Key)
    ensures RowsOf([b] + rest, k) == (if b.key == k then b.rows else []) + RowsOf(rest, k)
    ensures CountOf([b] + rest, k) == (if b.key == k then b.count else 0) + CountOf(rest, k)
  {
  }

  lemma {:induction false} JobHead(j: Job, rest: seq<Job>, k: Key)
    ensures OwedRows([j] + rest, k) == (if j.sn.key == k then Owed(j) else []) + OwedRows(rest, k)
    ensures OwedCount([j] + rest, k) == (if j.sn.key == k then CountLeft(j.sn, j.at) else 0) + OwedCount(rest, k)
  {
  }

  // ---------------------------------------------------------------- a snippet arrives

  lemma {:induction false} SubmitLine(s: State, s': State, sn: Snippet)
    requires Submit(s, s', sn)
    ensures ScanLine(s') == ScanLine(s) + [Job(sn, START)]
  {
    FreshSnoc(s.scanQueue, sn);
    Assoc(Held(s.scanning), Fresh(s.scanQueue), [Job(sn, START)]);
  }

  /** A new snippet changes nothing for the work of the others. */
  lemma {:induction false} GrownBatches(sub: Submitted, sn: Snippet, toMerge: seq<Batch>, toFilter: seq<Batch>)
    requires ToMergeOk(sub, toMerge) && ToFilterOk(sub, toFilter) && sn.key !in sub
    ensures ToMergeOk(sub[sn.key := sn], toMerge) && ToFilterOk(sub[sn.key := sn], toFilter)
  {
  }

  lemma {:induction false} GrownJobs(sub: Submitted, sn: Snippet, js: seq<Job>)
    requires JobsOk(sub, js) && sn.key !in sub && sn.blocks != []
    ensures JobsOk(sub[sn.key := sn], js + [Job(sn, START)])
  {
  }

  lemma {:induction false} SubmitTagged(s: State, s': State, sn: Snippet)
    requires Tagged(s) && Submit(s, s', sn)
    ensures Tagged(s')
  {
    SubmitLine(s, s', sn);
    GrownBatches(s.submitted, sn, MergeLine(s), FilterLine(s));
    GrownJobs(s.submitted, sn, ScanLine(s));
  }

  lemma {:induction false} SubmitView(s: State, s': State, sn: Snippet, k: Key)
    requires Tagged(s) && Submit(s, s', sn)
    ensures k != sn.key ==> ViewOf(s', k) == ViewOf(s, k)
    ensures k == sn.key ==>
              ViewOf(s', k) == View([], 0, None, [], 0, [], 0, ScannedRows(sn.blocks), |sn.blocks|)
  {
    SubmitLine(s, s', sn);
    OwedAppend(ScanLine(s), [Job(sn, START)], k);
    JobHead(Job(sn, START), [], k);
    Unit([Job(sn, START)]);
    if k == sn.key {
      NoBatches(MergeLine(s), k);
      NoBatches(FilterLine(s), k);
      NoJobs(ScanLine(s), k);
      NoMessages(Messages(s), k);
      assert sn.blocks[0..] == sn.blocks;
      Unit(ScannedRows(sn.blocks));
    }
  }

  lemma {:induction false} SubmitKeeps(s: State, s': State, sn: Snippet, k: Key)
    requires Tagged(s) && Submit(s, s', sn) && k in s'.submitted
    requires k in s.submitted ==> Accounted(s, k)
    ensures Accounted(s', k)
  {
    SubmitView(s, s', sn, k);
    if k == sn.key {
      Unit(Expected(sn));
      assert Output(sn, []) == [];
      assert Balanced(sn, ViewOf(s', k));
    }
  }

  // ---------------------------------------------------------------- pops

  /** Taking the head of a queue changes no line. */
  lemma {:induction false} PopsKeepLines(s: State)
    ensures CanScanPop(s) ==> ScanLine(ScanPop(s)) == ScanLine(s)
    ensures CanFilterPop(s) ==> FilterLine(FilterPop(s)) == FilterLine(s)
    ensures CanMergePop(s) ==> MergeLine(MergePop(s)) == MergeLine(s)
    ensures CanSend(s) ==> Messages(Send(s)) == Messages(s)
  {
  }

  /** Every other action leaves the messages as they are. */
  lemma {:induction false} OthersSendNothing(s: State, s': State)
    requires (CanScanPop(s) && s' == ScanPop(s)) || (CanScanBlock(s) && s' == ScanStep(s))
          || (CanFilterPop(s) && s' == FilterPop(s)) || (s.filtering.Some? && s' == FilterStep(s))
          || (CanMergePop(s) && s' == MergePop(s)) || (CanSend(s) && s' == Send(s))
    ensures Messages(s') == Messages(s) && s'.submitted == s.submitted
  {
    PopsKeepLines(s);
  }

  lemma {:induction false} MergePopView(s: State, k: Key)
    requires CanMergePop(s)
    ensures var b, v := s.mergeQueue[0], ViewOf(s, k);
            ViewOf(MergePop(s), k)
            == if k == b.key && v.buffer.None? then v.(buffer := Some(NewBuffer(b.total))) else v
  {
    PopsKeepLines(s);
  }

  /** A key with work left and no buffer has returned nothing yet. */
  lemma {:induction false} NewBufferIsBalanced(sn: Snippet, v: View)
    requires Balanced(sn, v) && v.buffer.None? && v.mergeCount > 0 && v.scanCount >= 0
    ensures Balanced(sn, v.(buffer := Some(NewBuffer(|sn.blocks|))))
  {
  }

  lemma {:induction false} MergePopKeeps(s: State, k: Key)
    requires Tagged(s) && CanMergePop(s) && k in s.submitted && Accounted(s, k)
    ensures Accounted(MergePop(s), k)
  {
    PopsKeepLines(s);
    MergePopView(s, k);
    var b := s.mergeQueue[0];
    assert MergeLine(s) == [b] + s.mergeQueue[1..] && BatchTagged(s.submitted, MergeLine(s)[0]);
    if k == b.key && k !in s.buffers {
      LineHead(b, s.mergeQueue[1..], k);
      OwedCountPositive(s.submitted, ScanLine(s), k);
      NewBufferIsBalanced(s.submitted[k], ViewOf(s, k));
    }
  }

  lemma {:induction false} MergePopTagged(s: State)
    requires Tagged(s) && CanMergePop(s)
    ensures Tagged(MergePop(s))
  {
    PopsKeepLines(s);
    assert s.mergeQueue[0] == MergeLine(s)[0];
  }

  // ---------------------------------------------------------------- scanning a block

  /** Scanned rows leave the scanner for the filter or, unfiltered, for merge. */
  lemma {:induction false} ScanMoves(sn: Snippet, v: View, b: Batch, rest: seq<Row>)
    requires v.toScan == b.rows + rest
    requires !sn.filtered ==> v.toFilter == []
    ensures Ledger(sn, v) == Ledger(sn, ScanMoved(sn, v, b, rest))
    ensures CountLedger(v) == CountLedger(ScanMoved(sn, v, b, rest))
  {
    OutputAppend(sn, b.rows, rest);
    var m, f, x, y := Project(sn.info, v.toMerge), Output(sn, v.toFilter), Output(sn, b.rows), Output(sn, rest);
    if sn.filtered {
      OutputAppend(sn, v.toFilter, b.rows);
      Assoc(f, x, y);
    } else {
      ProjectAppend(sn.info, v.toMerge, b.rows);
      assert f == [];
      Assoc(m, x, y);
      Unit(x + y);
      Unit(y);
    }
  }

  function ScanMoved(sn: Snippet, v: View, b: Batch, rest: seq<Row>): View {
    var w := v.(toScan := rest, scanCount := v.scanCount - b.count);
    if sn.filtered then w.(toFilter := w.toFilter + b.rows, filterCount := w.filterCount + b.count)
    else w.(toMerge := w.toMerge + b.rows, mergeCount := w.mergeCount + b.count)
  }

  /** The jobs behind the one in hand. */
  function JobsBehind(s: State): seq<Job> { Fresh(s.scanQueue) }

  lemma {:induction false} EnQueueView(s: State, filtered: bool, b: Batch, k: Key)
    ensures var v, w := ViewOf(s, k), ViewOf(EnQueue(s, filtered, b), k);
            if k != b.key then w == v
            else if filtered then w == v.(toFilter := v.toFilter + b.rows, filterCount := v.filterCount + b.count)
            else w == v.(toMerge := v.toMerge + b.rows, mergeCount := v.mergeCount + b.count)
  {
    if filtered {
      Assoc(Held(s.filtering), s.filterQueue, [b]);
      LineSnoc(FilterLine(s), b, k);
      Unit(RowsOf(FilterLine(s), k));
    } else {
      Assoc(Held(s.merging), s.mergeQueue, [b]);
      LineSnoc(MergeLine(s), b, k);
      Unit(RowsOf(MergeLine(s), k));
    }
  }

  function OwedBy(left: Option<Job>): seq<Row> { if left.Some? then Owed(left.value) else [] }

  function CountBy(left: Option<Job>): int {
    if left.Some? then CountLeft(left.value.sn, left.value.at) else 0
  }

  lemma {:induction false} ScanLineView(s: State, k: Key)
    requires s.scanning.Some? ==> s.scanning.value.sn.key == k
    ensures ViewOf(s, k).toScan == OwedBy(s.scanning) + OwedRows(JobsBehind(s), k)
    ensures ViewOf(s, k).scanCount == CountBy(s.scanning) + OwedCount(JobsBehind(s), k)
  {
    if s.scanning.Some? {
      JobHead(s.scanning.value, JobsBehind(s), k);
    } else {
      Unit(JobsBehind(s));
      Unit(OwedRows(JobsBehind(s), k));
    }
  }

  /** Only the snippet in hand sees the scanner move. */
  lemma {:induction false} OtherScanView(s: State, left: Option<Job>, k: Key)
    requires s.scanning.Some? && s.scanning.value.sn.key != k
    requires left.Some? ==> left.value.sn == s.scanning.value.sn
    ensures ViewOf(s.(scanning := left), k) == ViewOf(s, k)
  {
    JobHead(s.scanning.value, JobsBehind(s), k);
    Unit(OwedRows(JobsBehind(s), k));
    if left.Some? {
      JobHead(left.value, JobsBehind(s), k);
    } else {
      Unit(JobsBehind(s));
    }
  }

  /** A turn of the scanner splits what the job owed into what it pushes and what is left. */
  ghost predicate Splits(j: Job, left: Option<Job>, out: Option<Batch>) {
    && (left.Some? ==> left.value.sn == j.sn)
    && (out.Some? ==> out.value.key == j.sn.key)
    && Owed(j) == (if out.Some? then out.value.rows else []) + OwedBy(left)
    && CountLeft(j.sn, j.at) == (if out.Some? then out.value.count else 0) + CountBy(left)
  }

  lemma {:induction false} StepSplits(sn: Snippet, p: Progress)
    requires InRange(sn, p)
    ensures Splits(Job(sn, p), LeftOf(sn, Step(sn, p)), OutOf(Step(sn, p)))
  {
    StepConservesRows(sn, p);
    StepConservesCount(sn, p);
    Unit(RowsLeft(sn, p));
  }

  lemma {:induction false} RescanOther(s: State, left: Option<Job>, out: Option<Batch>, k: Key)
    requires s.scanning.Some? && Splits(s.scanning.value, left, out) && k != s.scanning.value.sn.key
    ensures ViewOf(Rescan(s, left, s.scanning.value.sn.filtered, out), k) == ViewOf(s, k)
  {
    OtherScanView(s, left, k);
    if out.Some? {
      EnQueueView(s.(scanning := left), s.scanning.value.sn.filtered, out.value, k);
    }
  }

  lemma {:induction false} SilentSplit(j: Job, left: Option<Job>)
    requires Splits(j, left, None)
    ensures Owed(j) == OwedBy(left) && CountLeft(j.sn, j.at) == CountBy(left)
  {
  }

  lemma {:induction false} RescanSilent(s: State, left: Option<Job>, k: Key)
    requires s.scanning.Some? && Splits(s.scanning.value, left, None) && k == s.scanning.value.sn.key
    ensures ViewOf(s.(scanning := left), k) == ViewOf(s, k)
  {
    var t := s.(scanning := left);
    SilentSplit(s.scanning.value, left);
    ScanLineView(s, k);
    ScanLineView(t, k);
    assert ViewOf(t, k).toScan == ViewOf(s, k).toScan && ViewOf(t, k).scanCount == ViewOf(s, k).scanCount;
  }

  lemma {:induction false} RescanSplit(s: State, left: Option<Job>, b: Batch, k: Key)
    requires s.scanning.Some? && Splits(s.scanning.value, left, Some(b)) && k == s.scanning.value.sn.key
    ensures var v, u := ViewOf(s, k), ViewOf(s.(scanning := left), k);
            v.toScan == b.rows + u.toScan && v.scanCount == b.count + u.scanCount
  {
    ScanLineView(s, k);
    ScanLineView(s.(scanning := left), k);
    Assoc(b.rows, OwedBy(left), OwedRows(JobsBehind(s), k));
  }

  lemma {:induction false} RescanEmits(s: State, left: Option<Job>, b: Batch, k: Key)
    requires s.scanning.Some? && Splits(s.scanning.value, left, Some(b)) && k == s.scanning.value.sn.key
    ensures var sn, v, u := s.scanning.value.sn, ViewOf(s, k), ViewOf(s.(scanning := left), k);
            ViewOf(Rescan(s, left, sn.filtered, Some(b)), k) == ScanMoved(sn, v, b, u.toScan)
  {
    var sn, v, t := s.scanning.value.sn, ViewOf(s, k), s.(scanning := left);
    RescanSplit(s, left, b, k);
    EnQueueView(t, sn.filtered, b, k);
    assert ViewOf(t, k) == v.(toScan := ViewOf(t, k).toScan, scanCount := v.scanCount - b.count);
  }

  lemma {:induction false} RescanKeeps(s: State, left: Option<Job>, out: Option<Batch>, k: Key)
    requires s.scanning.Some? && Splits(s.scanning.value, left, out)
    requires k in s.submitted && Accounted(s, k) && ToFilterOk(s.submitted, FilterLine(s))
    requires s.scanning.value.sn.key == k ==> s.scanning.value.sn == s.submitted[k]
    ensures Accounted(Rescan(s, left, s.scanning.value.sn.filtered, out), k)
  {
    var sn := s.scanning.value.sn;
    if k != sn.key {
      RescanOther(s, left, out, k);
    } else if out.None? {
      RescanSilent(s, left, k);
    } else {
      RescanSplit(s, left, out.value, k);
      RescanEmits(s, left, out.value, k);
      if !sn.filtered {
        NoBatches(FilterLine(s), k);
      }
      ScanMoves(sn, ViewOf(s, k), out.value, ViewOf(s.(scanning := left), k).toScan);
    }
  }

  lemma {:induction false} ScanStepKeeps(s: State, k: Key)
    requires Tagged(s) && CanScanBlock(s) && k in s.submitted && Accounted(s, k)
    ensures Accounted(ScanStep(s), k)
  {
    var Job(sn, p) := s.scanning.value;
    assert ScanLine(s)[0] == s.scanning.value;
    StepSplits(sn, p);
    RescanKeeps(s, LeftOf(sn, Step(sn, p)), OutOf(Step(sn, p)), k);
  }

  lemma {:induction false} RescanTagged(s: State, left: Option<Job>, out: Option<Batch>)
    requires Tagged(s) && s.scanning.Some?
    requires left.Some? ==> left.value.sn == s.scanning.value.sn && InRange(left.value.sn, left.value.at)
    requires out.Some? ==> BatchTagged(s.submitted, out.value) && out.value.key == s.scanning.value.sn.key
    ensures Tagged(Rescan(s, left, s.scanning.value.sn.filtered, out))
  {
    var sn := s.scanning.value.sn;
    assert ScanLine(s)[0] == s.scanning.value;
    assert JobsOk(s.submitted, ScanLine(s)[1..]);
    JobsAppend(s.submitted, Held(left), ScanLine(s)[1..]);
    assert ScanLine(s)[1..] == Fresh(s.scanQueue);
    var t := s.(scanning := left);
    assert Tagged(t);
    if out.Some? {
      EnQueueTagged(t, sn.filtered, out.value);
    }
  }

  lemma {:induction false} JobsAppend(sub: Submitted, a: seq<Job>, b: seq<Job>)
    requires JobsOk(sub, a) && JobsOk(sub, b)
    ensures JobsOk(sub, a + b)
  {
  }

  lemma {:induction false} EnQueueTagged(s: State, filtered: bool, b: Batch)
    requires Tagged(s) && BatchTagged(s.submitted, b) && s.submitted[b.key].filtered == filtered
    ensures Tagged(EnQueue(s, filtered, b))
  {
    Assoc(Held(s.filtering), s.filterQueue, [b]);
    Assoc(Held(s.merging), s.mergeQueue, [b]);
  }

  lemma {:induction false} ScanStepTagged(s: State)
    requires Tagged(s) && CanScanBlock(s)
    ensures Tagged(ScanStep(s))
  {
    var Job(sn, p) := s.scanning.value;
    assert ScanLine(s)[0] == s.scanning.value;
    StepConservesCount(sn, p);
    RescanTagged(s, LeftOf(sn, Step(sn, p)), OutOf(Step(sn, p)));
  }

  // ---------------------------------------------------------------- filtering a batch

  lemma {:induction false} FilterMoves(sn: Snippet, v: View, b: Batch, rest: seq<Row>)
    requires sn.filtered && b.info == sn.info && v.toFilter == b.rows + rest && v.filterCount >= b.count
    ensures Ledger(sn, v) == Ledger(sn, FilterMoved(v, b, rest))
    ensures CountLedger(v) == CountLedger(FilterMoved(v, b, rest))
  {
    var kept := Keep(b.info.where, b.rows);
    OutputAppend(sn, b.rows, rest);
    ProjectAppend(sn.info, v.toMerge, kept);
    var m, x, y, z := Project(sn.info, v.toMerge), Output(sn, b.rows), Output(sn, rest), Output(sn, v.toScan);
    Assoc(x, y, z);
    Assoc(m, x, y + z);
  }

  function FilterMoved(v: View, b: Batch, rest: seq<Row>): View
    requires v.filterCount >= b.count
  {
    v.(toFilter := rest, filterCount := v.filterCount - b.count,
       toMerge := v.toMerge + Keep(b.info.where, b.rows), mergeCount := v.mergeCount + b.count)
  }

  /** The batch in the filter's hands, seen by its own snippet and by the others. */
  lemma {:induction false} FilterLineView(s: State, k: Key)
    requires s.filtering.Some?
    ensures var v, u, b := ViewOf(s, k), ViewOf(s.(filtering := None), k), s.filtering.value;
            && v.filterCount == (if k == b.key then b.count else 0) + u.filterCount
            && v.toFilter == (if k == b.key then b.rows else []) + u.toFilter
  {
    LineHead(s.filtering.value, s.filterQueue, k);
    Unit(s.filterQueue);
  }

  lemma {:induction false} FilterHand(s: State, k: Key)
    requires s.filtering.Some?
    ensures var v, u, b := ViewOf(s, k), ViewOf(s.(filtering := None), k), s.filtering.value;
            && (k != b.key ==> u == v)
            && (k == b.key ==> v.filterCount == b.count + u.filterCount && v.toFilter == b.rows + u.toFilter
                               && u == v.(toFilter := u.toFilter, filterCount := u.filterCount))
  {
    FilterLineView(s, k);
    Unit(ViewOf(s.(filtering := None), k).toFilter);
  }

  lemma {:induction false} FilterStepView(s: State, k: Key)
    requires s.filtering.Some?
    ensures var v, w, b := ViewOf(s, k), ViewOf(FilterStep(s), k), s.filtering.value;
            var u := ViewOf(s.(filtering := None), k);
            && (k != b.key ==> w == v)
            && (k == b.key ==> v.filterCount >= b.count && v.toFilter == b.rows + u.toFilter
                               && w == FilterMoved(v, b, u.toFilter))
  {
    var b := s.filtering.value;
    FilterHand(s, k);
    EnQueueView(s.(filtering := None), false, b.(rows := Keep(b.info.where, b.rows)), k);
  }

  lemma {:induction false} FilterStepKeeps(s: State, k: Key)
    requires Tagged(s) && s.filtering.Some? && k in s.submitted && Accounted(s, k)
    ensures Accounted(FilterStep(s), k)
  {
    FilterStepView(s, k);
    var b := s.filtering.value;
    assert FilterLine(s)[0] == b;
    if k == b.key {
      FilterMoves(s.submitted[k], ViewOf(s, k), b, ViewOf(s.(filtering := None), k).toFilter);
    }
  }

  /** Lines of tagged batches stay tagged when their ends move. */
  lemma {:induction false} TaggedSnoc(sub: Submitted, bs: seq<Batch>, b: Batch)
    requires ToMergeOk(sub, bs) && BatchTagged(sub, b)
    ensures ToMergeOk(sub, bs + [b])
  {
  }

  lemma {:induction false} TaggedCons(sub: Submitted, b: Batch, bs: seq<Batch>)
    requires ToMergeOk(sub, bs) && BatchTagged(sub, b)
    ensures ToMergeOk(sub, [b] + bs)
  {
  }

  lemma {:induction false} TaggedTail(sub: Submitted, b: Batch, bs: seq<Batch>)
    requires ToMergeOk(sub, [b] + bs)
    ensures BatchTagged(sub, b) && ToMergeOk(sub, bs)
  {
    assert ([b] + bs)[0] == b && ([b] + bs)[1..] == bs;
  }

  lemma {:induction false} FilterTail(sub: Submitted, b: Batch, bs: seq<Batch>)
    requires ToFilterOk(sub, [b] + bs)
    ensures BatchTagged(sub, b) && ToFilterOk(sub, bs)
  {
    assert ([b] + bs)[0] == b && ([b] + bs)[1..] == bs;
  }

  lemma {:induction false} FilterStepTagged(s: State)
    requires Tagged(s) && s.filtering.Some?
    ensures Tagged(FilterStep(s))
  {
    var b := s.filtering.value;
    var kept := b.(rows := Keep(b.info.where, b.rows));
    FilterTail(s.submitted, b, s.filterQueue);
    Unit(s.filterQueue);
    TaggedSnoc(s.submitted, MergeLine(s), kept);
    Assoc(Held(s.merging), s.mergeQueue, [kept]);
  }

  // ---------------------------------------------------------------- merging a row

  /** Each row fits an empty output buffer. */
  predicate AllFit(rows: seq<Row>) {
    rows == [] || (|rows[0]| <= BUFF_SIZE && AllFit(rows[1..]))
  }

  lemma {:induction false} FitsOneByOne(rows: seq<Row>, i: nat)
    requires AllFit(rows) && i < |rows|
    ensures |rows[i]| <= BUFF_SIZE
  {
    if i > 0 {
      FitsOneByOne(rows[1..], i - 1);
    }
  }

  lemma {:induction false} AllFitAppend(a: seq<Row>, b: seq<Row>)
    ensures AllFit(a + b) <==> AllFit(a) && AllFit(b)
  {
    if a == [] {
      assert a + b == b;
    } else {
      assert (a + b)[1..] == a[1..] + b;
      AllFitAppend(a[1..], b);
    }
  }

  lemma {:induction false} RowsOfAPage(rows: seq<Row>)
    requires Bytes(rows) <= BUFF_SIZE
    ensures AllFit(rows)
  {
    if rows != [] {
      RowsOfAPage(rows[1..]);
    }
  }

  lemma {:induction false} RowsOfBatchesFit(bs: seq<Batch>)
    requires BatchesFit(bs)
    ensures AllFit(AllRows(bs))
  {
    if bs != [] {
      RowsOfAPage(bs[0].rows);
      RowsOfBatchesFit(bs[1..]);
      AllFitAppend(bs[0].rows, AllRows(bs[1..]));
    }
  }

  lemma {:induction false} KeptFit(where: Row -> bool, rows: seq<Row>)
    requires AllFit(rows)
    ensures AllFit(Keep(where, rows))
  {
    if rows != [] {
      KeptFit(where, rows[1..]);
      AllFitAppend(if where(rows[0]) then [rows[0]] else [], Keep(where, rows[1..]));
    }
  }

  lemma {:induction false} ProjectedFit(info: Info, rows: seq<Row>)
    requires AllFit(rows) && AllShrink(info, rows)
    ensures AllFit(Project(info, rows))
  {
    if rows != [] {
      ProjectedFit(info, rows[1..]);
      assert ([info.project(rows[0])] + Project(info, rows[1..]))[1..] == Project(info, rows[1..]);
    }
  }

  /** The answer to an admissible snippet fits row by row. */
  lemma {:induction false} AnswerFits(sn: Snippet)
    requires Admissible(sn)
    ensures AllFit(Expected(sn))
  {
    ScanBatching(sn);
    RowsOfBatchesFit(Batches(sn, START));
    KeptFit(sn.info.where, ScannedRows(sn.blocks));
    ProjectedFit(sn.info, Reaching(sn, ScannedRows(sn.blocks)));
  }

  /** A message at the end of the list, seen by its own snippet and by the others. */
  lemma {:induction false} MessageSnoc(ms: seq<Message>, m: Message, sn: Snippet)
    requires MessagesOk(ms, sn)
    requires m.key == sn.key ==>
               && ReturnedCount(ms, sn.key) < |sn.blocks| == m.total
               && m.current == ReturnedCount(ms, sn.key) + m.count
               && Bytes(m.rows) <= BUFF_SIZE
    ensures MessagesOk(ms + [m], sn)
  {
    forall n | 0 <= n < |ms + [m]| && (ms + [m])[n].key == sn.key ensures MessageOk(ms + [m], n, sn) {
      if n < |ms| {
        assert (ms + [m])[..n] == ms[..n];
        assert MessageOk(ms, n, sn);
      } else {
        assert (ms + [m])[..n] == ms;
      }
    }
  }

  lemma {:induction false} ReturnedSnoc(ms: seq<Message>, m: Message, k: Key)
    ensures ReturnedRows(ms + [m], k) == ReturnedRows(ms, k) + if m.key == k then m.rows else []
    ensures ReturnedCount(ms + [m], k) == ReturnedCount(ms, k) + if m.key == k then m.count else 0
  {
    ReturnedAppend(ms, [m], k);
    SingleMessage(m, k);
  }

  lemma {:induction false} RemergeMessages(s: State, key: Key, o: Outcome, left: Option<Batch>)
    ensures Messages(Remerge(s, key, o, left)) == Messages(s) + Held(o.out)
  {
  }

  lemma {:induction false} RemergeOther(s: State, o: Outcome, left: Option<Batch>, k: Key)
    requires s.merging.Some? && s.merging.value.key != k
    requires left.Some? ==> left.value.key == s.merging.value.key
    requires o.out.Some? ==> o.out.value.key == s.merging.value.key
    ensures ViewOf(Remerge(s, s.merging.value.key, o, left), k) == ViewOf(s, k)
  {
    RemergeMessages(s, s.merging.value.key, o, left);
    if o.out.Some? {
      ReturnedSnoc(Messages(s), o.out.value, k);
      Unit(ReturnedRows(Messages(s), k));
    } else {
      Unit(Messages(s));
    }
    LineHead(s.merging.value, s.mergeQueue, k);
    if left.Some? {
      LineHead(left.value, s.mergeQueue, k);
    } else {
      Unit(s.mergeQueue);
      Unit(RowsOf(s.mergeQueue, k));
    }
  }

  /** The line behind the batch in hand, for the batch's own key. */
  lemma {:induction false} HandView(s: State, k: Key)
    requires s.merging.Some? ==> s.merging.value.key == k
    ensures ViewOf(s, k).toMerge == (if s.merging.Some? then s.merging.value.rows else []) + RowsOf(s.mergeQueue, k)
    ensures ViewOf(s, k).mergeCount == (if s.merging.Some? then s.merging.value.count else 0) + CountOf(s.mergeQueue, k)
  {
    if s.merging.Some? {
      LineHead(s.merging.value, s.mergeQueue, k);
    } else {
      Unit(s.mergeQueue);
      Unit(RowsOf(s.mergeQueue, k));
    }
  }

  /** What the action means for the snippet itself. */
  ghost predicate Remerged(v: View, o: Outcome, w: View) {
    && w == v.(returned := w.returned, returnedCount := w.returnedCount, buffer := o.buffer,
               toMerge := w.toMerge, mergeCount := w.mergeCount)
    && w.returned == v.returned + (if o.out.Some? then o.out.value.rows else [])
    && w.returnedCount == v.returnedCount + (if o.out.Some? then o.out.value.count else 0)
  }

  lemma {:induction false} RemergeOwn(s: State, o: Outcome, left: Option<Batch>, k: Key)
    requires s.merging.Some? && s.merging.value.key == k
    requires o.out.Some? ==> o.out.value.key == k
    ensures Remerged(ViewOf(s, k), o, ViewOf(Remerge(s, k, o, left), k))
  {
    RemergeMessages(s, k, o, left);
    if o.out.Some? {
      ReturnedSnoc(Messages(s), o.out.value, k);
    } else {
      Unit(Messages(s));
      Unit(ReturnedRows(Messages(s), k));
    }
  }

  lemma {:induction false} RowRegrouped(a: seq<Row>, b: seq<Row>, x: seq<Row>, y: seq<Row>, t: seq<Row>)
    ensures a + (b + ((x + y) + t)) == a + ((b + x) + (y + t))
    ensures a + (b + ((x + y) + t)) == (a + b) + (x + (y + t))
  {
    Assoc(x, y, t);
    Assoc(b, x, y + t);
    Assoc(a, b, x + (y + t));
  }

  /** The row stays where it was in the answer. */
  lemma {:induction false} RowLedger(sn: Snippet, v: View, w: View, r: Row)
    requires v.buffer.Some? && v.toMerge == [r] + w.toMerge
    requires Remerged(v, AddRow(sn.key, v.buffer.value, sn.info.project(r)), w)
    ensures Ledger(sn, w) == Ledger(sn, v)
    ensures |v.returned| + |v.buffer.value.rows| < |Ledger(sn, v)|
    ensures Ledger(sn, v)[|v.returned| + |v.buffer.value.rows|] == sn.info.project(r)
  {
    var x, y := [sn.info.project(r)], Project(sn.info, w.toMerge);
    assert Project(sn.info, v.toMerge) == x + y;
    RowRegrouped(v.returned, v.buffer.value.rows, x, y, Output(sn, v.toFilter) + Output(sn, v.toScan));
    Unit(v.returned);
  }

  /** The buffer stays in order, and block counts stay where they were or leave with a flush. */
  lemma {:induction false} RowBuffer(sn: Snippet, v: View, w: View, x: Row)
    requires v.buffer.Some? && BufferOk(sn, v) && |x| <= BUFF_SIZE && v.mergeCount == w.mergeCount
    requires Remerged(v, AddRow(sn.key, v.buffer.value, x), w)
    ensures BufferOk(sn, w) && CountLedger(w) == CountLedger(v)
  {
    ConcatSnoc(v.buffer.value.rows, x);
    ConcatSnoc([], x);
    Unit([x]);
  }

  /** A row goes from the batch to the buffer, with a flush in front of it or not. */
  lemma {:induction false} RowMoves(sn: Snippet, v: View, w: View, r: Row)
    requires v.buffer.Some? && Balanced(sn, v)
    requires AllFit(Expected(sn))
    requires v.toMerge == [r] + w.toMerge && v.mergeCount == w.mergeCount
    requires Remerged(v, AddRow(sn.key, v.buffer.value, sn.info.project(r)), w)
    ensures Balanced(sn, w)
  {
    RowLedger(sn, v, w, r);
    FitsOneByOne(Expected(sn), |v.returned| + |v.buffer.value.rows|);
    RowBuffer(sn, v, w, sn.info.project(r));
  }

  /** The end of a batch: its block count joins the buffer's, and a complete buffer leaves. */
  lemma {:induction false} CloseMoves(sn: Snippet, v: View, w: View, count: nat)
    requires v.buffer.Some? && Balanced(sn, v)
    requires v.toMerge == w.toMerge && v.mergeCount == count + w.mergeCount && v.scanCount >= 0
    requires Remerged(v, Close(sn.key, v.buffer.value, count), w)
    ensures Balanced(sn, w)
  {
    var rows := v.buffer.value.rows;
    var rest := Project(sn.info, v.toMerge) + (Output(sn, v.toFilter) + Output(sn, v.toScan));
    assert Project(sn.info, w.toMerge) + (Output(sn, w.toFilter) + Output(sn, w.toScan)) == rest;
    Assoc(v.returned, rows, rest);
    Unit(rest);
    Unit(v.returned);
  }

  /** Whatever a balanced buffer pushes is a proper message. */
  lemma {:induction false} PushedIsOk(ms: seq<Message>, sn: Snippet, v: View, o: Outcome)
    requires MessagesOk(ms, sn) && v.buffer.Some? && BufferOk(sn, v) && v.returnedCount == ReturnedCount(ms, sn.key)
    requires o.out.Some? ==>
               && o.out.value.key == sn.key && o.out.value.total == v.buffer.value.total
               && o.out.value.rows == v.buffer.value.rows
               && o.out.value.current - o.out.value.count == v.buffer.value.current - v.buffer.value.count
    ensures MessagesOk(ms + Held(o.out), sn)
  {
    if o.out.Some? {
      MessageSnoc(ms, o.out.value, sn);
    } else {
      Unit(ms);
    }
  }

  /** The row leaves the batch in hand. */
  lemma {:induction false} RowLeaves(s: State, o: Outcome, k: Key)
    requires s.merging.Some? && s.merging.value.key == k && s.merging.value.rows != []
    ensures var b := s.merging.value;
            var v, w := ViewOf(s, k), ViewOf(Remerge(s, k, o, Some(b.(rows := b.rows[1..]))), k);
            v.toMerge == [b.rows[0]] + w.toMerge && v.mergeCount == w.mergeCount
  {
    var b := s.merging.value;
    HandView(s, k);
    HandView(Remerge(s, k, o, Some(b.(rows := b.rows[1..]))), k);
    assert b.rows == [b.rows[0]] + b.rows[1..];
    Assoc([b.rows[0]], b.rows[1..], RowsOf(s.mergeQueue, k));
  }

  lemma {:induction false} RemergeRowKeeps(s: State, sn: Snippet)
    requires s.merging.Some? && s.merging.value.key == sn.key && s.merging.value.rows != []
    requires s.merging.value.info == sn.info && sn.key in s.buffers && AllFit(Expected(sn))
    requires Balanced(sn, ViewOf(s, sn.key)) && MessagesOk(Messages(s), sn)
    ensures var b := s.merging.value;
            var o := AddRow(sn.key, s.buffers[sn.key], b.info.project(b.rows[0]));
            var s' := Remerge(s, sn.key, o, Some(b.(rows := b.rows[1..])));
            Balanced(sn, ViewOf(s', sn.key)) && MessagesOk(Messages(s'), sn)
  {
    var b, k, v := s.merging.value, sn.key, ViewOf(s, sn.key);
    var o, left := AddRow(k, s.buffers[k], b.info.project(b.rows[0])), Some(b.(rows := b.rows[1..]));
    RowLeaves(s, o, k);
    RemergeMessages(s, k, o, left);
    RemergeOwn(s, o, left, k);
    PushedIsOk(Messages(s), sn, v, o);
    RowMoves(sn, v, ViewOf(Remerge(s, k, o, left), k), b.rows[0]);
  }

  lemma {:induction false} MergeRowKeeps(s: State, k: Key)
    requires Tagged(s) && CanMerge(s) && k in s.submitted && Accounted(s, k) && k == s.merging.value.key
    requires s.merging.value.rows != [] && AllFit(Expected(s.submitted[k]))
    ensures Accounted(MergeStep(s), k)
  {
    assert MergeLine(s)[0] == s.merging.value && BatchTagged(s.submitted, s.merging.value);
    RemergeRowKeeps(s, s.submitted[k]);
  }

  lemma {:induction false} MergeCloseKeeps(s: State, k: Key)
    requires Tagged(s) && CanMerge(s) && k in s.submitted && Accounted(s, k) && k == s.merging.value.key
    requires s.merging.value.rows == []
    ensures Accounted(MergeStep(s), k)
  {
    var b, sn, v, s' := s.merging.value, s.submitted[k], ViewOf(s, k), MergeStep(s);
    assert MergeLine(s)[0] == b && BatchTagged(s.submitted, b);
    var o := Close(k, s.buffers[k], b.count);
    HandView(s, k);
    HandView(s', k);
    RemergeMessages(s, k, o, None);
    RemergeOwn(s, o, None, k);
    PushedIsOk(Messages(s), sn, v, o);
    OwedCountPositive(s.submitted, ScanLine(s), k);
    CloseMoves(sn, v, ViewOf(s', k), b.count);
  }

  lemma {:induction false} MergeStepKeepsOther(s: State, k: Key)
    requires Tagged(s) && CanMerge(s) && k in s.submitted && Accounted(s, k) && k != s.merging.value.key
    ensures Accounted(MergeStep(s), k)
  {
    var b, sn := s.merging.value, s.submitted[k];
    var o := if b.rows != [] then AddRow(b.key, s.buffers[b.key], b.info.project(b.rows[0]))
             else Close(b.key, s.buffers[b.key], b.count);
    var left := if b.rows != [] then Some(b.(rows := b.rows[1..])) else None;
    assert MergeStep(s) == Remerge(s, b.key, o, left);
    RemergeOther(s, o, left, k);
    RemergeMessages(s, b.key, o, left);
    if o.out.Some? {
      MessageSnoc(Messages(s), o.out.value, sn);
    } else {
      Unit(Messages(s));
    }
  }

  lemma {:induction false} KnownAppend(sub: Submitted, ms: seq<Message>, m: Option<Message>)
    requires MessagesKnown(sub, ms) && (m.Some? ==> m.value.key in sub)
    ensures MessagesKnown(sub, ms + Held(m))
  {
  }

  /** What the merge thread must have kept in order: the batch left in its hands, if any, its
      buffer, and the key of what it pushed. */
  lemma {:induction false} RemergeTagged(s: State, o: Outcome, left: Option<Batch>)
    requires Tagged(s) && s.merging.Some?
    requires left.Some? ==>
               BatchTagged(s.submitted, left.value) && left.value.key == s.merging.value.key && o.buffer.Some?
    requires o.out.Some? ==> o.out.value.key == s.merging.value.key
    ensures Tagged(Remerge(s, s.merging.value.key, o, left))
  {
    var b := s.merging.value;
    TaggedTail(s.submitted, b, s.mergeQueue);
    RemergeMessages(s, b.key, o, left);
    KnownAppend(s.submitted, Messages(s), o.out);
    if left.Some? {
      TaggedCons(s.submitted, left.value, s.mergeQueue);
    } else {
      Unit(s.mergeQueue);
    }
  }

  lemma {:induction false} MergeStepTagged(s: State)
    requires Tagged(s) && CanMerge(s)
    ensures Tagged(MergeStep(s))
  {
    var b := s.merging.value;
    TaggedTail(s.submitted, b, s.mergeQueue);
    if b.rows != [] {
      RemergeTagged(s, AddRow(b.key, s.buffers[b.key], b.info.project(b.rows[0])), Some(b.(rows := b.rows[1..])));
    } else {
      RemergeTagged(s, Close(b.key, s.buffers[b.key], b.count), None);
    }
  }

  // ---------------------------------------------------------------- every step, every run

  /** Steps that leave every line, buffer and message where it is. */
  lemma {:induction false} SameLinesKeep(s: State, s': State)
    requires Inv(s) && s'.submitted == s.submitted && s'.buffers == s.buffers && s'.merging == s.merging
    requires ScanLine(s') == ScanLine(s) && FilterLine(s') == FilterLine(s)
    requires MergeLine(s') == MergeLine(s) && Messages(s') == Messages(s)
    ensures Inv(s')
  {
  }

  lemma {:induction false} PopsAndSendKeep(s: State, s': State)
    requires Inv(s)
    requires (CanScanPop(s) && s' == ScanPop(s)) || (CanFilterPop(s) && s' == FilterPop(s)) || (CanSend(s) && s' == Send(s))
    ensures Inv(s')
  {
    PopsKeepLines(s);
    SameLinesKeep(s, s');
  }

  lemma {:induction false} SubmitKeepsInv(s: State, s': State, sn: Snippet)
    requires Inv(s) && Submit(s, s', sn)
    ensures Inv(s')
  {
    SubmitTagged(s, s', sn);
    forall k | k in s'.submitted ensures Accounted(s', k) {
      assert k in s.submitted ==> Accounted(s, k);
      SubmitKeeps(s, s', sn, k);
    }
  }

  lemma {:induction false} ScanStepKeepsInv(s: State)
    requires Inv(s) && CanScanBlock(s)
    ensures Inv(ScanStep(s))
  {
    ScanStepTagged(s);
    forall k | k in s.submitted ensures Accounted(ScanStep(s), k) {
      assert Accounted(s, k);
      ScanStepKeeps(s, k);
    }
  }

  lemma {:induction false} FilterStepKeepsInv(s: State)
    requires Inv(s) && s.filtering.Some?
    ensures Inv(FilterStep(s))
  {
    FilterStepTagged(s);
    forall k | k in s.submitted ensures Accounted(FilterStep(s), k) {
      assert Accounted(s, k);
      FilterStepKeeps(s, k);
    }
  }

  lemma {:induction false} MergePopKeepsInv(s: State)
    requires Inv(s) && CanMergePop(s)
    ensures Inv(MergePop(s))
  {
    MergePopTagged(s);
    forall k | k in s.submitted ensures Accounted(MergePop(s), k) {
      assert Accounted(s, k);
      MergePopKeeps(s, k);
    }
  }

  lemma {:induction false} MergeStepKeepsInv(s: State)
    requires Inv(s) && CanMerge(s)
    ensures Inv(MergeStep(s))
  {
    MergeStepTagged(s);
    forall k | k in s.submitted ensures Accounted(MergeStep(s), k) {
      assert Accounted(s, k);
      if k != s.merging.value.key {
        MergeStepKeepsOther(s, k);
      } else if s.merging.value.rows != [] {
        AnswerFits(s.submitted[k]);
        MergeRowKeeps(s, k);
      } else {
        MergeCloseKeeps(s, k);
      }
    }
  }

  lemma {:induction false} WorkKeepsInv(s: State, s': State)
    requires Inv(s) && Work(s, s')
    ensures Inv(s')
  {
    if CanScanBlock(s) && s' == ScanStep(s) { ScanStepKeepsInv(s); }
    else if s.filtering.Some? && s' == FilterStep(s) { FilterStepKeepsInv(s); }
    else if CanMergePop(s) && s' == MergePop(s) { MergePopKeepsInv(s); }
    else if CanMerge(s) && s' == MergeStep(s) { MergeStepKeepsInv(s); }
    else { PopsAndSendKeep(s, s'); }
  }

  /** Every state of every run satisfies the invariant. */
  lemma {:induction false} RunKeepsInv(run: seq<State>)
    requires IsRun(run)
    ensures Inv(run[|run| - 1])
  {
    var n := |run| - 1;
    if n > 0 {
      RunKeepsInv(run[..n]);
      var s, s' := run[n - 1], run[n];
      assert Next(s, s');
      if sn :| Submit(s, s', sn) {
        SubmitKeepsInv(s, s', sn);
      } else {
        WorkKeepsInv(s, s');
      }
    }
  }
}
