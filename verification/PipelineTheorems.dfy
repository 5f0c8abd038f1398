/** What the pipeline guarantees over whole runs: the answer, completion, progress. */
module PipelineTheorems {
  import opened Rows
  import opened Scan
  import opened Merge
  import opened Pipeline
  import opened PipelineSafety
  import opened PipelineRoom

  // ---------------------------------------------------------------- which snippets

  /** A row that passes WHERE does not grow when it is projected. */
  ghost predicate RowFits(sn: Snippet, r: Row) {
    (sn.filtered ==> sn.info.where(r)) ==> |sn.info.project(r)| <= |r|
  }

  ghost predicate AllRowsFit(sn: Snippet, rows: seq<Row>) { forall r :: r in rows ==> RowFits(sn, r) }

  lemma {:induction false} ReachingOne(sn: Snippet, r: Row)
    ensures AllShrink(sn.info, Reaching(sn, [r])) <==> RowFits(sn, r)
  {
    assert Keep(sn.info.where, []) == [];
    assert Keep(sn.info.where, [r]) == if sn.info.where(r) then [r] else [];
    assert AllShrink(sn.info, [r]) <==> |sn.info.project(r)| <= |r|;
  }

  lemma {:induction false} AllShrinkIff(sn: Snippet, rows: seq<Row>)
    ensures AllShrink(sn.info, Reaching(sn, rows)) <==> AllRowsFit(sn, rows)
  {
    if rows == [] {
      assert Reaching(sn, rows) == [];
    } else {
      var r, rest := rows[0], rows[1..];
      AllShrinkIff(sn, rest);
      assert rows == [r] + rest;
      ReachingAppend(sn, [r], rest);
      ShrinkAppend(sn.info, Reaching(sn, [r]), Reaching(sn, rest));
      ReachingOne(sn, r);
      assert forall x :: x in rows <==> x == r || x in rest;
    }
  }

  /** A snippet can be submitted exactly when it has a block, every batch scan collects fits
      its buffer, and no row it scans and lets through grows when it is projected: SELECT * of
      blocks of at most 5000 bytes, for one. */
  lemma {:induction false} AdmissibleIff(sn: Snippet)
    ensures Admissible(sn) <==>
              && sn.blocks != []
              && PagesFit(Batches(sn, START))
              && AllRowsFit(sn, ScannedRows(sn.blocks))
  {
    FitOneByOne(Batches(sn, START));
    AllShrinkIff(sn, ScannedRows(sn.blocks));
  }

  // ---------------------------------------------------------------- the answer

  lemma {:induction false} LedgerPrefix(sn: Snippet, v: View)
    requires Ledger(sn, v) == Expected(sn)
    ensures v.returned <= Expected(sn)
  {
  }

  /** With all block counts returned there is nothing left anywhere. */
  lemma {:induction false} NothingLeft(s: State, k: Key)
    requires Tagged(s) && k in s.submitted && Accounted(s, k)
    requires ReturnedCount(Messages(s), k) == |s.submitted[k].blocks|
    ensures k !in s.buffers
    ensures RowsOf(MergeLine(s), k) == RowsOf(FilterLine(s), k) == OwedRows(ScanLine(s), k) == []
  {
    OwedCountPositive(s.submitted, ScanLine(s), k);
    NoCountNoRows(s.submitted, MergeLine(s), k);
    NoCountNoRows(s.submitted, FilterLine(s), k);
  }

  lemma {:induction false} CompleteAnswer(sn: Snippet, v: View)
    requires Ledger(sn, v) == Expected(sn) && v.buffer.None?
    requires v.toMerge == v.toFilter == v.toScan == []
    ensures v.returned == Expected(sn)
  {
  }

  /** At every moment of every run, what has been returned for a snippet is a prefix of
      its answer, and the whole answer once all its block counts have come back. */
  lemma {:induction false} EndToEnd(run: seq<State>, k: Key)
    requires IsRun(run) && k in run[|run| - 1].submitted
    ensures var s := run[|run| - 1];
            var sn := s.submitted[k];
            var ms := Messages(s);
            && ReturnedRows(ms, k) <= Expected(sn)
            && ReturnedCount(ms, k) <= |sn.blocks|
            && (ReturnedCount(ms, k) == |sn.blocks| ==> ReturnedRows(ms, k) == Expected(sn))
  {
    RunKeepsInv(run);
    var s := run[|run| - 1];
    assert Accounted(s, k);
    var sn, v := s.submitted[k], ViewOf(s, k);
    LedgerPrefix(sn, v);
    OwedCountPositive(s.submitted, ScanLine(s), k);
    if v.returnedCount == |sn.blocks| {
      NothingLeft(s, k);
      CompleteAnswer(sn, v);
    }
  }

  // ---------------------------------------------------------------- completion

  lemma {:induction false} ReturnedMonotone(ms: seq<Message>, n: nat, k: Key)
    requires n <= |ms|
    ensures ReturnedCount(ms[..n], k) <= ReturnedCount(ms, k)
  {
    ReturnedAppend(ms[..n], ms[n..], k);
    assert ms[..n] + ms[n..] == ms;
  }

  lemma {:induction false} MessageFacts(ms: seq<Message>, sn: Snippet, n: nat)
    requires MessagesOk(ms, sn) && n < |ms| && ms[n].key == sn.key
    ensures ms[n].total == |sn.blocks| && ReturnedCount(ms[..n], sn.key) < |sn.blocks|
    ensures ms[n].current == ReturnedCount(ms[..n + 1], sn.key)
  {
    assert MessageOk(ms, n, sn);
    assert ms[..n + 1] == ms[..n] + [ms[n]];
    ReturnedSnoc(ms[..n], ms[n], sn.key);
  }

  lemma {:induction false} NothingAfterTheLast(ms: seq<Message>, sn: Snippet, n: nat, i: nat)
    requires MessagesOk(ms, sn) && n < i < |ms| && ms[n].key == sn.key
    requires ms[n].current == |sn.blocks|
    ensures ms[i].key != sn.key
  {
    if ms[i].key == sn.key {
      MessageFacts(ms, sn, n);
      MessageFacts(ms, sn, i);
      assert ms[..i][..n + 1] == ms[..n + 1];
      ReturnedMonotone(ms[..i], n + 1, sn.key);
    }
  }

  /** The messages of a snippet: every proper prefix leaves blocks outstanding, a message
      announces completion exactly when its own count brings the sum to the total, and
      nothing follows that message. */
  lemma {:induction false} CompletionOnce(run: seq<State>, k: Key, n: nat)
    requires IsRun(run) && k in run[|run| - 1].submitted
    requires n < |Messages(run[|run| - 1])| && Messages(run[|run| - 1])[n].key == k
    ensures var s := run[|run| - 1];
            var ms, total := Messages(s), |s.submitted[k].blocks|;
            && ms[n].total == total
            && ReturnedCount(ms[..n], k) < total
            && (ms[n].current == ms[n].total <==> ReturnedCount(ms[..n + 1], k) == total)
            && (ms[n].current == ms[n].total ==> forall i :: n < i < |ms| ==> ms[i].key != k)
  {
    RunKeepsInv(run);
    var s := run[|run| - 1];
    assert Accounted(s, k);
    var ms, sn := Messages(s), s.submitted[k];
    MessageFacts(ms, sn, n);
    if ms[n].current == ms[n].total {
      forall i | n < i < |ms| ensures ms[i].key != k {
        NothingAfterTheLast(ms, sn, n, i);
      }
    }
  }

  /** Everything returned belongs to a submitted snippet and fits the output buffer. */
  lemma {:induction false} NothingForeign(run: seq<State>, n: nat)
    requires IsRun(run) && n < |Messages(run[|run| - 1])|
    ensures var s := run[|run| - 1];
            Messages(s)[n].key in s.submitted && Bytes(Messages(s)[n].rows) <= BUFF_SIZE
  {
    RunKeepsInv(run);
    var s := run[|run| - 1];
    var k := Messages(s)[n].key;
    assert Accounted(s, k);
    assert MessageOk(Messages(s), n, s.submitted[k]);
  }

  // ---------------------------------------------------------------- progress

  function ScanWork(q: seq<Snippet>): nat {
    if q == [] then 0 else |q[0].blocks| + 2 + ScanWork(q[1..])
  }

  function MergeWork(q: seq<Batch>): nat {
    if q == [] then 0 else |q[0].rows| + 2 + MergeWork(q[1..])
  }

  /** How much work is left, the stages in order. */
  datatype Rank = Rank(scan: int, filter: int, merge: int, send: int)

  function RankOf(s: State): (r: Rank)
    ensures s.scanning.None? ==> r.scan >= 0
    ensures r.filter >= 0 && r.merge >= 0 && r.send >= 0
  {
    Rank(ScanWork(s.scanQueue)
         + (if s.scanning.Some? then |s.scanning.value.sn.blocks| - s.scanning.value.at.current + 1 else 0),
         2 * |s.filterQueue| + |Held(s.filtering)|,
         MergeWork(s.mergeQueue) + (if s.merging.Some? then |s.merging.value.rows| + 1 else 0),
         |s.returnQueue|)
  }

  predicate Less(a: Rank, b: Rank) {
    || a.scan < b.scan
    || (a.scan == b.scan && (
        || a.filter < b.filter
        || (a.filter == b.filter && (
            || a.merge < b.merge
            || (a.merge == b.merge && a.send < b.send)))))
  }

  /** A job in hand always has a block to read. */
  lemma {:induction false} ScannerIsBusy(s: State)
    requires Inv(s) && s.scanning.Some?
    ensures CanScanBlock(s) && InRange(s.scanning.value.sn, s.scanning.value.at)
  {
    assert ScanLine(s)[0] == s.scanning.value;
  }

  lemma {:induction false} ScanDecreases(s: State)
    requires Inv(s) && CanScanBlock(s)
    ensures RankOf(ScanStep(s)).scan < RankOf(s).scan
  {
    ScannerIsBusy(s);
    var Job(sn, p) := s.scanning.value;
    StepConservesCount(sn, p);
    var left := LeftOf(sn, Step(sn, p));
    assert ScanStep(s).scanning == left && ScanStep(s).scanQueue == s.scanQueue;
  }

  lemma {:induction false} MergeDecreases(s: State)
    requires CanMerge(s)
    ensures RankOf(MergeStep(s)).merge < RankOf(s).merge
    ensures RankOf(MergeStep(s)).scan == RankOf(s).scan && RankOf(MergeStep(s)).filter == RankOf(s).filter
  {
  }

  /** Every action of a thread uses up work; only new snippets bring any. */
  lemma {:induction false} WorkDecreases(s: State, s': State)
    requires Inv(s) && Work(s, s')
    ensures Less(RankOf(s'), RankOf(s))
  {
    if CanScanBlock(s) && s' == ScanStep(s) {
      ScanDecreases(s);
    } else if CanMerge(s) && s' == MergeStep(s) {
      MergeDecreases(s);
    } else {
      OthersDecrease(s, s');
    }
  }

  lemma {:induction false} PopsDecrease(s: State)
    ensures CanScanPop(s) ==> Less(RankOf(ScanPop(s)), RankOf(s))
    ensures CanFilterPop(s) ==> Less(RankOf(FilterPop(s)), RankOf(s))
    ensures CanSend(s) ==> Less(RankOf(Send(s)), RankOf(s))
  {
  }

  lemma {:induction false} MergePopDecreases(s: State)
    requires CanMergePop(s)
    ensures Less(RankOf(MergePop(s)), RankOf(s))
  {
  }

  lemma {:induction false} OthersDecrease(s: State, s': State)
    requires (CanScanPop(s) && s' == ScanPop(s)) || (CanFilterPop(s) && s' == FilterPop(s))
          || (s.filtering.Some? && s' == FilterStep(s)) || (CanMergePop(s) && s' == MergePop(s))
          || (CanSend(s) && s' == Send(s))
    ensures Less(RankOf(s'), RankOf(s))
  {
    PopsDecrease(s);
    if CanMergePop(s) {
      MergePopDecreases(s);
    }
  }

  /** No thread can do anything. */
  ghost predicate Idle(s: State) {
    && !CanScanPop(s) && !CanScanBlock(s) && !CanFilterPop(s) && s.filtering.None?
    && !CanMergePop(s) && !CanMerge(s) && !CanSend(s)
  }

  lemma {:induction false} IdleLines(s: State)
    requires Inv(s) && Idle(s)
    ensures MergeLine(s) == [] && FilterLine(s) == [] && ScanLine(s) == []
    ensures s.returnQueue == [] && Messages(s) == s.sent
  {
    if s.scanning.Some? {
      ScannerIsBusy(s);
    }
    assert s.merging.None?;
    Unit(s.sent);
  }

  lemma {:induction false} EmptyLines(s: State, k: Key)
    requires MergeLine(s) == [] && FilterLine(s) == [] && ScanLine(s) == []
    ensures var v := ViewOf(s, k);
            && v.toMerge == [] && v.mergeCount == 0
            && v.toFilter == [] && v.filterCount == 0
            && v.toScan == [] && v.scanCount == 0
  {
  }

  /** An open buffer is waiting for blocks that some stage still owes. */
  lemma {:induction false} NothingOpen(sn: Snippet, v: View)
    requires CountLedger(v) == |sn.blocks| && BufferOk(sn, v)
    requires v.mergeCount == v.filterCount == v.scanCount == 0
    ensures v.buffer.None? && v.returnedCount == |sn.blocks|
  {
  }

  /** The only way to come to rest is to have sent every answer in full. */
  lemma {:induction false} IdleMeansDone(s: State, k: Key)
    requires Inv(s) && Idle(s) && k in s.submitted
    ensures s.returnQueue == []
    ensures ReturnedCount(s.sent, k) == |s.submitted[k].blocks|
    ensures ReturnedRows(s.sent, k) == Expected(s.submitted[k])
  {
    assert Accounted(s, k);
    IdleLines(s);
    EmptyLines(s, k);
    NothingOpen(s.submitted[k], ViewOf(s, k));
    CompleteAnswer(s.submitted[k], ViewOf(s, k));
  }

  ghost predicate WorkRun(run: seq<State>) {
    run != [] && forall i :: 0 <= i < |run| - 1 ==> Work(run[i], run[i + 1])
  }

  ghost function SomeWork(s: State): (s': State)
    requires !Idle(s)
    ensures Work(s, s') && s'.submitted == s.submitted
  {
    if CanScanPop(s) then ScanPop(s)
    else if CanScanBlock(s) then ScanStep(s)
    else if CanFilterPop(s) then FilterPop(s)
    else if s.filtering.Some? then FilterStep(s)
    else if CanMergePop(s) then MergePop(s)
    else if CanMerge(s) then MergeStep(s)
    else Send(s)
  }

  ghost predicate Delivered(s: State) {
    forall k :: k in s.submitted ==>
      && ReturnedRows(s.sent, k) == Expected(s.submitted[k])
      && ReturnedCount(s.sent, k) == |s.submitted[k].blocks|
  }

  lemma {:induction false} IdleMeansDelivered(s: State)
    requires Inv(s) && Idle(s)
    ensures Delivered(s)
  {
    forall k | k in s.submitted
      ensures ReturnedRows(s.sent, k) == Expected(s.submitted[k])
      ensures ReturnedCount(s.sent, k) == |s.submitted[k].blocks|
    {
      IdleMeansDone(s, k);
    }
  }

  lemma {:induction false} OneStep(s: State) returns (t: State)
    requires Inv(s) && !Idle(s)
    ensures Work(s, t) && Inv(t) && t.submitted == s.submitted
    ensures Less(RankOf(t), RankOf(s)) && RankOf(t).scan >= 0
  {
    t := SomeWork(s);
    WorkKeepsInv(s, t);
    WorkDecreases(s, t);
    if t.scanning.Some? { ScannerIsBusy(t); }
  }

  /** A finished run of the worker's own threads. */
  ghost predicate Drained(run: seq<State>, s: State) {
    && WorkRun(run) && run[0] == s
    && Idle(run[|run| - 1]) && Delivered(run[|run| - 1]) && run[|run| - 1].submitted == s.submitted
  }

  lemma {:induction false} DrainedCons(s: State, t: State, rest: seq<State>)
    requires Work(s, t) && t.submitted == s.submitted && Drained(rest, t)
    ensures Drained([s] + rest, s)
  {
  }

  lemma {:induction false} DrainFrom(s: State, scan: nat, filter: nat, merge: nat, send: nat) returns (run: seq<State>)
    requires Inv(s) && RankOf(s) == Rank(scan, filter, merge, send)
    ensures Drained(run, s)
    decreases scan, filter, merge, send
  {
    if Idle(s) {
      IdleMeansDelivered(s);
      run := [s];
    } else {
      var t := OneStep(s);
      var r := RankOf(t);
      var rest := DrainFrom(t, r.scan, r.filter, r.merge, r.send);
      DrainedCons(s, t, rest);
      run := [s] + rest;
    }
  }

  /** From any reachable state the threads come to rest by themselves, and then every
      snippet's answer has been sent, once and in full. */
  lemma {:induction false} Drain(s: State) returns (run: seq<State>)
    requires Inv(s)
    ensures Drained(run, s)
  {
    if s.scanning.Some? { ScannerIsBusy(s); }
    var r := RankOf(s);
    run := DrainFrom(s, r.scan, r.filter, r.merge, r.send);
  }
}
