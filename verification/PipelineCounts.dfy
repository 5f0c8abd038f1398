/** Block counts never run ahead of rows: when some blocks of a snippet have been reported, all
    rows of these blocks have been returned. */
module PipelineCounts {
  import opened Rows
  import opened Scan
  import opened Merge
  import opened Pipeline
  import opened PipelineSafety
  import opened PipelineTheorems

  // ---------------------------------------------------------------- rows of the first blocks

  /** The part of the answer that the first `c` blocks make. */
  function Partial(sn: Snippet, c: nat): seq<Row>
    requires c <= |sn.blocks|
  {
    Output(sn, ScannedRows(sn.blocks[..c]))
  }

  /** At `p` the first blocks have been read, and their rows are those before the open batch
      and those in it; whatever comes next is read on from the remembered index number. */
  ghost predicate ReadSoFar(sn: Snippet, p: Progress)
    requires p.count <= p.current <= |sn.blocks|
  {
    && ScannedRows(sn.blocks[..p.current]) == ScannedRows(sn.blocks[..p.current - p.count]) + p.rows
    && forall es: seq<Entry> ::
         Prefix(Entries(sn.blocks[..p.current]) + es, None) == ScannedRows(sn.blocks[..p.current]) + Prefix(es, p.origin)
  }

  lemma {:induction false} EntriesAppend(a: seq<Block>, b: seq<Block>)
    ensures Entries(a + b) == Entries(a) + Entries(b)
  {
    if a == [] {
      assert a + b == b;
    } else {
      assert (a + b)[1..] == a[1..] + b;
      EntriesAppend(a[1..], b);
      Assoc(a[0], Entries(a[1..]), Entries(b));
    }
  }

  lemma {:induction false} EntriesSnoc(blocks: seq<Block>, c: nat)
    requires c < |blocks|
    ensures Entries(blocks[..c + 1]) == Entries(blocks[..c]) + blocks[c]
  {
    assert blocks[..c + 1] == blocks[..c] + [blocks[c]];
    EntriesAppend(blocks[..c], [blocks[c]]);
    assert Entries([blocks[c]]) == blocks[c] + Entries([]);
  }

  /** One more block with a valid index number. */
  lemma {:induction false} OneMoreRead(sn: Snippet, p: Progress, es: seq<Entry>)
    requires InRange(sn, p) && ReadSoFar(sn, p)
    requires ScanBlock(sn.blocks[p.current], p.origin).valid
    ensures var b := ScanBlock(sn.blocks[p.current], p.origin);
            Prefix(Entries(sn.blocks[..p.current + 1]) + es, None)
            == ScannedRows(sn.blocks[..p.current]) + (b.rows + Prefix(es, b.origin))
  {
    var block := sn.blocks[p.current];
    EntriesSnoc(sn.blocks, p.current);
    Assoc(Entries(sn.blocks[..p.current]), block, es);
    ScanBlockIsPrefix(block, p.origin, es);
  }

  lemma {:induction false} MoreRowsRead(sn: Snippet, p: Progress)
    requires InRange(sn, p) && ReadSoFar(sn, p)
    requires ScanBlock(sn.blocks[p.current], p.origin).valid
    ensures ScannedRows(sn.blocks[..p.current + 1])
         == ScannedRows(sn.blocks[..p.current]) + ScanBlock(sn.blocks[p.current], p.origin).rows
  {
    var b := ScanBlock(sn.blocks[p.current], p.origin);
    OneMoreRead(sn, p, []);
    Unit(Entries(sn.blocks[..p.current + 1]));
    Unit(b.rows);
  }

  lemma {:induction false} ReadOn(sn: Snippet, p: Progress)
    requires InRange(sn, p) && ReadSoFar(sn, p) && !Step(sn, p).Last?
    ensures var q := Step(sn, p).next; q.count <= q.current <= |sn.blocks| && ReadSoFar(sn, q)
  {
    var b, q := ScanBlock(sn.blocks[p.current], p.origin), Step(sn, p).next;
    StepConservesCount(sn, p);
    MoreRowsRead(sn, p);
    forall es: seq<Entry>
      ensures Prefix(Entries(sn.blocks[..q.current]) + es, None) == ScannedRows(sn.blocks[..q.current]) + Prefix(es, q.origin)
    {
      OneMoreRead(sn, p, es);
      Assoc(ScannedRows(sn.blocks[..p.current]), b.rows, Prefix(es, b.origin));
    }
    if q.count > 0 {
      Assoc(ScannedRows(sn.blocks[..p.current - p.count]), p.rows, b.rows);
    } else {
      Unit(ScannedRows(sn.blocks[..q.current]));
    }
  }

  lemma {:induction false} NothingRead(sn: Snippet)
    ensures ReadSoFar(sn, START)
  {
    assert sn.blocks[..0] == [] && ScannedRows([]) == [];
    forall es: seq<Entry> ensures Prefix(Entries(sn.blocks[..0]) + es, None) == [] + Prefix(es, None) {
      assert Entries(sn.blocks[..0]) + es == es;
    }
  }

  /** All rows: those of the blocks before the open batch, and those still owed. */
  lemma {:induction false} BeforeAndLeft(sn: Snippet, p: Progress)
    requires InRange(sn, p) && ReadSoFar(sn, p)
    ensures ScannedRows(sn.blocks) == ScannedRows(sn.blocks[..p.current - p.count]) + RowsLeft(sn, p)
  {
    var es := Entries(sn.blocks[p.current..]);
    assert sn.blocks == sn.blocks[..p.current] + sn.blocks[p.current..];
    EntriesAppend(sn.blocks[..p.current], sn.blocks[p.current..]);
    assert Prefix(Entries(sn.blocks[..p.current]) + es, None) == ScannedRows(sn.blocks[..p.current]) + Prefix(es, p.origin);
    Assoc(ScannedRows(sn.blocks[..p.current - p.count]), p.rows, Prefix(es, p.origin));
  }

  // ---------------------------------------------------------------- loads

  /** How many rows of the answer a batch still holds, and how many blocks it counts for. */
  datatype Load = Load(rows: nat, count: nat)

  function RowSum(ls: seq<Load>): nat { if ls == [] then 0 else ls[0].rows + RowSum(ls[1..]) }

  function CountSum(ls: seq<Load>): nat { if ls == [] then 0 else ls[0].count + CountSum(ls[1..]) }

  /** The rows that the last `c` blocks add to the answer. */
  function Late(sn: Snippet, c: nat): int {
    if c <= |sn.blocks| then |Expected(sn)| - |Partial(sn, |sn.blocks| - c)| else 0
  }

  /** From any batch on, no more rows are outstanding than the outstanding blocks account for. */
  ghost predicate Behind(sn: Snippet, ls: seq<Load>) {
    ls == [] || (CountSum(ls) <= |sn.blocks| && RowSum(ls) <= Late(sn, CountSum(ls)) && Behind(sn, ls[1..]))
  }

  function JobLoads(sn: Snippet, bs: seq<Batch>): seq<Load> {
    if bs == [] then [] else [Load(|Reaching(sn, bs[0].rows)|, bs[0].count)] + JobLoads(sn, bs[1..])
  }

  lemma {:induction false} OutputLength(sn: Snippet, rows: seq<Row>)
    ensures |Output(sn, rows)| == |Reaching(sn, rows)|
  {
    ProjectLength(sn.info, Reaching(sn, rows));
  }

  /** The batches a job will still push. */
  lemma {:induction false} JobIsBehind(sn: Snippet, p: Progress)
    requires InRange(sn, p) && ReadSoFar(sn, p)
    ensures var ls := JobLoads(sn, Batches(sn, p));
            && CountSum(ls) == CountLeft(sn, p) && RowSum(ls) == |Output(sn, RowsLeft(sn, p))|
            && Behind(sn, ls)
    decreases |sn.blocks| - p.current
  {
    StepConservesRows(sn, p);
    StepConservesCount(sn, p);
    OwedIsLate(sn, p);
    match Step(sn, p)
    case Continue(q) =>
      ReadOn(sn, p);
      JobIsBehind(sn, q);
    case Emit(b, q) =>
      ReadOn(sn, p);
      JobIsBehind(sn, q);
      OutputAppend(sn, b.rows, RowsLeft(sn, q));
      OutputLength(sn, b.rows);
      JobLoadsCons(sn, b, Batches(sn, q));
    case Last(b) =>
      OutputLength(sn, b.rows);
      JobLoadsCons(sn, b, []);
  }

  lemma {:induction false} JobLoadsCons(sn: Snippet, b: Batch, bs: seq<Batch>)
    ensures var l := Load(|Reaching(sn, b.rows)|, b.count);
            && JobLoads(sn, [b] + bs) == [l] + JobLoads(sn, bs)
            && JobLoads(sn, [b] + bs)[1..] == JobLoads(sn, bs)
            && RowSum(JobLoads(sn, [b] + bs)) == l.rows + RowSum(JobLoads(sn, bs))
            && CountSum(JobLoads(sn, [b] + bs)) == l.count + CountSum(JobLoads(sn, bs))
  {
    assert ([b] + bs)[1..] == bs;
  }

  lemma {:induction false} OwedIsLate(sn: Snippet, p: Progress)
    requires InRange(sn, p) && ReadSoFar(sn, p)
    ensures 0 <= CountLeft(sn, p) <= |sn.blocks| && |Output(sn, RowsLeft(sn, p))| == Late(sn, CountLeft(sn, p))
  {
    BeforeAndLeft(sn, p);
    LateFrom(sn, p.current - p.count, RowsLeft(sn, p));
  }

  lemma {:induction false} LateFrom(sn: Snippet, start: nat, rows: seq<Row>)
    requires start <= |sn.blocks| && ScannedRows(sn.blocks) == ScannedRows(sn.blocks[..start]) + rows
    ensures |Output(sn, rows)| == Late(sn, |sn.blocks| - start)
  {
    OutputAppend(sn, ScannedRows(sn.blocks[..start]), rows);
  }

  // ---------------------------------------------------------------- loads in the pipeline

  function MergeLoads(bs: seq<Batch>, k: Key): seq<Load> {
    if bs == [] then [] else (if bs[0].key == k then [Load(|bs[0].rows|, bs[0].count)] else []) + MergeLoads(bs[1..], k)
  }

  function FilterLoads(bs: seq<Batch>, k: Key): seq<Load> {
    if bs == [] then []
    else (if bs[0].key == k then [Load(|Keep(bs[0].info.where, bs[0].rows)|, bs[0].count)] else []) + FilterLoads(bs[1..], k)
  }

  function LoadsOf(j: Job): seq<Load> {
    if j.at.current <= |j.sn.blocks| then JobLoads(j.sn, Batches(j.sn, j.at)) else []
  }

  function ScanLoads(js: seq<Job>, k: Key): seq<Load> {
    if js == [] then [] else (if js[0].sn.key == k then LoadsOf(js[0]) else []) + ScanLoads(js[1..], k)
  }

  /** What is outstanding for a snippet, in the order in which it will be merged. */
  function Loads(s: State, k: Key): seq<Load> {
    MergeLoads(MergeLine(s), k) + (FilterLoads(FilterLine(s), k) + ScanLoads(ScanLine(s), k))
  }

  lemma {:induction false} MergeLoadsAppend(a: seq<Batch>, b: seq<Batch>, k: Key)
    ensures MergeLoads(a + b, k) == MergeLoads(a, k) + MergeLoads(b, k)
  {
    if a == [] {
      assert a + b == b;
    } else {
      assert (a + b)[1..] == a[1..] + b;
      MergeLoadsAppend(a[1..], b, k);
    }
  }

  lemma {:induction false} FilterLoadsAppend(a: seq<Batch>, b: seq<Batch>, k: Key)
    ensures FilterLoads(a + b, k) == FilterLoads(a, k) + FilterLoads(b, k)
  {
    if a == [] {
      assert a + b == b;
    } else {
      assert (a + b)[1..] == a[1..] + b;
      FilterLoadsAppend(a[1..], b, k);
    }
  }

  lemma {:induction false} ScanLoadsAppend(a: seq<Job>, b: seq<Job>, k: Key)
    ensures ScanLoads(a + b, k) == ScanLoads(a, k) + ScanLoads(b, k)
  {
    if a == [] {
      assert a + b == b;
    } else {
      assert (a + b)[1..] == a[1..] + b;
      ScanLoadsAppend(a[1..], b, k);
      Assoc(if a[0].sn.key == k then LoadsOf(a[0]) else [], ScanLoads(a[1..], k), ScanLoads(b, k));
    }
  }

  lemma {:induction false} NoLoads(bs: seq<Batch>, k: Key)
    requires forall i :: 0 <= i < |bs| ==> bs[i].key != k
    ensures MergeLoads(bs, k) == [] && FilterLoads(bs, k) == []
  {
    if bs != [] {
      NoLoads(bs[1..], k);
    }
  }

  lemma {:induction false} NoScanLoads(js: seq<Job>, k: Key)
    requires forall i :: 0 <= i < |js| ==> js[i].sn.key != k
    ensures ScanLoads(js, k) == []
  {
    if js != [] {
      NoScanLoads(js[1..], k);
    }
  }

  lemma {:induction false} OneMergeLoad(b: Batch, k: Key)
    ensures MergeLoads([b], k) == if b.key == k then [Load(|b.rows|, b.count)] else []
    ensures FilterLoads([b], k) == if b.key == k then [Load(|Keep(b.info.where, b.rows)|, b.count)] else []
  {
  }

  lemma {:induction false} OneScanLoad(j: Job, k: Key)
    ensures ScanLoads([j], k) == if j.sn.key == k then LoadsOf(j) else []
  {
    Unit(LoadsOf(j));
  }

  ghost predicate AllBehind(s: State) {
    forall k :: k in s.submitted ==> Behind(s.submitted[k], Loads(s, k))
  }

  // ---------------------------------------------------------------- the steps keep it

  lemma {:induction false} SubmitBehind(s: State, s': State, sn: Snippet)
    requires Inv(s) && AllBehind(s) && Submit(s, s', sn)
    ensures AllBehind(s')
  {
    forall k | k in s'.submitted ensures Behind(s'.submitted[k], Loads(s', k)) {
      SubmitLoads(s, s', sn, k);
      if k == sn.key {
        NothingRead(sn);
        JobIsBehind(sn, START);
      }
    }
  }

  lemma {:induction false} SubmitLoads(s: State, s': State, sn: Snippet, k: Key)
    requires Tagged(s) && Submit(s, s', sn)
    ensures Loads(s', k) == if k == sn.key then LoadsOf(Job(sn, START)) else Loads(s, k)
  {
    SubmitLine(s, s', sn);
    ScanLoadsAppend(ScanLine(s), [Job(sn, START)], k);
    OneScanLoad(Job(sn, START), k);
    Unit(ScanLoads(ScanLine(s), k));
    Unit(LoadsOf(Job(sn, START)));
    if k == sn.key {
      NoLoads(MergeLine(s), k);
      NoLoads(FilterLine(s), k);
      NoScanLoads(ScanLine(s), k);
    }
  }

  /** A turn of the scanner takes the first load off the job, if it pushes a batch. */
  lemma {:induction false} StepLoads(sn: Snippet, p: Progress)
    requires InRange(sn, p)
    ensures var left, out := LeftOf(sn, Step(sn, p)), OutOf(Step(sn, p));
            LoadsOf(Job(sn, p))
            == (if out.Some? then [Load(|Reaching(sn, out.value.rows)|, out.value.count)] else [])
               + (if left.Some? then LoadsOf(left.value) else [])
  {
    StepConservesCount(sn, p);
    match Step(sn, p)
    case Continue(q) => Unit(LoadsOf(Job(sn, q)));
    case Emit(b, q) => JobLoadsCons(sn, b, Batches(sn, q));
    case Last(b) =>
      JobLoadsCons(sn, b, []);
      Unit([b]);
      Unit([Load(|Reaching(sn, b.rows)|, b.count)]);
  }

  lemma {:induction false} RescanLoads(s: State, left: Option<Job>, k: Key)
    requires s.scanning.Some? && (left.Some? ==> left.value.sn == s.scanning.value.sn)
    ensures var t, j := s.(scanning := left), s.scanning.value;
            && ScanLoads(ScanLine(s), k) == (if j.sn.key == k then LoadsOf(j) else []) + ScanLoads(Fresh(s.scanQueue), k)
            && ScanLoads(ScanLine(t), k)
               == (if j.sn.key == k && left.Some? then LoadsOf(left.value) else []) + ScanLoads(Fresh(s.scanQueue), k)
  {
    ScanLoadsAppend(Held(s.scanning), Fresh(s.scanQueue), k);
    OneScanLoad(s.scanning.value, k);
    ScanLoadsAppend(Held(left), Fresh(s.scanQueue), k);
    if left.Some? {
      OneScanLoad(left.value, k);
    }
  }

  lemma {:induction false} EnQueueLoads(s: State, filtered: bool, b: Batch, k: Key)
    ensures var t := EnQueue(s, filtered, b);
            && ScanLine(t) == ScanLine(s)
            && MergeLoads(MergeLine(t), k) == MergeLoads(MergeLine(s), k) + (if filtered then [] else MergeLoads([b], k))
            && FilterLoads(FilterLine(t), k) == FilterLoads(FilterLine(s), k) + (if filtered then FilterLoads([b], k) else [])
  {
    Unit(MergeLoads(MergeLine(s), k));
    Unit(FilterLoads(FilterLine(s), k));
    if filtered {
      Assoc(Held(s.filtering), s.filterQueue, [b]);
      FilterLoadsAppend(FilterLine(s), [b], k);
    } else {
      Assoc(Held(s.merging), s.mergeQueue, [b]);
      MergeLoadsAppend(MergeLine(s), [b], k);
    }
  }

  /** The first load of the scanner goes to the end of the filter's or of merge's. */
  lemma {:induction false} ShiftLoad(m: seq<Load>, f: seq<Load>, l: seq<Load>, x: seq<Load>, y: seq<Load>, filtered: bool)
    requires !filtered ==> f == []
    ensures m + (f + ((l + x) + y))
         == (m + if filtered then [] else l) + ((f + if filtered then l else []) + (x + y))
  {
    Assoc(l, x, y);
    if filtered {
      Assoc(f, l, x + y);
      Unit(m);
    } else {
      Assoc(m, l, x + y);
      Unit(x + y);
      Unit(l + (x + y));
    }
  }

  /** What a turn of the scanner does to the loads of one job. */
  ghost predicate LoadSplits(j: Job, left: Option<Job>, out: Option<Batch>) {
    && (left.Some? ==> left.value.sn == j.sn)
    && (out.Some? ==> out.value.key == j.sn.key && out.value.info == j.sn.info)
    && LoadsOf(j)
       == (if out.Some? then [Load(|Reaching(j.sn, out.value.rows)|, out.value.count)] else [])
          + (if left.Some? then LoadsOf(left.value) else [])
  }

  lemma {:induction false} RescanOtherLoads(s: State, left: Option<Job>, out: Option<Batch>, k: Key)
    requires s.scanning.Some? && LoadSplits(s.scanning.value, left, out) && s.scanning.value.sn.key != k
    ensures Loads(Rescan(s, left, s.scanning.value.sn.filtered, out), k) == Loads(s, k)
  {
    RescanLoads(s, left, k);
    if out.Some? {
      EnQueueLoads(s.(scanning := left), s.scanning.value.sn.filtered, out.value, k);
      OneMergeLoad(out.value, k);
      Unit(MergeLoads(MergeLine(s), k));
      Unit(FilterLoads(FilterLine(s), k));
    }
  }

  lemma {:induction false} RescanSilentLoads(s: State, left: Option<Job>, k: Key)
    requires s.scanning.Some? && LoadSplits(s.scanning.value, left, None) && s.scanning.value.sn.key == k
    ensures Loads(s.(scanning := left), k) == Loads(s, k)
  {
    RescanLoads(s, left, k);
    Unit(if left.Some? then LoadsOf(left.value) else []);
  }

  lemma {:induction false} RescanOwnLoads(s: State, left: Option<Job>, b: Batch, k: Key)
    requires s.scanning.Some? && LoadSplits(s.scanning.value, left, Some(b)) && s.scanning.value.sn.key == k
    requires !s.scanning.value.sn.filtered ==> FilterLoads(FilterLine(s), k) == []
    ensures Loads(Rescan(s, left, s.scanning.value.sn.filtered, Some(b)), k) == Loads(s, k)
  {
    var sn := s.scanning.value.sn;
    RescanLoads(s, left, k);
    EnQueueLoads(s.(scanning := left), sn.filtered, b, k);
    OneMergeLoad(b, k);
    ShiftLoad(MergeLoads(MergeLine(s), k), FilterLoads(FilterLine(s), k), [Load(|Reaching(sn, b.rows)|, b.count)],
              if left.Some? then LoadsOf(left.value) else [], ScanLoads(Fresh(s.scanQueue), k), sn.filtered);
  }

  lemma {:induction false} ScanStepLoads(s: State, k: Key)
    requires Tagged(s) && CanScanBlock(s) && k in s.submitted
    ensures Loads(ScanStep(s), k) == Loads(s, k)
  {
    var Job(sn, p) := s.scanning.value;
    assert ScanLine(s)[0] == s.scanning.value;
    var left, out := LeftOf(sn, Step(sn, p)), OutOf(Step(sn, p));
    StepLoads(sn, p);
    if sn.key != k {
      RescanOtherLoads(s, left, out, k);
    } else if out.None? {
      RescanSilentLoads(s, left, k);
    } else {
      if !sn.filtered { NoFilterLoads(s, k); }
      RescanOwnLoads(s, left, out.value, k);
    }
  }

  lemma {:induction false} NoFilterLoads(s: State, k: Key)
    requires Tagged(s) && k in s.submitted && !s.submitted[k].filtered
    ensures FilterLoads(FilterLine(s), k) == []
  {
    NoLoads(FilterLine(s), k);
  }

  lemma {:induction false} FilterStepLoads(s: State, k: Key)
    requires s.filtering.Some?
    ensures Loads(FilterStep(s), k) == Loads(s, k)
  {
    var b := s.filtering.value;
    var kept := b.(rows := Keep(b.info.where, b.rows));
    FilterLoadsAppend([b], s.filterQueue, k);
    OneMergeLoad(b, k);
    OneMergeLoad(kept, k);
    EnQueueLoads(s.(filtering := None), false, kept, k);
    Unit(s.filterQueue);
    var m, l, f, y := MergeLoads(MergeLine(s), k), FilterLoads([b], k), FilterLoads(s.filterQueue, k), ScanLoads(ScanLine(s), k);
    Unit(f);
    Assoc(l, f, y);
    Assoc(m, l, f + y);
  }

  lemma {:induction false} Lighter(sn: Snippet, l: Load, r: Load, ls: seq<Load>)
    requires Behind(sn, [l] + ls) && r.rows <= l.rows && r.count == l.count
    ensures Behind(sn, [r] + ls) && Behind(sn, ls)
  {
    assert ([l] + ls)[1..] == ls && ([r] + ls)[1..] == ls;
  }

  /** The merge thread only takes rows off the first load, or the whole of it at the end. */
  lemma {:induction false} MergeStepBehind(s: State, k: Key)
    requires CanMerge(s) && k in s.submitted && Behind(s.submitted[k], Loads(s, k))
    ensures Behind(s.submitted[k], Loads(MergeStep(s), k))
  {
    var b, sn := s.merging.value, s.submitted[k];
    MergeLoadsAppend([b], s.mergeQueue, k);
    OneMergeLoad(b, k);
    var m, rest := MergeLoads(s.mergeQueue, k), FilterLoads(FilterLine(s), k) + ScanLoads(ScanLine(s), k);
    Assoc(MergeLoads([b], k), m, rest);
    if b.rows != [] {
      var left := b.(rows := b.rows[1..]);
      MergeLoadsAppend([left], s.mergeQueue, k);
      OneMergeLoad(left, k);
      Assoc(MergeLoads([left], k), m, rest);
      if b.key == k {
        Lighter(sn, Load(|b.rows|, b.count), Load(|left.rows|, left.count), m + rest);
      }
    } else {
      Unit(s.mergeQueue);
      Unit(m + rest);
      if b.key == k {
        Lighter(sn, Load(|b.rows|, b.count), Load(|b.rows|, b.count), m + rest);
      }
    }
  }

  lemma {:induction false} WorkBehind(s: State, s': State)
    requires Inv(s) && AllBehind(s) && Work(s, s')
    ensures AllBehind(s')
  {
    forall k | k in s'.submitted ensures Behind(s'.submitted[k], Loads(s', k)) {
      if CanScanBlock(s) && s' == ScanStep(s) { ScanStepLoads(s, k); }
      else if s.filtering.Some? && s' == FilterStep(s) { FilterStepLoads(s, k); }
      else if CanMerge(s) && s' == MergeStep(s) { MergeStepBehind(s, k); }
      else { PopsKeepLoads(s, s', k); }
    }
  }

  lemma {:induction false} PopsKeepLoads(s: State, s': State, k: Key)
    requires (CanScanPop(s) && s' == ScanPop(s)) || (CanFilterPop(s) && s' == FilterPop(s))
          || (CanMergePop(s) && s' == MergePop(s)) || (CanSend(s) && s' == Send(s))
    ensures Loads(s', k) == Loads(s, k)
  {
    PopsKeepLines(s);
  }

  // ---------------------------------------------------------------- what it means

  lemma {:induction false} SumsAppend(a: seq<Load>, b: seq<Load>)
    ensures RowSum(a + b) == RowSum(a) + RowSum(b) && CountSum(a + b) == CountSum(a) + CountSum(b)
  {
    if a == [] {
      assert a + b == b;
    } else {
      assert (a + b)[1..] == a[1..] + b;
      SumsAppend(a[1..], b);
    }
  }

  lemma {:induction false} MergeSums(bs: seq<Batch>, k: Key)
    ensures RowSum(MergeLoads(bs, k)) == |RowsOf(bs, k)| && CountSum(MergeLoads(bs, k)) == CountOf(bs, k)
  {
    if bs != [] {
      MergeSums(bs[1..], k);
      SumsAppend(if bs[0].key == k then [Load(|bs[0].rows|, bs[0].count)] else [], MergeLoads(bs[1..], k));
    }
  }

  lemma {:induction false} SumCons(l: Load, ls: seq<Load>)
    ensures RowSum([l] + ls) == l.rows + RowSum(ls) && CountSum([l] + ls) == l.count + CountSum(ls)
  {
    assert ([l] + ls)[1..] == ls;
  }

  lemma {:induction false} FilterSums(sub: Submitted, bs: seq<Batch>, k: Key)
    requires ToFilterOk(sub, bs) && k in sub
    ensures RowSum(FilterLoads(bs, k)) == |Output(sub[k], RowsOf(bs, k))|
    ensures CountSum(FilterLoads(bs, k)) == CountOf(bs, k)
  {
    if bs == [] {
      assert Output(sub[k], []) == [];
    } else {
      var b, ls, rows := bs[0], FilterLoads(bs[1..], k), RowsOf(bs[1..], k);
      FilterSums(sub, bs[1..], k);
      if b.key == k {
        assert BatchTagged(sub, b) && sub[k].filtered;
        SumCons(Load(|Keep(b.info.where, b.rows)|, b.count), ls);
        OutputAppend(sub[k], b.rows, rows);
        OutputLength(sub[k], b.rows);
      } else {
        Unit(ls);
        Unit(rows);
      }
    }
  }

  /** Each job of the scanner is at a place it has really read up to. */
  ghost predicate JobRead(j: Job) {
    InRange(j.sn, j.at) && ReadSoFar(j.sn, j.at)
  }

  ghost predicate AllRead(js: seq<Job>) { forall i :: 0 <= i < |js| ==> JobRead(js[i]) }

  lemma {:induction false} JobSums(j: Job)
    requires JobRead(j)
    ensures RowSum(LoadsOf(j)) == |Output(j.sn, Owed(j))| && CountSum(LoadsOf(j)) == CountLeft(j.sn, j.at)
  {
    JobIsBehind(j.sn, j.at);
  }

  lemma {:induction false} ScanSums(sub: Submitted, js: seq<Job>, k: Key)
    requires JobsOk(sub, js) && AllRead(js) && k in sub
    ensures RowSum(ScanLoads(js, k)) == |Output(sub[k], OwedRows(js, k))|
    ensures CountSum(ScanLoads(js, k)) == OwedCount(js, k)
  {
    if js == [] {
      assert Output(sub[k], []) == [];
    } else {
      var j, ls, rows := js[0], ScanLoads(js[1..], k), OwedRows(js[1..], k);
      ScanSums(sub, js[1..], k);
      if j.sn.key == k {
        assert JobRead(j);
        JobSums(j);
        SumsAppend(LoadsOf(j), ls);
        OutputAppend(sub[k], Owed(j), rows);
      } else {
        Unit(ls);
        Unit(rows);
      }
    }
  }

  ghost predicate Follow(s: State) { AllBehind(s) && AllRead(ScanLine(s)) }

  lemma {:induction false} ReadJobsGrow(js: seq<Job>, j: Job)
    requires AllRead(js) && JobRead(j)
    ensures AllRead(js + [j])
  {
  }

  lemma {:induction false} ReadJobsMove(left: Option<Job>, j: Job, jobs: seq<Job>)
    requires AllRead([j] + jobs) && (left.Some? ==> JobRead(left.value))
    ensures AllRead(Held(left) + jobs)
  {
    forall i | 0 <= i < |jobs| ensures JobRead(jobs[i]) {
      assert jobs[i] == ([j] + jobs)[i + 1];
    }
  }

  lemma {:induction false} ScanStepRead(s: State)
    requires AllRead(ScanLine(s)) && CanScanBlock(s)
    ensures AllRead(ScanLine(ScanStep(s)))
  {
    var Job(sn, p) := s.scanning.value;
    assert ScanLine(s)[0] == s.scanning.value;
    StepConservesCount(sn, p);
    if !Step(sn, p).Last? { ReadOn(sn, p); }
    ReadJobsMove(LeftOf(sn, Step(sn, p)), s.scanning.value, Fresh(s.scanQueue));
  }

  lemma {:induction false} SubmitFollow(s: State, s': State, sn: Snippet)
    requires Inv(s) && Follow(s) && Submit(s, s', sn)
    ensures Follow(s')
  {
    SubmitBehind(s, s', sn);
    SubmitLine(s, s', sn);
    NothingRead(sn);
    ReadJobsGrow(ScanLine(s), Job(sn, START));
  }

  lemma {:induction false} OthersKeepJobs(s: State, s': State)
    requires (CanScanPop(s) && s' == ScanPop(s)) || (CanFilterPop(s) && s' == FilterPop(s))
          || (s.filtering.Some? && s' == FilterStep(s)) || (CanMergePop(s) && s' == MergePop(s))
          || (CanMerge(s) && s' == MergeStep(s)) || (CanSend(s) && s' == Send(s))
    ensures ScanLine(s') == ScanLine(s)
  {
    PopsKeepLines(s);
  }

  lemma {:induction false} WorkFollow(s: State, s': State)
    requires Inv(s) && Follow(s) && Work(s, s')
    ensures Follow(s')
  {
    WorkBehind(s, s');
    if CanScanBlock(s) && s' == ScanStep(s) {
      ScanStepRead(s);
    } else {
      OthersKeepJobs(s, s');
    }
  }

  /** What is outstanding altogether. */
  lemma {:induction false} LoadSums(s: State, k: Key)
    requires Tagged(s) && AllRead(ScanLine(s)) && k in s.submitted
    ensures var sn, v := s.submitted[k], ViewOf(s, k);
            && RowSum(Loads(s, k)) == |v.toMerge| + |Output(sn, v.toFilter)| + |Output(sn, v.toScan)|
            && CountSum(Loads(s, k)) == v.mergeCount + v.filterCount + v.scanCount
  {
    MergeSums(MergeLine(s), k);
    FilterSums(s.submitted, FilterLine(s), k);
    ScanSums(s.submitted, ScanLine(s), k);
    SumsAppend(FilterLoads(FilterLine(s), k), ScanLoads(ScanLine(s), k));
    SumsAppend(MergeLoads(MergeLine(s), k), FilterLoads(FilterLine(s), k) + ScanLoads(ScanLine(s), k));
  }

  /** Blocks counted so far: returned, or in the buffer. */
  function Counted(v: View): nat { v.returnedCount + if v.buffer.Some? then v.buffer.value.count else 0 }

  ghost predicate Merged(sn: Snippet, v: View) {
    Counted(v) <= |sn.blocks| && |Partial(sn, Counted(v))| <= |v.returned| + |Buffered(v)|
  }

  lemma {:induction false} NothingOutstanding(sn: Snippet)
    ensures Late(sn, 0) == 0 && Partial(sn, |sn.blocks|) == Expected(sn)
  {
    assert sn.blocks[..|sn.blocks|] == sn.blocks;
  }

  lemma {:induction false} Settled(sn: Snippet, v: View, ls: seq<Load>)
    requires Balanced(sn, v) && Behind(sn, ls)
    requires RowSum(ls) == |v.toMerge| + |Output(sn, v.toFilter)| + |Output(sn, v.toScan)|
    requires CountSum(ls) == v.mergeCount + v.filterCount + v.scanCount
    ensures Merged(sn, v)
  {
    LedgerLength(sn, v);
    NothingOutstanding(sn);
  }

  /** The rows of the counted blocks are returned or in the buffer. */
  lemma {:induction false} CountedIsMerged(s: State, k: Key)
    requires Inv(s) && Follow(s) && k in s.submitted
    ensures Merged(s.submitted[k], ViewOf(s, k))
  {
    assert Accounted(s, k) && Behind(s.submitted[k], Loads(s, k));
    LoadSums(s, k);
    Settled(s.submitted[k], ViewOf(s, k), Loads(s, k));
  }

  lemma {:induction false} LedgerLength(sn: Snippet, v: View)
    ensures |Ledger(sn, v)|
         == |v.returned| + |Buffered(v)| + |v.toMerge| + |Output(sn, v.toFilter)| + |Output(sn, v.toScan)|
  {
    ProjectLength(sn.info, v.toMerge);
  }

  // messages

  /** All rows of the blocks reported up to and with message `n` are returned with it. */
  ghost predicate FollowsAt(ms: seq<Message>, n: nat, sn: Snippet)
    requires n < |ms|
  {
    var c := ReturnedCount(ms[..n + 1], sn.key);
    c <= |sn.blocks| && |Partial(sn, c)| <= |ReturnedRows(ms[..n + 1], sn.key)|
  }

  ghost predicate MessagesFollow(ms: seq<Message>, sn: Snippet) {
    forall n :: 0 <= n < |ms| && ms[n].key == sn.key ==> FollowsAt(ms, n, sn)
  }

  ghost predicate AllFollow(s: State) {
    forall k :: k in s.submitted ==> MessagesFollow(Messages(s), s.submitted[k])
  }

  lemma {:induction false} FollowSnoc(ms: seq<Message>, out: Option<Message>, sn: Snippet)
    requires MessagesFollow(ms, sn)
    requires out.Some? && out.value.key == sn.key ==> FollowsAt(ms + [out.value], |ms|, sn)
    ensures MessagesFollow(ms + Held(out), sn)
  {
    var all := ms + Held(out);
    forall n | 0 <= n < |all| && all[n].key == sn.key ensures FollowsAt(all, n, sn) {
      if n < |ms| {
        assert all[..n + 1] == ms[..n + 1];
        assert FollowsAt(ms, n, sn);
      }
    }
  }

  /** A flush reports what has been counted so far. */
  lemma {:induction false} FlushFollows(s: State, sn: Snippet)
    requires sn.key in s.buffers && Merged(sn, ViewOf(s, sn.key))
    ensures FollowsAt(Messages(s) + [Merge.Pushed(sn.key, s.buffers[sn.key])], |Messages(s)|, sn)
  {
    var ms, m := Messages(s), Merge.Pushed(sn.key, s.buffers[sn.key]);
    ReturnedSnoc(ms, m, sn.key);
    assert (ms + [m])[..|ms| + 1] == ms + [m];
  }

  lemma {:induction false} RowStepFollows(s: State, sn: Snippet)
    requires CanMerge(s) && s.merging.value.rows != [] && MessagesFollow(Messages(s), sn)
    requires Merged(sn, ViewOf(s, sn.key))
    ensures MessagesFollow(Messages(MergeStep(s)), sn)
  {
    var b := s.merging.value;
    var o := AddRow(b.key, s.buffers[b.key], b.info.project(b.rows[0]));
    RemergeMessages(s, b.key, o, Some(b.(rows := b.rows[1..])));
    if b.key == sn.key {
      FlushFollows(s, sn);
    }
    FollowSnoc(Messages(s), o.out, sn);
  }

  /** A complete buffer reports what has been counted with the batch it ends with. */
  lemma {:induction false} CloseStepFollows(s: State, sn: Snippet)
    requires CanMerge(s) && s.merging.value.rows == [] && MessagesFollow(Messages(s), sn)
    requires Merged(sn, ViewOf(MergeStep(s), sn.key))
    ensures MessagesFollow(Messages(MergeStep(s)), sn)
  {
    var b, ms := s.merging.value, Messages(s);
    var o := Close(b.key, s.buffers[b.key], b.count);
    RemergeMessages(s, b.key, o, None);
    if o.out.Some? {
      assert (ms + [o.out.value])[..|ms| + 1] == ms + [o.out.value];
    }
    FollowSnoc(ms, o.out, sn);
  }

  lemma {:induction false} StillMerged(s: State, k: Key)
    requires Inv(s) && Follow(s) && CanMerge(s) && k in s.submitted
    ensures Merged(s.submitted[k], ViewOf(MergeStep(s), k))
  {
    MergeStepKeepsInv(s);
    WorkFollow(s, MergeStep(s));
    CountedIsMerged(MergeStep(s), k);
  }

  lemma {:induction false} OwnKey(s: State, k: Key)
    requires Tagged(s) && k in s.submitted
    ensures s.submitted[k].key == k
  {
  }

  lemma {:induction false} MergeStepFollows(s: State, k: Key)
    requires Inv(s) && Follow(s) && CanMerge(s) && k in s.submitted && MessagesFollow(Messages(s), s.submitted[k])
    ensures MessagesFollow(Messages(MergeStep(s)), s.submitted[k])
  {
    OwnKey(s, k);
    if s.merging.value.rows != [] {
      CountedIsMerged(s, k);
      RowStepFollows(s, s.submitted[k]);
    } else {
      StillMerged(s, k);
      CloseStepFollows(s, s.submitted[k]);
    }
  }

  lemma {:induction false} SubmitMessages(s: State, s': State, sn: Snippet)
    requires Inv(s) && AllFollow(s) && Submit(s, s', sn)
    ensures AllFollow(s')
  {
    forall k | k in s'.submitted ensures MessagesFollow(Messages(s'), s'.submitted[k]) {
      if k == sn.key {
        assert MessagesKnown(s.submitted, Messages(s));
      }
    }
  }

  lemma {:induction false} WorkMessages(s: State, s': State)
    requires Inv(s) && Follow(s) && AllFollow(s) && Work(s, s')
    ensures AllFollow(s')
  {
    if CanMerge(s) && s' == MergeStep(s) {
      forall k | k in s'.submitted ensures MessagesFollow(Messages(s'), s'.submitted[k]) {
        MergeStepFollows(s, k);
      }
    } else {
      OthersSendNothing(s, s');
    }
  }

  lemma {:induction false} RunFollows(run: seq<State>)
    requires IsRun(run)
    ensures var s := run[|run| - 1]; Inv(s) && Follow(s) && AllFollow(s)
  {
    RunKeepsInv(run);
    var n := |run| - 1;
    if n > 0 {
      RunFollows(run[..n]);
      var s, s' := run[n - 1], run[n];
      assert Next(s, s');
      if sn :| Submit(s, s', sn) {
        SubmitFollow(s, s', sn);
        SubmitMessages(s, s', sn);
      } else {
        WorkFollow(s, s');
        WorkMessages(s, s');
      }
    }
  }

  lemma {:induction false} PrefixOfPrefixes<T>(a: seq<T>, b: seq<T>, c: seq<T>)
    requires a <= c && b <= c && |a| <= |b|
    ensures a <= b
  {
    assert b == c[..|b|] && a == c[..|a|] == c[..|b|][..|a|];
  }

  lemma {:induction false} PrefixGrows(es: seq<Entry>, more: seq<Entry>, o: Option<seq<Byte>>)
    ensures Prefix(es, o) <= Prefix(es + more, o)
    decreases |es|
  {
    if es != [] {
      assert (es + more)[1..] == es[1..] + more;
      PrefixGrows(es[1..], more, Some(es[0].indexNum));
    }
  }

  /** What the first blocks make is the beginning of the answer. */
  lemma {:induction false} PartialIsPrefix(sn: Snippet, c: nat)
    requires c <= |sn.blocks|
    ensures Partial(sn, c) <= Expected(sn)
  {
    var a, b := sn.blocks[..c], sn.blocks[c..];
    assert sn.blocks == a + b;
    EntriesAppend(a, b);
    PrefixGrows(Entries(a), Entries(b), None);
    var all, some := ScannedRows(sn.blocks), ScannedRows(a);
    assert all == some + all[|some|..];
    OutputAppend(sn, some, all[|some|..]);
  }

  lemma {:induction false} ReturnedBefore(ms: seq<Message>, n: nat, k: Key)
    requires n <= |ms|
    ensures ReturnedRows(ms[..n], k) <= ReturnedRows(ms, k)
  {
    ReturnedAppend(ms[..n], ms[n..], k);
    assert ms == ms[..n] + ms[n..];
  }

  lemma {:induction false} FollowsMeansPrefix(ms: seq<Message>, n: nat, sn: Snippet)
    requires n < |ms| && FollowsAt(ms, n, sn) && ReturnedRows(ms, sn.key) <= Expected(sn)
    ensures var c := ReturnedCount(ms[..n + 1], sn.key);
            c <= |sn.blocks| && Partial(sn, c) <= ReturnedRows(ms[..n + 1], sn.key)
  {
    PartialIsPrefix(sn, ReturnedCount(ms[..n + 1], sn.key));
    ReturnedBefore(ms, n + 1, sn.key);
    PrefixOfPrefixes(Partial(sn, ReturnedCount(ms[..n + 1], sn.key)), ReturnedRows(ms[..n + 1], sn.key), Expected(sn));
  }

  /** In every run, at every message of a snippet: all rows of as many blocks as have been
      reported are among the rows returned, mid-block flushes or not. */
  lemma {:induction false} CountsFollowRows(run: seq<State>, k: Key, n: nat)
    requires IsRun(run) && k in run[|run| - 1].submitted
    requires n < |Messages(run[|run| - 1])| && Messages(run[|run| - 1])[n].key == k
    ensures var s := run[|run| - 1];
            var sn, ms := s.submitted[k], Messages(s);
            var c := ReturnedCount(ms[..n + 1], k);
            c <= |sn.blocks| && Partial(sn, c) <= ReturnedRows(ms[..n + 1], k)
  {
    RunFollows(run);
    EndToEnd(run, k);
    var s := run[|run| - 1];
    OwnKey(s, k);
    assert MessagesFollow(Messages(s), s.submitted[k]);
    FollowsMeansPrefix(Messages(s), n, s.submitted[k]);
  }
}
