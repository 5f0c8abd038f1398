/** The four threads of the worker (main.cc) as one step relation: every step is one
    thread taking one action, so a run is any interleaving of the stages. */
module Pipeline {
  import opened Rows
  import opened Scan
  import opened Merge

  // ---------------------------------------------------------------- states and steps

  datatype Job = Job(sn: Snippet, at: Progress)

  /** Queues, what each thread holds, and the merge table. `submitted` and `sent`
      record what came in and what went out. */
  datatype State = State(
    submitted: map<Key, Snippet>,
    scanQueue: seq<Snippet>,
    scanning: Option<Job>,
    filterQueue: seq<Batch>,
    filtering: Option<Batch>,
    mergeQueue: seq<Batch>,
    merging: Option<Batch>,
    buffers: map<Key, Buffer>,
    returnQueue: seq<Message>,
    sent: seq<Message>)

  const INITIAL := State(map[], [], None, [], None, [], None, map[], [], [])

  /** Projecting never makes a row longer: the arrays in which merge projects a row have the
      length of that row. */
  predicate AllShrink(info: Info, rows: seq<Row>) {
    rows == [] || (|info.project(rows[0])| <= |rows[0]| && AllShrink(info, rows[1..]))
  }

  /** A snippet the worker can answer without overrunning an array: it has a block, every batch
      fits the scan buffer, and no row that reaches merge grows when it is projected. */
  ghost predicate Admissible(sn: Snippet) {
    && sn.blocks != []
    && BatchesFit(Batches(sn, START))
    && AllShrink(sn.info, Reaching(sn, ScannedRows(sn.blocks)))
  }

  ghost predicate Submit(s: State, s': State, sn: Snippet) {
    && Admissible(sn) && sn.key !in s.submitted
    && s' == s.(submitted := s.submitted[sn.key := sn], scanQueue := s.scanQueue + [sn])
  }

  predicate CanScanPop(s: State) { s.scanning.None? && s.scanQueue != [] }

  function ScanPop(s: State): State
    requires CanScanPop(s)
  {
    s.(scanning := Some(Job(s.scanQueue[0], START)), scanQueue := s.scanQueue[1..])
  }

  predicate CanScanBlock(s: State) {
    s.scanning.Some? && s.scanning.value.at.current < |s.scanning.value.sn.blocks|
  }

  /** EnQueueData: a filtered snippet goes to the filter, any other straight to merge. */
  function EnQueue(s: State, filtered: bool, b: Batch): State {
    if filtered then s.(filterQueue := s.filterQueue + [b]) else s.(mergeQueue := s.mergeQueue + [b])
  }

  /** The scanner goes on with `left` and pushes `out`, if any. */
  function Rescan(s: State, left: Option<Job>, filtered: bool, out: Option<Batch>): (r: State)
    ensures r.submitted == s.submitted
  {
    var t := s.(scanning := left);
    if out.Some? then EnQueue(t, filtered, out.value) else t
  }

  function LeftOf(sn: Snippet, step: StepOutcome): Option<Job> {
    if step.Last? then None else Some(Job(sn, step.next))
  }

  function OutOf(step: StepOutcome): Option<Batch> {
    if step.Continue? then None else Some(step.batch)
  }

  function ScanStep(s: State): (r: State)
    requires CanScanBlock(s)
    ensures r.submitted == s.submitted
  {
    var Job(sn, p) := s.scanning.value;
    var step := Step(sn, p);
    Rescan(s, LeftOf(sn, step), sn.filtered, OutOf(step))
  }

  predicate CanFilterPop(s: State) { s.filtering.None? && s.filterQueue != [] }

  function FilterPop(s: State): State
    requires CanFilterPop(s)
  {
    s.(filtering := Some(s.filterQueue[0]), filterQueue := s.filterQueue[1..])
  }

  /** BlockFilter: the block count is passed on untouched. */
  function FilterStep(s: State): State
    requires s.filtering.Some?
  {
    var b := s.filtering.value;
    s.(filtering := None, mergeQueue := s.mergeQueue + [b.(rows := Keep(b.info.where, b.rows))])
  }

  predicate CanMergePop(s: State) { s.merging.None? && s.mergeQueue != [] }

  /** MergeBlock creates the buffer of a key it does not know. */
  function MergePop(s: State): State
    requires CanMergePop(s)
  {
    var b := s.mergeQueue[0];
    s.(merging := Some(b), mergeQueue := s.mergeQueue[1..],
       buffers := if b.key in s.buffers then s.buffers else s.buffers[b.key := NewBuffer(b.total)])
  }

  predicate CanMerge(s: State) { s.merging.Some? && s.merging.value.key in s.buffers }

  /** The merge thread's table and output after one action on `key`: its buffer
      becomes `o.buffer`, `o.out` is pushed, `left` stays in hand. */
  function Remerge(s: State, key: Key, o: Outcome, left: Option<Batch>): (r: State)
    ensures r.submitted == s.submitted
  {
    s.(merging := left, returnQueue := s.returnQueue + Held(o.out),
       buffers := if o.buffer.Some? then s.buffers[key := o.buffer.value] else s.buffers - {key})
  }

  /** One row of the batch being merged or, when none is left, its end. */
  function MergeStep(s: State): (r: State)
    requires CanMerge(s)
    ensures r.submitted == s.submitted
  {
    var b := s.merging.value;
    if b.rows != [] then
      Remerge(s, b.key, AddRow(b.key, s.buffers[b.key], b.info.project(b.rows[0])), Some(b.(rows := b.rows[1..])))
    else
      Remerge(s, b.key, Close(b.key, s.buffers[b.key], b.count), None)
  }

  predicate CanSend(s: State) { s.returnQueue != [] }

  function Send(s: State): State
    requires CanSend(s)
  {
    s.(sent := s.sent + [s.returnQueue[0]], returnQueue := s.returnQueue[1..])
  }

  /** A step of one of the worker's own threads. */
  ghost predicate Work(s: State, s': State) {
    || (CanScanPop(s) && s' == ScanPop(s))
    || (CanScanBlock(s) && s' == ScanStep(s))
    || (CanFilterPop(s) && s' == FilterPop(s))
    || (s.filtering.Some? && s' == FilterStep(s))
    || (CanMergePop(s) && s' == MergePop(s))
    || (CanMerge(s) && s' == MergeStep(s))
    || (CanSend(s) && s' == Send(s))
  }

  ghost predicate Next(s: State, s': State) {
    (exists sn :: Submit(s, s', sn)) || Work(s, s')
  }

  ghost predicate IsRun(run: seq<State>) {
    && run != [] && run[0] == INITIAL
    && forall i :: 0 <= i < |run| - 1 ==> Next(run[i], run[i + 1])
  }

  // ---------------------------------------------------------------- what is where

  /** Everything the filter has still to do, in order; likewise for the others. */
  function FilterLine(s: State): seq<Batch> { Held(s.filtering) + s.filterQueue }

  function MergeLine(s: State): seq<Batch> { Held(s.merging) + s.mergeQueue }

  function Fresh(q: seq<Snippet>): seq<Job> {
    if q == [] then [] else [Job(q[0], START)] + Fresh(q[1..])
  }

  function ScanLine(s: State): seq<Job> { Held(s.scanning) + Fresh(s.scanQueue) }

  /** All messages ever pushed to ReturnQueue. */
  function Messages(s: State): seq<Message> { s.sent + s.returnQueue }

  function RowsOf(bs: seq<Batch>, k: Key): seq<Row> {
    if bs == [] then [] else (if bs[0].key == k then bs[0].rows else []) + RowsOf(bs[1..], k)
  }

  function CountOf(bs: seq<Batch>, k: Key): nat {
    if bs == [] then 0 else (if bs[0].key == k then bs[0].count else 0) + CountOf(bs[1..], k)
  }

  function ReturnedRows(ms: seq<Message>, k: Key): seq<Row> {
    if ms == [] then [] else (if ms[0].key == k then ms[0].rows else []) + ReturnedRows(ms[1..], k)
  }

  function ReturnedCount(ms: seq<Message>, k: Key): nat {
    if ms == [] then 0 else (if ms[0].key == k then ms[0].count else 0) + ReturnedCount(ms[1..], k)
  }

  function Owed(j: Job): seq<Row> {
    if j.at.current <= |j.sn.blocks| then RowsLeft(j.sn, j.at) else []
  }

  function OwedRows(js: seq<Job>, k: Key): seq<Row> {
    if js == [] then [] else (if js[0].sn.key == k then Owed(js[0]) else []) + OwedRows(js[1..], k)
  }

  function OwedCount(js: seq<Job>, k: Key): int {
    if js == [] then 0
    else (if js[0].sn.key == k then CountLeft(js[0].sn, js[0].at) else 0) + OwedCount(js[1..], k)
  }

  /** The scanned rows that reach merge. */
  function Reaching(sn: Snippet, rows: seq<Row>): seq<Row> {
    if sn.filtered then Keep(sn.info.where, rows) else rows
  }

  /** What the whole pipeline makes of scanned rows: WHERE (if any), then SELECT. */
  function Output(sn: Snippet, rows: seq<Row>): seq<Row> {
    Project(sn.info, Reaching(sn, rows))
  }

  /** The answer to a snippet. */
  function Expected(sn: Snippet): seq<Row> {
    Output(sn, ScannedRows(sn.blocks))
  }

  // ---------------------------------------------------------------- sums over concatenations

  lemma {:induction false} RowsOfAppend(a: seq<Batch>, b: seq<Batch>, k: Key)
    ensures RowsOf(a + b, k) == RowsOf(a, k) + RowsOf(b, k)
    ensures CountOf(a + b, k) == CountOf(a, k) + CountOf(b, k)
  {
    if a == [] {
      assert a + b == b;
    } else {
      assert (a + b)[1..] == a[1..] + b;
      RowsOfAppend(a[1..], b, k);
    }
  }

  lemma {:induction false} ReturnedAppend(a: seq<Message>, b: seq<Message>, k: Key)
    ensures ReturnedRows(a + b, k) == ReturnedRows(a, k) + ReturnedRows(b, k)
    ensures ReturnedCount(a + b, k) == ReturnedCount(a, k) + ReturnedCount(b, k)
  {
    if a == [] {
      assert a + b == b;
    } else {
      assert (a + b)[1..] == a[1..] + b;
      ReturnedAppend(a[1..], b, k);
    }
  }

  lemma {:induction false} OwedAppend(a: seq<Job>, b: seq<Job>, k: Key)
    ensures OwedRows(a + b, k) == OwedRows(a, k) + OwedRows(b, k)
    ensures OwedCount(a + b, k) == OwedCount(a, k) + OwedCount(b, k)
  {
    if a == [] {
      assert a + b == b;
    } else {
      assert (a + b)[1..] == a[1..] + b;
      OwedAppend(a[1..], b, k);
    }
  }

  lemma {:induction false} OutputAppend(sn: Snippet, a: seq<Row>, b: seq<Row>)
    ensures Output(sn, a + b) == Output(sn, a) + Output(sn, b)
  {
    if sn.filtered {
      KeepAppend(sn.info.where, a, b);
      ProjectAppend(sn.info, Keep(sn.info.where, a), Keep(sn.info.where, b));
    } else {
      ProjectAppend(sn.info, a, b);
    }
  }

  // ---------------------------------------------------------------- the invariant

  type Submitted = map<Key, Snippet>

  ghost predicate SubmittedOk(sub: Submitted) {
    forall k :: k in sub ==> sub[k].key == k && sub[k].blocks != []
  }

  /** A batch belongs to a submitted snippet, carries its tags, and counts for something. */
  ghost predicate BatchTagged(sub: Submitted, b: Batch) {
    b.key in sub && b.count > 0 && b.info == sub[b.key].info && b.total == |sub[b.key].blocks|
  }

  ghost predicate ToMergeOk(sub: Submitted, bs: seq<Batch>) {
    forall i :: 0 <= i < |bs| ==> BatchTagged(sub, bs[i])
  }

  /** Only filtered snippets reach the filter. */
  ghost predicate ToFilterOk(sub: Submitted, bs: seq<Batch>) {
    forall i :: 0 <= i < |bs| ==> BatchTagged(sub, bs[i]) && sub[bs[i].key].filtered
  }

  ghost predicate JobsOk(sub: Submitted, js: seq<Job>) {
    forall i :: 0 <= i < |js| ==>
      InRange(js[i].sn, js[i].at) && js[i].sn.key in sub && sub[js[i].sn.key] == js[i].sn
  }

  ghost predicate MessagesKnown(sub: Submitted, ms: seq<Message>) {
    forall i :: 0 <= i < |ms| ==> ms[i].key in sub
  }

  ghost predicate BuffersOk(sub: Submitted, s: State) {
    && (forall k :: k in s.buffers ==> k in sub)
    && (s.merging.Some? ==> s.merging.value.key in s.buffers)
  }

  ghost predicate Tagged(s: State) {
    && SubmittedOk(s.submitted)
    && ToMergeOk(s.submitted, MergeLine(s))
    && ToFilterOk(s.submitted, FilterLine(s))
    && JobsOk(s.submitted, ScanLine(s))
    && MessagesKnown(s.submitted, Messages(s))
    && BuffersOk(s.submitted, s)
  }

  /** Where the rows and block counts of one snippet are. */
  datatype View = View(
    returned: seq<Row>, returnedCount: nat,
    buffer: Option<Buffer>,
    toMerge: seq<Row>, mergeCount: nat,
    toFilter: seq<Row>, filterCount: nat,
    toScan: seq<Row>, scanCount: int)

  function ViewOf(s: State, k: Key): View {
    View(ReturnedRows(Messages(s), k), ReturnedCount(Messages(s), k),
         if k in s.buffers then Some(s.buffers[k]) else None,
         RowsOf(MergeLine(s), k), CountOf(MergeLine(s), k),
         RowsOf(FilterLine(s), k), CountOf(FilterLine(s), k),
         OwedRows(ScanLine(s), k), OwedCount(ScanLine(s), k))
  }

  function Buffered(v: View): seq<Row> {
    if v.buffer.Some? then v.buffer.value.rows else []
  }

  /** The answer as it lies in the pipeline: returned, buffered, to be merged, to be
      filtered, to be scanned. */
  function Ledger(sn: Snippet, v: View): seq<Row> {
    v.returned + (Buffered(v) + (Project(sn.info, v.toMerge) + (Output(sn, v.toFilter) + Output(sn, v.toScan))))
  }

  function CountLedger(v: View): int {
    v.returnedCount + (if v.buffer.Some? then v.buffer.value.count else 0)
    + v.mergeCount + v.filterCount + v.scanCount
  }

  /** An open buffer knows how many blocks it has seen, and is not yet complete. */
  ghost predicate BufferOk(sn: Snippet, v: View) {
    match v.buffer
    case Some(b) =>
      && b.total == |sn.blocks|
      && b.current == v.returnedCount + b.count < |sn.blocks|
      && Bytes(b.rows) <= BUFF_SIZE
    case None => v.returnedCount == 0 || v.returnedCount == |sn.blocks|
  }

  /** No row and no block count is lost, made or reordered. */
  ghost predicate Balanced(sn: Snippet, v: View) {
    Ledger(sn, v) == Expected(sn) && CountLedger(v) == |sn.blocks| && BufferOk(sn, v)
  }

  /** Before each message of a snippet some blocks are still outstanding; a message
      says how many have been returned including its own, and its rows fit the buffer. */
  ghost predicate MessageOk(ms: seq<Message>, n: nat, sn: Snippet)
    requires n < |ms|
  {
    && ReturnedCount(ms[..n], sn.key) < |sn.blocks|
    && ms[n].current == ReturnedCount(ms[..n], sn.key) + ms[n].count
    && ms[n].total == |sn.blocks|
    && Bytes(ms[n].rows) <= BUFF_SIZE
  }

  ghost predicate MessagesOk(ms: seq<Message>, sn: Snippet) {
    forall n :: 0 <= n < |ms| && ms[n].key == sn.key ==> MessageOk(ms, n, sn)
  }

  ghost predicate Accounted(s: State, k: Key)
    requires k in s.submitted
  {
    Balanced(s.submitted[k], ViewOf(s, k)) && MessagesOk(Messages(s), s.submitted[k])
  }

  ghost predicate AllAdmitted(sub: Submitted) {
    forall k :: k in sub ==> Admissible(sub[k])
  }

  ghost predicate Inv(s: State) {
    && Tagged(s) && AllAdmitted(s.submitted)
    && forall k :: k in s.submitted ==> Accounted(s, k)
  }
}
