/** The scan stage (scan.cc): reading the blocks of a snippet, cutting off at the
    first foreign index number, and batching blocks for the next stage. */
module Scan {
  import opened Rows

  datatype Key = Key(queryId: int, workId: int)

  /** The parts of FilterInfo the pipeline depends on: the WHERE clause and the SELECT list. */
  datatype Info = Info(where: Row -> bool, project: Row -> Row)

  /** One (key, value) pair of a data block: the index number in front of the user
      key and the row bytes that are appended to the scan buffer. */
  datatype Entry = Entry(indexNum: seq<Byte>, row: Row)

  type Block = seq<Entry>

  /** A full-scan snippet; `filtered` tells Full_Scan_Filter from Full_Scan. */
  datatype Snippet = Snippet(key: Key, blocks: seq<Block>, filtered: bool, info: Info)

  /** What travels through FilterQueue and MergeQueue. */
  datatype Batch = Batch(key: Key, total: nat, info: Info, rows: seq<Row>, count: nat)

  // ---------------------------------------------------------------- what a scan means

  function Entries(blocks: seq<Block>): seq<Entry> {
    if blocks == [] then [] else blocks[0] + Entries(blocks[1..])
  }

  /** The rows read before the index number changes from `origin`; an absent
      origin is taken from the first entry. */
  function Prefix(es: seq<Entry>, origin: Option<seq<Byte>>): seq<Row> {
    if es == [] then []
    else if origin.Some? && es[0].indexNum != origin.value then []
    else [es[0].row] + Prefix(es[1..], Some(es[0].indexNum))
  }

  function ScannedRows(blocks: seq<Block>): seq<Row> {
    Prefix(Entries(blocks), None)
  }

  function RowsOfEntries(es: seq<Entry>): seq<Row> {
    if es == [] then [] else [es[0].row] + RowsOfEntries(es[1..])
  }

  /** `n` entries share the first index number and entry `n`, if any, does not. */
  ghost predicate IsCut(es: seq<Entry>, n: nat) {
    n <= |es| && (es != [] ==> n > 0) &&
    (forall i :: 0 <= i < n ==> es[i].indexNum == es[0].indexNum) &&
    (n < |es| ==> es[n].indexNum != es[0].indexNum)
  }

  /** A scan returns the longest prefix of all entries that shares the first index number. */
  lemma {:induction false} ScannedIsLongestPrefix(blocks: seq<Block>) returns (n: nat)
    ensures IsCut(Entries(blocks), n)
    ensures ScannedRows(blocks) == RowsOfEntries(Entries(blocks)[..n])
  {
    var es := Entries(blocks);
    if es == [] {
      n := 0;
      assert RowsOfEntries(es[..0]) == [];
    } else {
      var o := es[0].indexNum;
      n := PrefixCut(es, o);
      assert Prefix(es, None) == Prefix(es, Some(o));
    }
  }

  lemma {:induction false} PrefixCut(es: seq<Entry>, o: seq<Byte>) returns (n: nat)
    ensures n <= |es|
    ensures forall i :: 0 <= i < n ==> es[i].indexNum == o
    ensures n < |es| ==> es[n].indexNum != o
    ensures Prefix(es, Some(o)) == RowsOfEntries(es[..n])
  {
    if es == [] || es[0].indexNum != o {
      n := 0;
    } else {
      var m := PrefixCut(es[1..], o);
      n := m + 1;
      assert es[..n] == [es[0]] + es[1..][..m];
      forall i | 0 <= i < n ensures es[i].indexNum == o {
        if i > 0 { assert es[i] == es[1..][i - 1]; }
      }
    }
  }

  // ---------------------------------------------------------------- one block

  /** BlockScan's effect on the open batch: the rows it appends, the remembered
      index number, and whether every entry matched it. */
  datatype BlockOutcome = BlockOutcome(rows: seq<Row>, origin: Option<seq<Byte>>, valid: bool)

  function ScanBlock(block: Block, origin: Option<seq<Byte>>): BlockOutcome {
    if block == [] then BlockOutcome([], origin, true)
    else
      var o := if origin.None? then block[0].indexNum else origin.value;
      if block[0].indexNum != o then BlockOutcome([], Some(o), false)
      else
        var rest := ScanBlock(block[1..], Some(o));
        BlockOutcome([block[0].row] + rest.rows, rest.origin, rest.valid)
  }

  /** The outcome of a block of which the rows `done` have been appended already. */
  function After(done: seq<Row>, b: BlockOutcome): BlockOutcome {
    BlockOutcome(done + b.rows, b.origin, b.valid)
  }

  lemma {:induction false} AfterCons(done: seq<Row>, block: Block, origin: Option<seq<Byte>>)
    requires block != [] && (origin.Some? ==> origin.value == block[0].indexNum)
    ensures After(done, ScanBlock(block, origin))
         == After(done + [block[0].row], ScanBlock(block[1..], Some(block[0].indexNum)))
  {
  }

  lemma {:induction false} ScanBlockIsPrefix(block: Block, origin: Option<seq<Byte>>, rest: seq<Entry>)
    ensures var b := ScanBlock(block, origin);
            Prefix(block + rest, origin) == b.rows + (if b.valid then Prefix(rest, b.origin) else [])
  {
    if block == [] {
      assert block + rest == rest;
    } else {
      assert (block + rest)[1..] == block[1..] + rest;
      var o := if origin.None? then block[0].indexNum else origin.value;
      if block[0].indexNum == o {
        ScanBlockIsPrefix(block[1..], Some(o), rest);
      }
    }
  }

  // ---------------------------------------------------------------- the batching loop

  /** The counters of `Scanning` between two blocks: blocks counted so far, the open
      batch, the remembered index number. `current` jumps to the total on a cut-off. */
  datatype Progress = Progress(current: nat, rows: seq<Row>, count: nat, origin: Option<seq<Byte>>)

  const START := Progress(0, [], 0, None)

  ghost predicate InRange(sn: Snippet, p: Progress) {
    p.current < |sn.blocks| && p.count == p.current % NUM_OF_BLOCKS
  }

  datatype StepOutcome = Continue(next: Progress) | Emit(batch: Batch, next: Progress) | Last(batch: Batch)

  /** The end of a turn: push the open batch when all blocks are counted or the batch is full. */
  function EndTurn(sn: Snippet, current: nat, rows: seq<Row>, count: nat, origin: Option<seq<Byte>>): StepOutcome {
    var batch := Batch(sn.key, |sn.blocks|, sn.info, rows, count);
    if current == |sn.blocks| then Last(batch)
    else if current % NUM_OF_BLOCKS == 0 then Emit(batch, Progress(current, [], 0, origin))
    else Continue(Progress(current, rows, count, origin))
  }

  /** One turn of the loop over the block list: read a block and, on a foreign index
      number, count all the blocks behind it as done. */
  function Step(sn: Snippet, p: Progress): StepOutcome
    requires p.current < |sn.blocks|
  {
    var b := ScanBlock(sn.blocks[p.current], p.origin);
    var current := if b.valid then p.current + 1 else |sn.blocks|;
    var count := p.count + 1 + (if b.valid then 0 else |sn.blocks| - (p.current + 1));
    EndTurn(sn, current, p.rows + b.rows, count, b.origin)
  }

  /** The rows a job still owes: those of the open batch and those of the unread blocks. */
  function RowsLeft(sn: Snippet, p: Progress): seq<Row>
    requires p.current <= |sn.blocks|
  {
    p.rows + Prefix(Entries(sn.blocks[p.current..]), p.origin)
  }

  function CountLeft(sn: Snippet, p: Progress): int {
    p.count + |sn.blocks| - p.current
  }

  /** Each turn moves rows, it never makes, drops or reorders any. */
  lemma {:induction false} StepConservesRows(sn: Snippet, p: Progress)
    requires p.current < |sn.blocks|
    ensures match Step(sn, p)
            case Continue(q) => q.current < |sn.blocks| && RowsLeft(sn, p) == RowsLeft(sn, q)
            case Emit(b, q) => q.current < |sn.blocks| && RowsLeft(sn, p) == b.rows + RowsLeft(sn, q)
            case Last(b) => RowsLeft(sn, p) == b.rows
  {
    var rest := sn.blocks[p.current..];
    var b := ScanBlock(rest[0], p.origin);
    var tail := Entries(sn.blocks[p.current + 1..]);
    assert RowsLeft(sn, p) == p.rows + b.rows + (if b.valid then Prefix(tail, b.origin) else []) by {
      assert rest[1..] == sn.blocks[p.current + 1..];
      ScanBlockIsPrefix(rest[0], p.origin, tail);
      assert p.rows + (b.rows + Prefix(tail, b.origin)) == (p.rows + b.rows) + Prefix(tail, b.origin);
    }
    if p.current + 1 == |sn.blocks| {
      assert tail == [] && Prefix(tail, b.origin) == [];
    }
  }

  /** Each turn moves block counts, it never makes or drops any, and a batch is
      closed after at most NUM_OF_BLOCKS blocks. */
  lemma {:induction false} StepConservesCount(sn: Snippet, p: Progress)
    requires InRange(sn, p)
    ensures match Step(sn, p)
            case Continue(q) => InRange(sn, q) && q.current == p.current + 1 && CountLeft(sn, p) == CountLeft(sn, q)
            case Emit(b, q) =>
              && InRange(sn, q) && q.current == p.current + 1
              && 0 < b.count == p.count + 1 <= NUM_OF_BLOCKS
              && CountLeft(sn, p) == b.count + CountLeft(sn, q)
            case Last(b) => p.count + 1 <= NUM_OF_BLOCKS && 0 < b.count == CountLeft(sn, p)
  {
  }

  /** The batches `Scanning` enqueues for a snippet from a given point on. */
  function Batches(sn: Snippet, p: Progress): seq<Batch>
    requires p.current <= |sn.blocks|
    decreases |sn.blocks| - p.current
  {
    if p.current == |sn.blocks| then []
    else match Step(sn, p)
      case Continue(q) => Batches(sn, q)
      case Emit(b, q) => [b] + Batches(sn, q)
      case Last(b) => [b]
  }

  function AllRows(bs: seq<Batch>): seq<Row> {
    if bs == [] then [] else bs[0].rows + AllRows(bs[1..])
  }

  function AllCounts(bs: seq<Batch>): nat {
    if bs == [] then 0 else bs[0].count + AllCounts(bs[1..])
  }

  lemma {:induction false} BatchesConserveRows(sn: Snippet, p: Progress)
    requires p.current < |sn.blocks|
    ensures AllRows(Batches(sn, p)) == RowsLeft(sn, p)
    decreases |sn.blocks| - p.current
  {
    StepConservesRows(sn, p);
    match Step(sn, p)
    case Continue(q) => BatchesConserveRows(sn, q);
    case Emit(b, q) =>
      BatchesConserveRows(sn, q);
      assert ([b] + Batches(sn, q))[1..] == Batches(sn, q);
    case Last(b) =>
      assert AllRows([b]) == b.rows + AllRows([]);
  }

  lemma {:induction false} BatchesConserveCounts(sn: Snippet, p: Progress)
    requires InRange(sn, p)
    ensures AllCounts(Batches(sn, p)) == CountLeft(sn, p)
    ensures forall b :: b in Batches(sn, p) ==> b.key == sn.key && b.total == |sn.blocks| && b.count > 0
    decreases |sn.blocks| - p.current
  {
    StepConservesCount(sn, p);
    match Step(sn, p)
    case Continue(q) => BatchesConserveCounts(sn, q);
    case Emit(b, q) =>
      BatchesConserveCounts(sn, q);
      assert ([b] + Batches(sn, q))[1..] == Batches(sn, q);
    case Last(b) =>
      assert AllCounts([b]) == b.count + AllCounts([]);
  }

  /** Every snippet with a block: the batches carry its scanned rows in order, and
      their block counts are positive and add up to the total, cut off or not. */
  lemma {:induction false} ScanBatching(sn: Snippet)
    requires sn.blocks != []
    ensures AllRows(Batches(sn, START)) == ScannedRows(sn.blocks)
    ensures AllCounts(Batches(sn, START)) == |sn.blocks|
    ensures forall b :: b in Batches(sn, START) ==> b.key == sn.key && b.total == |sn.blocks| && b.count > 0
  {
    BatchesConserveRows(sn, START);
    BatchesConserveCounts(sn, START);
    assert sn.blocks[0..] == sn.blocks;
  }

  // ---------------------------------------------------------------- batch sizes

  /** How many blocks were actually read into each batch. */
  function BlocksRead(sn: Snippet, p: Progress): seq<nat>
    requires p.current <= |sn.blocks|
    decreases |sn.blocks| - p.current
  {
    if p.current == |sn.blocks| then []
    else match Step(sn, p)
      case Continue(q) => BlocksRead(sn, q)
      case Emit(b, q) => [p.count + 1] + BlocksRead(sn, q)
      case Last(b) => [p.count + 1]
  }

  function Bytes(rows: seq<Row>): nat {
    |Concat(rows)|
  }

  ghost predicate SmallBlocks(blocks: seq<Block>, limit: nat) {
    forall i :: 0 <= i < |blocks| ==> Bytes(RowsOfEntries(blocks[i])) <= limit
  }

  lemma {:induction false} ScanBlockBytes(block: Block, origin: Option<seq<Byte>>)
    ensures Bytes(ScanBlock(block, origin).rows) <= Bytes(RowsOfEntries(block))
  {
    if block != [] {
      var o := if origin.None? then block[0].indexNum else origin.value;
      assert RowsOfEntries(block)[1..] == RowsOfEntries(block[1..]);
      if block[0].indexNum == o {
        ScanBlockBytes(block[1..], Some(o));
        var rest := ScanBlock(block[1..], Some(o));
        assert ([block[0].row] + rest.rows)[1..] == rest.rows;
      }
    }
  }

  lemma {:induction false} OneMoreBlock(rows: seq<Row>, count: nat, block: Block, origin: Option<seq<Byte>>, limit: nat)
    requires Bytes(rows) <= limit * count && Bytes(RowsOfEntries(block)) <= limit
    ensures Bytes(rows + ScanBlock(block, origin).rows) <= limit * (count + 1)
  {
    ScanBlockBytes(block, origin);
    ConcatAppend(rows, ScanBlock(block, origin).rows);
    assert limit * (count + 1) == limit * count + limit;
  }

  lemma {:induction false} StepBytes(sn: Snippet, p: Progress, limit: nat)
    requires InRange(sn, p) && SmallBlocks(sn.blocks, limit)
    requires Bytes(p.rows) <= limit * p.count
    ensures match Step(sn, p)
            case Continue(q) => Bytes(q.rows) <= limit * q.count
            case Emit(b, q) => Bytes(q.rows) <= limit * q.count && Bytes(b.rows) <= limit * (p.count + 1)
            case Last(b) => Bytes(b.rows) <= limit * (p.count + 1)
  {
    OneMoreBlock(p.rows, p.count, sn.blocks[p.current], p.origin, limit);
  }

  lemma {:induction false} BatchesAreBounded(sn: Snippet, p: Progress, limit: nat)
    requires InRange(sn, p) && SmallBlocks(sn.blocks, limit)
    requires Bytes(p.rows) <= limit * p.count
    ensures |BlocksRead(sn, p)| == |Batches(sn, p)|
    ensures forall i :: 0 <= i < |Batches(sn, p)| ==>
              && 1 <= BlocksRead(sn, p)[i] <= NUM_OF_BLOCKS
              && Bytes(Batches(sn, p)[i].rows) <= limit * BlocksRead(sn, p)[i]
    decreases |sn.blocks| - p.current
  {
    StepConservesCount(sn, p);
    StepBytes(sn, p, limit);
    match Step(sn, p)
    case Continue(q) => BatchesAreBounded(sn, q, limit);
    case Emit(b, q) => BatchesAreBounded(sn, q, limit);
    case Last(b) =>
  }

  /** Every batch comes from 1 to 15 blocks, and blocks of at most 5000 bytes
      never overflow the scan buffer. */
  lemma {:induction false} BatchesFitTheBuffer(sn: Snippet)
    requires sn.blocks != [] && SmallBlocks(sn.blocks, 5000)
    ensures |BlocksRead(sn, START)| == |Batches(sn, START)|
    ensures forall i :: 0 <= i < |Batches(sn, START)| ==>
              1 <= BlocksRead(sn, START)[i] <= NUM_OF_BLOCKS &&
              Bytes(Batches(sn, START)[i].rows) <= BUFF_SIZE
  {
    BatchesAreBounded(sn, START, 5000);
  }

  // ---------------------------------------------------------------- room in the scan buffer

  /** Every batch fits the buffer it is collected in. */
  predicate BatchesFit(bs: seq<Batch>) {
    bs == [] || (Bytes(bs[0].rows) <= BUFF_SIZE && BatchesFit(bs[1..]))
  }

  ghost predicate PagesFit(bs: seq<Batch>) {
    forall i :: 0 <= i < |bs| ==> Bytes(bs[i].rows) <= BUFF_SIZE
  }

  lemma {:induction false} FitOneByOne(bs: seq<Batch>)
    ensures BatchesFit(bs) <==> PagesFit(bs)
  {
    if bs != [] {
      FitOneByOne(bs[1..]);
      assert forall i :: 1 <= i < |bs| ==> bs[i] == bs[1..][i - 1];
    }
  }

  /** Blocks of at most 5000 bytes always do. */
  lemma {:induction false} SmallBlocksFit(sn: Snippet)
    requires sn.blocks != [] && SmallBlocks(sn.blocks, 5000)
    ensures BatchesFit(Batches(sn, START))
  {
    BatchesFitTheBuffer(sn);
    FitOneByOne(Batches(sn, START));
  }

  lemma {:induction false} BytesOfPrefix(a: seq<Row>, b: seq<Row>)
    requires a <= b
    ensures Bytes(a) <= Bytes(b)
  {
    assert b == a + b[|a|..];
    ConcatAppend(a, b[|a|..]);
  }

  /** The rows of the next batch so far, with those of the block about to be read. */
  function Grown(sn: Snippet, p: Progress): seq<Row>
    requires p.current < |sn.blocks|
  {
    p.rows + ScanBlock(sn.blocks[p.current], p.origin).rows
  }

  lemma {:induction false} GrownIsPrefix(sn: Snippet, p: Progress)
    requires InRange(sn, p)
    ensures Batches(sn, p) != [] && Grown(sn, p) <= Batches(sn, p)[0].rows
    decreases |sn.blocks| - p.current
  {
    StepConservesCount(sn, p);
    match Step(sn, p)
    case Continue(q) =>
      assert q.rows == Grown(sn, p);
      GrownIsPrefix(sn, q);
    case Emit(b, q) => assert b.rows == Grown(sn, p);
    case Last(b) => assert b.rows == Grown(sn, p);
  }

  /** When all batches fit, so does the open one at any time. */
  lemma {:induction false} OpenBatchFits(sn: Snippet, p: Progress)
    requires InRange(sn, p) && BatchesFit(Batches(sn, p))
    ensures Bytes(p.rows) <= Bytes(Grown(sn, p)) <= BUFF_SIZE
  {
    GrownIsPrefix(sn, p);
    BytesOfPrefix(p.rows, Grown(sn, p));
    BytesOfPrefix(Grown(sn, p), Batches(sn, p)[0].rows);
  }

  /** What a turn leaves to be read still fits. */
  lemma {:induction false} LaterBatchesFit(sn: Snippet, p: Progress)
    requires InRange(sn, p) && BatchesFit(Batches(sn, p))
    ensures match Step(sn, p)
            case Continue(q) => BatchesFit(Batches(sn, q))
            case Emit(b, q) => Bytes(b.rows) <= BUFF_SIZE && BatchesFit(Batches(sn, q))
            case Last(b) => Bytes(b.rows) <= BUFF_SIZE
  {
    StepConservesCount(sn, p);
    if Step(sn, p).Emit? {
      assert Batches(sn, p)[1..] == Batches(sn, Step(sn, p).next);
    }
  }

  // ---------------------------------------------------------------- full batches

  /** Every batch but the last comes from exactly fifteen blocks: nothing is pushed early. */
  lemma {:induction false} BatchesAreFull(sn: Snippet, p: Progress, i: nat)
    requires InRange(sn, p) && i + 1 < |Batches(sn, p)|
    ensures Batches(sn, p)[i].count == NUM_OF_BLOCKS
    decreases |sn.blocks| - p.current
  {
    StepConservesCount(sn, p);
    match Step(sn, p)
    case Continue(q) => BatchesAreFull(sn, q, i);
    case Emit(b, q) =>
      if i > 0 {
        BatchesAreFull(sn, q, i - 1);
      } else {
        FullWhenPushed(sn, p);
      }
    case Last(b) =>
  }

  lemma {:induction false} FullWhenPushed(sn: Snippet, p: Progress)
    requires InRange(sn, p) && Step(sn, p).Emit?
    ensures Step(sn, p).batch.count == NUM_OF_BLOCKS
  {
  }
}
