/** When merge sends a buffer: only one that is complete, or one that the next row of the
    answer does not fit into. */
module PipelineFlush {
  import opened Rows
  import opened Scan
  import opened Merge
  import opened Pipeline
  import opened PipelineSafety

  /** Message `n` had no room for the row of the answer that comes next. */
  ghost predicate FullAt(ms: seq<Message>, n: nat, sn: Snippet)
    requires n < |ms|
  {
    var r := |ReturnedRows(ms[..n + 1], sn.key)|;
    r < |Expected(sn)| && Bytes(ms[n].rows) + |Expected(sn)[r]| > BUFF_SIZE
  }

  ghost predicate MessagesFull(ms: seq<Message>, sn: Snippet) {
    forall n :: 0 <= n < |ms| && ms[n].key == sn.key && ms[n].current < ms[n].total ==> FullAt(ms, n, sn)
  }

  ghost predicate AllFull(s: State) {
    forall k :: k in s.submitted ==> MessagesFull(Messages(s), s.submitted[k])
  }

  lemma {:induction false} FullSnoc(ms: seq<Message>, m: Message, sn: Snippet)
    requires MessagesFull(ms, sn)
    requires m.key == sn.key && m.current < m.total ==> FullAt(ms + [m], |ms|, sn)
    ensures MessagesFull(ms + [m], sn)
  {
    var all := ms + [m];
    forall n | 0 <= n < |all| && all[n].key == sn.key && all[n].current < all[n].total ensures FullAt(all, n, sn) {
      if n < |ms| {
        assert all[..n + 1] == ms[..n + 1];
        assert FullAt(ms, n, sn);
      }
    }
  }

  /** The row merge is about to add is the next one of the answer. */
  lemma {:induction false} NextInLedger(sn: Snippet, v: View, r: Row, rest: seq<Row>)
    requires v.buffer.Some? && v.toMerge == [r] + rest
    ensures var n := |v.returned| + |v.buffer.value.rows|;
            n < |Ledger(sn, v)| && Ledger(sn, v)[n] == sn.info.project(r)
  {
    var x, y := [sn.info.project(r)], Project(sn.info, rest);
    assert Project(sn.info, v.toMerge) == x + y;
    RowRegrouped(v.returned, v.buffer.value.rows, x, y, Output(sn, v.toFilter) + Output(sn, v.toScan));
  }

  lemma {:induction false} HandIsNext(s: State, k: Key)
    requires s.merging.Some? && s.merging.value.key == k && s.merging.value.rows != []
    ensures var b := s.merging.value;
            ViewOf(s, k).toMerge == [b.rows[0]] + (b.rows[1..] + RowsOf(s.mergeQueue, k))
  {
    var b := s.merging.value;
    HandView(s, k);
    assert b.rows == [b.rows[0]] + b.rows[1..];
    Assoc([b.rows[0]], b.rows[1..], RowsOf(s.mergeQueue, k));
  }

  /** A flush in front of a row. */
  lemma {:induction false} FlushIsFull(s: State, sn: Snippet)
    requires s.merging.Some? && s.merging.value.key == sn.key && s.merging.value.rows != []
    requires sn.key in s.buffers && Ledger(sn, ViewOf(s, sn.key)) == Expected(sn)
    ensures var b, buffer := s.merging.value, s.buffers[sn.key];
            Bytes(buffer.rows) + |sn.info.project(b.rows[0])| > BUFF_SIZE ==>
              FullAt(Messages(s) + [Merge.Pushed(sn.key, buffer)], |Messages(s)|, sn)
  {
    var b, buffer, ms := s.merging.value, s.buffers[sn.key], Messages(s);
    var m := Merge.Pushed(sn.key, buffer);
    HandIsNext(s, sn.key);
    NextInLedger(sn, ViewOf(s, sn.key), b.rows[0], b.rows[1..] + RowsOf(s.mergeQueue, sn.key));
    assert (ms + [m])[..|ms| + 1] == ms + [m];
    ReturnedSnoc(ms, m, sn.key);
  }

  lemma {:induction false} PushKeepsFull(ms: seq<Message>, out: Option<Message>, sn: Snippet)
    requires MessagesFull(ms, sn)
    requires out.Some? && out.value.key == sn.key && out.value.current < out.value.total ==>
               FullAt(ms + [out.value], |ms|, sn)
    ensures MessagesFull(ms + Held(out), sn)
  {
    if out.Some? {
      FullSnoc(ms, out.value, sn);
    } else {
      Unit(ms);
    }
  }

  lemma {:induction false} RowStepFull(s: State, sn: Snippet)
    requires CanMerge(s) && s.merging.value.rows != [] && MessagesFull(Messages(s), sn)
    requires s.merging.value.key == sn.key ==>
               s.merging.value.info == sn.info && Ledger(sn, ViewOf(s, sn.key)) == Expected(sn)
    ensures MessagesFull(Messages(MergeStep(s)), sn)
  {
    var b := s.merging.value;
    var o := AddRow(b.key, s.buffers[b.key], b.info.project(b.rows[0]));
    RemergeMessages(s, b.key, o, Some(b.(rows := b.rows[1..])));
    if b.key == sn.key {
      FlushIsFull(s, sn);
    }
    PushKeepsFull(Messages(s), o.out, sn);
  }

  lemma {:induction false} CloseStepFull(s: State, sn: Snippet)
    requires CanMerge(s) && s.merging.value.rows == [] && MessagesFull(Messages(s), sn)
    ensures MessagesFull(Messages(MergeStep(s)), sn)
  {
    var b := s.merging.value;
    var o := Close(b.key, s.buffers[b.key], b.count);
    RemergeMessages(s, b.key, o, None);
    PushKeepsFull(Messages(s), o.out, sn);
  }

  /** What the merge thread pushes, if anything: full, or complete. */
  lemma {:induction false} MergeStepFull(s: State, k: Key)
    requires Inv(s) && CanMerge(s) && k in s.submitted && MessagesFull(Messages(s), s.submitted[k])
    ensures MessagesFull(Messages(MergeStep(s)), s.submitted[k])
  {
    assert Accounted(s, k);
    assert MergeLine(s)[0] == s.merging.value && BatchTagged(s.submitted, s.merging.value);
    if s.merging.value.rows != [] {
      RowStepFull(s, s.submitted[k]);
    } else {
      CloseStepFull(s, s.submitted[k]);
    }
  }

  lemma {:induction false} SubmitFull(s: State, s': State, sn: Snippet)
    requires Inv(s) && AllFull(s) && Submit(s, s', sn)
    ensures AllFull(s')
  {
    forall k | k in s'.submitted ensures MessagesFull(Messages(s'), s'.submitted[k]) {
      if k == sn.key {
        assert MessagesKnown(s.submitted, Messages(s));
      }
    }
  }

  lemma {:induction false} WorkFull(s: State, s': State)
    requires Inv(s) && AllFull(s) && Work(s, s')
    ensures AllFull(s')
  {
    if CanMerge(s) && s' == MergeStep(s) {
      forall k | k in s'.submitted ensures MessagesFull(Messages(s'), s'.submitted[k]) {
        MergeStepFull(s, k);
      }
    } else {
      OthersSendNothing(s, s');
    }
  }

  lemma {:induction false} RunFull(run: seq<State>)
    requires IsRun(run)
    ensures Inv(run[|run| - 1]) && AllFull(run[|run| - 1])
  {
    RunKeepsInv(run);
    var n := |run| - 1;
    if n > 0 {
      RunFull(run[..n]);
      var s, s' := run[n - 1], run[n];
      assert Next(s, s');
      if sn :| Submit(s, s', sn) {
        SubmitFull(s, s', sn);
      } else {
        WorkFull(s, s');
      }
    }
  }

  /** In every run: a message that does not complete its snippet is full, that is, the next row
      of the answer would not have fitted into it any more. */
  lemma {:induction false} MessagesAreFull(run: seq<State>, k: Key, n: nat)
    requires IsRun(run) && k in run[|run| - 1].submitted
    requires n < |Messages(run[|run| - 1])| && Messages(run[|run| - 1])[n].key == k
    ensures var s := run[|run| - 1];
            var ms, answer := Messages(s), Expected(s.submitted[k]);
            ms[n].current < ms[n].total ==>
              var r := |ReturnedRows(ms[..n + 1], k)|;
              r < |answer| && Bytes(ms[n].rows) + |answer[r]| > BUFF_SIZE
  {
    RunFull(run);
    var s := run[|run| - 1];
    assert MessagesFull(Messages(s), s.submitted[k]);
    assert s.submitted[k].key == k;
    if Messages(s)[n].current < Messages(s)[n].total {
      assert FullAt(Messages(s), n, s.submitted[k]);
    }
  }
}
