/** The blocking queue between two stages (internal_queue.h): a queue under a mutex with a
    condition variable, signalled only when a push finds the queue empty, and only after the
    mutex has been released. Any number of producers and looping consumers. */
module WorkQueue {
  import opened Rows

  /** Where a producer is inside push_work. */
  datatype Producer<T> =
    | Outside
    | Entering(item: T)                     // about to lock
    | Locked(item: T)
    | Tested(item: T, wasEmpty: bool)       // was_empty read
    | Pushed(wasEmpty: bool)                // item in the queue, mutex still held
    | Unlocked(wasEmpty: bool)              // mutex released, notify_one still to come if wasEmpty

  /** Where a consumer is inside wait_and_pop; it calls it again as soon as it returns. */
  datatype Consumer<T> =
    | Trying                                // about to lock, or woken and about to lock again
    | Holding                               // mutex held, about to test for work
    | Asleep                                // in wait()
    | Popped(item: T)                       // item taken, mutex still held

  datatype Id = P(p: nat) | C(c: nat)

  datatype State<T> = State(
    work: seq<T>, mutex: Option<Id>,
    producers: map<nat, Producer<T>>, consumers: map<nat, Consumer<T>>)

  ghost predicate Initial<T>(s: State<T>) {
    && s.work == [] && s.mutex.None? && s.consumers != map[]
    && (forall p :: p in s.producers ==> s.producers[p] == Outside)
    && (forall c :: c in s.consumers ==> s.consumers[c] == Trying)
  }

  // ---------------------------------------------------------------- steps

  function SetP<T>(s: State<T>, p: nat, to: Producer<T>): State<T> { s.(producers := s.producers[p := to]) }

  function SetC<T>(s: State<T>, c: nat, to: Consumer<T>): State<T> { s.(consumers := s.consumers[c := to]) }

  datatype Action<T> =
    | Begin(p: nat, item: T) | Lock(p: nat) | Test(p: nat) | Push(p: nat) | Unlock(p: nat)
    | Notify(p: nat, wakes: Option<nat>) | Skip(p: nat)
    | Acquire(c: nat) | Wait(c: nat) | Pop(c: nat) | Return(c: nat) | Spurious(c: nat)

  ghost predicate Enabled<T(!new)>(s: State<T>, a: Action<T>) {
    match a
    case Begin(p, _) => p in s.producers && s.producers[p].Outside?
    case Lock(p) => p in s.producers && s.producers[p].Entering? && s.mutex.None?
    case Test(p) => p in s.producers && s.producers[p].Locked?
    case Push(p) => p in s.producers && s.producers[p].Tested?
    case Unlock(p) => p in s.producers && s.producers[p].Pushed?
    case Notify(p, w) =>
      // notify_one wakes one sleeper if there is any
      && p in s.producers && s.producers[p] == Unlocked(true)
      && (w.Some? ==> w.value in s.consumers && s.consumers[w.value].Asleep?)
      && (w.None? ==> forall c :: c in s.consumers ==> !s.consumers[c].Asleep?)
    case Skip(p) => p in s.producers && s.producers[p] == Unlocked(false)
    case Acquire(c) => c in s.consumers && s.consumers[c].Trying? && s.mutex.None?
    case Wait(c) => c in s.consumers && s.consumers[c].Holding? && s.work == []
    case Pop(c) => c in s.consumers && s.consumers[c].Holding? && s.work != []
    case Return(c) => c in s.consumers && s.consumers[c].Popped?
    case Spurious(c) => c in s.consumers && s.consumers[c].Asleep?
  }

  ghost function Do<T(!new)>(s: State<T>, a: Action<T>): State<T>
    requires Enabled(s, a)
  {
    match a
    case Begin(p, item) => SetP(s, p, Entering(item))
    case Lock(p) => SetP(s, p, Locked(s.producers[p].item)).(mutex := Some(P(p)))
    case Test(p) => SetP(s, p, Tested(s.producers[p].item, s.work == []))
    case Push(p) =>
      SetP(s, p, Pushed(s.producers[p].wasEmpty)).(work := s.work + [s.producers[p].item])
    case Unlock(p) => SetP(s, p, Unlocked(s.producers[p].wasEmpty)).(mutex := None)
    case Notify(p, w) =>
      var t := SetP(s, p, Outside);
      if w.Some? then SetC(t, w.value, Trying) else t
    case Skip(p) => SetP(s, p, Outside)
    case Acquire(c) => SetC(s, c, Holding).(mutex := Some(C(c)))
    case Wait(c) => SetC(s, c, Asleep).(mutex := None)
    case Pop(c) => SetC(s, c, Popped(s.work[0])).(work := s.work[1..])
    case Return(c) => SetC(s, c, Trying).(mutex := None)
    case Spurious(c) => SetC(s, c, Trying)
  }

  ghost predicate IsRun<T(!new)>(run: seq<State<T>>, actions: seq<Action<T>>) {
    && |run| == |actions| + 1
    && forall i :: 0 <= i < |actions| ==> Enabled(run[i], actions[i]) && run[i + 1] == Do(run[i], actions[i])
  }

  // ---------------------------------------------------------------- the invariant

  predicate InsideP<T>(p: Producer<T>) { p.Locked? || p.Tested? || p.Pushed? }

  predicate InsideC<T>(c: Consumer<T>) { c.Holding? || c.Popped? }

  /** Whoever is inside holds the mutex, and the holder is inside. */
  ghost predicate Exclusive<T>(s: State<T>) {
    && (forall p :: p in s.producers && InsideP(s.producers[p]) ==> s.mutex == Some(P(p)))
    && (forall c :: c in s.consumers && InsideC(s.consumers[c]) ==> s.mutex == Some(C(c)))
    && match s.mutex
       case None => true
       case Some(P(p)) => p in s.producers && InsideP(s.producers[p])
       case Some(C(c)) => c in s.consumers && InsideC(s.consumers[c])
  }

  /** was_empty is still true of the queue when the item goes in. */
  ghost predicate TestsHold<T>(s: State<T>) {
    forall p :: p in s.producers && s.producers[p].Tested? ==> s.producers[p].wasEmpty == (s.work == [])
  }

  predicate AwakeC<T>(c: Consumer<T>) { !c.Asleep? }

  predicate PendingP<T>(p: Producer<T>) { (p.Pushed? || p.Unlocked?) && p.wasEmpty }

  ghost predicate SomeAwake<T>(s: State<T>) { exists c :: c in s.consumers && AwakeC(s.consumers[c]) }

  ghost predicate NotifyPending<T>(s: State<T>) { exists p :: p in s.producers && PendingP(s.producers[p]) }

  /** Work in the queue: some consumer is awake or a notify is still to come. */
  ghost predicate NoLostWakeup<T>(s: State<T>) {
    s.work != [] ==> SomeAwake(s) || NotifyPending(s)
  }

  ghost predicate Inv<T>(s: State<T>) {
    Exclusive(s) && TestsHold(s) && NoLostWakeup(s) && s.consumers != map[]
  }

  lemma {:induction false} ExclusiveKept<T(!new)>(s: State<T>, a: Action<T>)
    requires Exclusive(s) && Enabled(s, a)
    ensures Exclusive(Do(s, a))
  {
  }

  lemma {:induction false} TestsKept<T(!new)>(s: State<T>, a: Action<T>)
    requires Exclusive(s) && TestsHold(s) && Enabled(s, a)
    ensures TestsHold(Do(s, a))
  {
  }

  lemma {:induction false} WakeupKept<T(!new)>(s: State<T>, a: Action<T>)
    requires TestsHold(s) && NoLostWakeup(s) && s.consumers != map[] && Enabled(s, a)
    ensures NoLostWakeup(Do(s, a)) && Do(s, a).consumers != map[]
  {
    var t := Do(s, a);
    assert t.consumers != map[] by {
      var c :| c in s.consumers;
      assert c in t.consumers;
    }
    if t.work != [] {
      match a {
        case Push(p) =>
          if s.work == [] {
            assert PendingP(t.producers[p]);
          } else {
            StillServed(s, t, p);
          }
        case Notify(p, w) =>
          if w.Some? {
            assert AwakeC(t.consumers[w.value]);
          } else {
            var c :| c in s.consumers;
            assert AwakeC(t.consumers[c]);
          }
        case Unlock(p) =>
          if s.producers[p].wasEmpty {
            assert PendingP(t.producers[p]);
          } else {
            StillServed(s, t, p);
          }
        case Begin(p, _) => StillServed(s, t, p);
        case Lock(p) => StillServed(s, t, p);
        case Test(p) => StillServed(s, t, p);
        case Skip(p) => StillServed(s, t, p);
        case Acquire(c) => assert AwakeC(t.consumers[c]);
        case Pop(c) => assert AwakeC(t.consumers[c]);
        case Return(c) => assert AwakeC(t.consumers[c]);
        case Spurious(c) => assert AwakeC(t.consumers[c]);
        case Wait(c) =>
      }
    }
  }

  /** A producer that was not the pending one moves: nothing is lost. */
  lemma {:induction false} StillServed<T>(s: State<T>, t: State<T>, p: nat)
    requires SomeAwake(s) || NotifyPending(s)
    requires t.consumers == s.consumers && p in s.producers && !PendingP(s.producers[p])
    requires p in t.producers && t.producers == s.producers[p := t.producers[p]]
    ensures SomeAwake(t) || NotifyPending(t)
  {
    if SomeAwake(s) {
      var c :| c in s.consumers && AwakeC(s.consumers[c]);
      assert AwakeC(t.consumers[c]);
    } else {
      var r :| r in s.producers && PendingP(s.producers[r]);
      assert PendingP(t.producers[r]);
    }
  }

  lemma {:induction false} InvKept<T(!new)>(s: State<T>, a: Action<T>)
    requires Inv(s) && Enabled(s, a)
    ensures Inv(Do(s, a))
  {
    ExclusiveKept(s, a);
    TestsKept(s, a);
    WakeupKept(s, a);
  }

  /** In every state of every run, with any number of threads: work in the queue has an awake
      consumer or a pending notify. */
  lemma {:induction false} NoWakeupIsLost<T(!new)>(run: seq<State<T>>, actions: seq<Action<T>>)
    requires IsRun(run, actions) && Initial(run[0])
    ensures var s := run[|run| - 1];
            && Inv(s)
            && (s.work != [] ==> SomeAwake(s) || NotifyPending(s))
    decreases |actions|
  {
    var n := |actions|;
    if n > 0 {
      NoWakeupIsLost(run[..n], actions[..n - 1]);
      InvKept(run[n - 1], actions[n - 1]);
    }
  }

  // ---------------------------------------------------------------- items

  /** The item a producer stores with this action, and the one a consumer hands to its caller. */
  ghost function StoredBy<T>(s: State<T>, a: Action<T>): seq<T> {
    if a.Push? && a.p in s.producers && s.producers[a.p].Tested? then [s.producers[a.p].item] else []
  }

  ghost function HandedBy<T>(s: State<T>, a: Action<T>): seq<T> {
    if a.Return? && a.c in s.consumers && s.consumers[a.c].Popped? then [s.consumers[a.c].item] else []
  }

  /** Everything stored, and everything handed out by wait_and_pop, along a run. */
  ghost function Stored<T>(run: seq<State<T>>, actions: seq<Action<T>>): seq<T>
    requires |run| == |actions| + 1
    decreases |actions|
  {
    if actions == [] then [] else StoredBy(run[0], actions[0]) + Stored(run[1..], actions[1..])
  }

  ghost function Handed<T>(run: seq<State<T>>, actions: seq<Action<T>>): seq<T>
    requires |run| == |actions| + 1
    decreases |actions|
  {
    if actions == [] then [] else HandedBy(run[0], actions[0]) + Handed(run[1..], actions[1..])
  }

  /** The item a consumer has taken and not yet handed out. */
  ghost function InHand<T>(s: State<T>): seq<T> {
    if s.mutex.Some? && s.mutex.value.C? && s.mutex.value.c in s.consumers && s.consumers[s.mutex.value.c].Popped?
    then [s.consumers[s.mutex.value.c].item] else []
  }

  /** One action moves items along: into the queue at its end, out of it at its head. */
  lemma {:induction false} ActionMoves<T(!new)>(s: State<T>, a: Action<T>)
    requires Exclusive(s) && Enabled(s, a)
    ensures var t := Do(s, a); InHand(s) + s.work + StoredBy(s, a) == HandedBy(s, a) + InHand(t) + t.work
  {
    if a.Push? {
      Assoc(InHand(s), s.work, StoredBy(s, a));
    } else if a.Pop? {
      assert s.work == [s.work[0]] + s.work[1..];
    } else {
      HandShrinks(s, a);
      Unit(InHand(s) + s.work);
    }
  }

  lemma {:induction false} HandShrinks<T(!new)>(s: State<T>, a: Action<T>)
    requires Exclusive(s) && Enabled(s, a) && !a.Pop?
    ensures HandedBy(s, a) + InHand(Do(s, a)) == InHand(s)
  {
  }

  lemma {:induction false} RunTail<T(!new)>(run: seq<State<T>>, actions: seq<Action<T>>)
    requires IsRun(run, actions) && actions != []
    ensures IsRun(run[1..], actions[1..]) && Enabled(run[0], actions[0]) && run[1] == Do(run[0], actions[0])
  {
    assert Enabled(run[0], actions[0]);
    forall i | 0 <= i < |actions[1..]|
      ensures Enabled(run[1..][i], actions[1..][i]) && run[1..][i + 1] == Do(run[1..][i], actions[1..][i])
    {
      assert Enabled(run[i + 1], actions[i + 1]) && run[i + 2] == Do(run[i + 1], actions[i + 1]);
    }
  }

  lemma {:induction false} Regroup<T>(a: seq<T>, b: seq<T>, c: seq<T>, d: seq<T>, e: seq<T>, f: seq<T>)
    requires a + b == c + d && d + e == f
    ensures a + (b + e) == c + f
  {
    Assoc(a, b, e);
    Assoc(c, d, e);
  }

  /** Over any stretch of a run: what was there and what is stored is, in this order, what is
      handed out, what is in hand, and what is left in the queue. */
  lemma {:induction false} ItemsMove<T(!new)>(run: seq<State<T>>, actions: seq<Action<T>>)
    requires IsRun(run, actions) && Exclusive(run[0])
    ensures var s, t := run[0], run[|run| - 1];
            InHand(s) + s.work + Stored(run, actions) == Handed(run, actions) + (InHand(t) + t.work)
    decreases |actions|
  {
    var s := run[0];
    if actions == [] {
      Unit(InHand(s) + s.work);
    } else {
      var a, rest, more := actions[0], run[1..], actions[1..];
      RunTail(run, actions);
      ActionMoves(s, a);
      ExclusiveKept(s, a);
      ItemsMove(rest, more);
      assert rest[|rest| - 1] == run[|run| - 1];
      Assoc(HandedBy(s, a), InHand(rest[0]), rest[0].work);
      Regroup(InHand(s) + s.work, StoredBy(s, a), HandedBy(s, a), InHand(rest[0]) + rest[0].work, Stored(rest, more),
              Handed(rest, more) + (InHand(run[|run| - 1]) + run[|run| - 1].work));
      Assoc(HandedBy(s, a), Handed(rest, more), InHand(run[|run| - 1]) + run[|run| - 1].work);
    }
  }

  /** In every run the callers of wait_and_pop get the items in the order in which they were
      stored, each once: what they got, what one of them is about to get, and what is in the
      queue make up exactly what was stored. */
  lemma {:induction false} ItemsInOrder<T(!new)>(run: seq<State<T>>, actions: seq<Action<T>>)
    requires IsRun(run, actions) && Initial(run[0])
    ensures var t := run[|run| - 1];
            && Stored(run, actions) == Handed(run, actions) + (InHand(t) + t.work)
            && Handed(run, actions) <= Stored(run, actions)
  {
    ItemsMove(run, actions);
    Unit(Stored(run, actions));
  }

  // the producers' side

  /** The arguments of producer p's calls of push_work, and what it stored. */
  ghost function Given<T>(actions: seq<Action<T>>, p: nat): seq<T>
    decreases |actions|
  {
    if actions == [] then []
    else (if actions[0].Begin? && actions[0].p == p then [actions[0].item] else []) + Given(actions[1..], p)
  }

  ghost function StoredFrom<T>(run: seq<State<T>>, actions: seq<Action<T>>, p: nat): seq<T>
    requires |run| == |actions| + 1
    decreases |actions|
  {
    if actions == [] then []
    else (if actions[0].Push? && actions[0].p == p then StoredBy(run[0], actions[0]) else [])
         + StoredFrom(run[1..], actions[1..], p)
  }

  /** The argument of the call producer p is in, before it is stored. */
  ghost function Carried<T>(s: State<T>, p: nat): seq<T> {
    if p in s.producers && (s.producers[p].Entering? || s.producers[p].Locked? || s.producers[p].Tested?)
    then [s.producers[p].item] else []
  }

  lemma {:induction false} ArgumentsMove<T(!new)>(s: State<T>, a: Action<T>, p: nat)
    requires Enabled(s, a)
    ensures Carried(s, p) + (if a.Begin? && a.p == p then [a.item] else [])
         == (if a.Push? && a.p == p then StoredBy(s, a) else []) + Carried(Do(s, a), p)
  {
  }

  /** Every producer stores exactly the arguments of its calls, in the order of the calls. */
  lemma {:induction false} ArgumentsStored<T(!new)>(run: seq<State<T>>, actions: seq<Action<T>>, p: nat)
    requires IsRun(run, actions)
    ensures Carried(run[0], p) + Given(actions, p) == StoredFrom(run, actions, p) + Carried(run[|run| - 1], p)
    decreases |actions|
  {
    var s := run[0];
    if actions == [] {
      Unit(Carried(s, p));
    } else {
      var a, rest, more := actions[0], run[1..], actions[1..];
      RunTail(run, actions);
      ArgumentsMove(s, a, p);
      ArgumentsStored(rest, more, p);
      assert rest[|rest| - 1] == run[|run| - 1];
      var given := if a.Begin? && a.p == p then [a.item] else [];
      var stored := if a.Push? && a.p == p then StoredBy(s, a) else [];
      Regroup(Carried(s, p), given, stored, Carried(rest[0], p), Given(more, p),
              StoredFrom(rest, more, p) + Carried(run[|run| - 1], p));
      Assoc(stored, StoredFrom(rest, more, p), Carried(run[|run| - 1], p));
    }
  }

  // ---------------------------------------------------------------- progress

  /** How far the head of the queue is from being popped. */
  ghost function Distance<T>(s: State<T>): nat
    requires Inv(s)
  {
    match s.mutex
    case Some(P(p)) => if s.producers[p].Locked? then 7 else if s.producers[p].Tested? then 6 else 5
    case Some(C(c)) => if s.consumers[c].Popped? then 5 else 1
    case None => if SomeAwake(s) then 3 else 4
  }

  /** Some thread has a move that brings the head nearer, without any new push beginning. */
  lemma {:induction false} Nearer<T(!new)>(s: State<T>) returns (a: Action<T>)
    requires Inv(s) && s.work != []
    ensures Enabled(s, a) && !a.Begin? && Inv(Do(s, a))
    ensures var t := Do(s, a);
            if a.Pop? then s.mutex == Some(C(a.c))
            else t.work != [] && t.work[0] == s.work[0] && Distance(t) < Distance(s)
  {
    match s.mutex
    case Some(P(p)) =>
      a := if s.producers[p].Locked? then Test(p) else if s.producers[p].Tested? then Push(p) else Unlock(p);
      InvKept(s, a);
    case Some(C(c)) =>
      a := if s.consumers[c].Popped? then Return(c) else Pop(c);
      InvKept(s, a);
    case None =>
      if c :| c in s.consumers && AwakeC(s.consumers[c]) {
        a := Acquire(c);
        assert SomeAwake(s);
      } else {
        var p :| p in s.producers && PendingP(s.producers[p]);
        var c :| c in s.consumers;
        assert s.consumers[c].Asleep?;
        a := Notify(p, Some(c));
        assert AwakeC(Do(s, a).consumers[c]);
      }
      InvKept(s, a);
  }

  lemma {:induction false} HandedCons<T>(s: State<T>, a: Action<T>, run: seq<State<T>>, actions: seq<Action<T>>)
    requires |run| == |actions| + 1
    ensures Handed([s] + run, [a] + actions) == HandedBy(s, a) + Handed(run, actions)
  {
    assert ([s] + run)[1..] == run && ([a] + actions)[1..] == actions;
  }

  lemma {:induction false} RunCons<T(!new)>(s: State<T>, a: Action<T>, run: seq<State<T>>, actions: seq<Action<T>>)
    requires IsRun(run, actions) && Enabled(s, a) && run[0] == Do(s, a)
    ensures IsRun([s] + run, [a] + actions)
  {
    forall i | 0 <= i < |actions| + 1
      ensures Enabled(([s] + run)[i], ([a] + actions)[i]) && ([s] + run)[i + 1] == Do(([s] + run)[i], ([a] + actions)[i])
    {
      if i > 0 {
        assert Enabled(run[i - 1], actions[i - 1]) && run[i] == Do(run[i - 1], actions[i - 1]);
      }
    }
  }

  /** The consumer inside takes the head and hands it out. */
  lemma {:induction false} TakeHead<T(!new)>(s: State<T>, c: nat) returns (run: seq<State<T>>, actions: seq<Action<T>>)
    requires Enabled(s, Pop(c)) && s.mutex == Some(C(c))
    ensures IsRun(run, actions) && run[0] == s && forall i :: 0 <= i < |actions| ==> !actions[i].Begin?
    ensures InHand(s) == [] && Handed(run, actions) == [s.work[0]]
  {
    var t := Do(s, Pop(c));
    var u := Do(t, Return(c));
    run, actions := [s, t, u], [Pop(c), Return(c)];
    assert run[1..][1..] == [u] && actions[1..][1..] == [];
    assert Handed(run[1..][1..], actions[1..][1..]) == [];
    assert Handed(run[1..], actions[1..]) == HandedBy(t, Return(c)) + [];
  }

  /** From any reachable state with work the threads present can hand out the oldest item, next
      after the one that may already be in hand. */
  lemma {:induction false} HeadIsServed<T(!new)>(s: State<T>) returns (run: seq<State<T>>, actions: seq<Action<T>>)
    requires Inv(s) && s.work != []
    ensures IsRun(run, actions) && run[0] == s && Handed(run, actions) == InHand(s) + [s.work[0]]
    ensures forall i :: 0 <= i < |actions| ==> !actions[i].Begin?
    decreases Distance(s)
  {
    var a := Nearer(s);
    if a.Pop? {
      run, actions := TakeHead(s, a.c);
    } else {
      var t := Do(s, a);
      var rest, more := HeadIsServed(t);
      run, actions := [s] + rest, [a] + more;
      RunCons(s, a, rest, more);
      HandedCons(s, a, rest, more);
      HandShrinks(s, a);
      Assoc(HandedBy(s, a), InHand(t), [s.work[0]]);
    }
  }
}
