/**
 * The theorems about whole runs of the pipeline: conservation, order and
 * batching, what Close guarantees, and exactly when it is safe to close.
 */
module PipelineRuns {
  import opened Pipeline
  import opened PipelineSafety

  // ---------------------------------------------------------------- every run

  lemma {:induction false} NothingHeldInitially(m: Measure, n: nat, k: nat)
    ensures InProducers(m, seq(n, _ => Idle)) == 0
    ensures var xs := seq(k, _ => Stream([], false, Receiving([]), [], [], []));
      InStreams(m, xs) == 0 && InDoubt(m, xs) == 0
    decreases n + k
  {
    if n > 0 {
      assert seq(n, _ => Idle)[..n - 1] == seq(n - 1, _ => Idle);
      NothingHeldInitially(m, n - 1, k);
    } else if k > 0 {
      var x := Stream([], false, Receiving([]), [], [], []);
      assert seq(k, _ => x)[..k - 1] == seq(k - 1, _ => x);
      NothingHeldInitially(m, n, k - 1);
    }
  }

  lemma InitialInv(c: Config, n: nat)
    requires ValidConfig(c)
    ensures Inv(c, Initial(c, n))
  {
    forall m
      ensures Places(m, Initial(c, n)) == FirstEvents(m, 0) && FailedBalance(m, Initial(c, n))
    {
      NothingHeldInitially(m, n, |c.batch|);
    }
  }

  lemma {:induction false} RunKeepsInv(c: Config, st: State, acts: seq<Action>)
    requires ValidConfig(c) && Inv(c, st) && IsRun(c, st, acts)
    ensures Inv(c, After(c, st, acts))
    decreases |acts|
  {
    if acts != [] {
      StepKeepsInv(c, st, acts[0]);
      RunKeepsInv(c, Apply(c, st, acts[0]), acts[1..]);
    }
  }

  lemma ReachableInv(c: Config, n: nat, st: State)
    requires ValidConfig(c) && Reachable(c, n, st)
    ensures Inv(c, st)
  {
    var acts :| IsRun(c, Initial(c, n), acts) && After(c, Initial(c, n), acts) == st;
    InitialInv(c, n);
    RunKeepsInv(c, Initial(c, n), acts);
  }

  // ---------------------------------------------------------------- conservation

  // Every event counted as captured is in exactly one place, and nothing else is
  // anywhere; the counters count the places.
  lemma Conservation(c: Config, n: nat, st: State)
    requires ValidConfig(c) && Reachable(c, n, st)
    ensures forall e: Event :: Places(Of(e), st) == (if e < st.captured then 1 else 0)
    ensures st.captured + st.ledger.phantom
         == InProducers(Size, st.producers) + InStreams(Size, st.streams) + st.sent + st.dropped + st.persisted
    ensures st.failed == st.persisted + |st.ledger.lost| + InDoubt(Size, st.streams)
    ensures |st.ledger.lost| <= st.dropped
  {
    ReachableInv(c, n, st);
    forall e: Event
      ensures Places(Of(e), st) == (if e < st.captured then 1 else 0)
    {
      assert Places(Of(e), st) == FirstEvents(Of(e), st.captured);
    }
    assert Places(Size, st) == FirstEvents(Size, st.captured) && FailedBalance(Size, st);
    WeightIsSize(st.ledger.sent);
    WeightIsSize(st.ledger.dropped);
    WeightIsSize(st.ledger.persisted);
    WeightIsSize(st.ledger.failed);
    WeightIsSize(st.ledger.lost);
  }

  // ---------------------------------------------------------------- order

  ghost predicate Increasing(at: seq<nat>) {
    forall i, j :: 0 <= i < j < |at| ==> at[i] < at[j]
  }

  // The positions of the removals that were not evictions.
  function Kept(popped: seq<Pop>): seq<nat> {
    if popped == [] then []
    else
      var n := |popped| - 1;
      Kept(popped[..n]) + (if popped[n].evicted then [] else [n])
  }

  lemma {:induction false} KeptProperties(popped: seq<Pop>)
    ensures Increasing(Kept(popped))
    ensures forall j :: j in Kept(popped) <==> 0 <= j < |popped| && !popped[j].evicted
    ensures |Kept(popped)| == |Taken(popped)|
    ensures forall k :: 0 <= k < |Kept(popped)| ==>
      Kept(popped)[k] < |popped| && popped[Kept(popped)[k]].event == Taken(popped)[k]
  {
    if popped != [] {
      var n := |popped| - 1;
      KeptProperties(popped[..n]);
      var shorter := Kept(popped[..n]);
      forall k | 0 <= k < |shorter|
        ensures shorter[k] < n
      {
        assert shorter[k] in shorter;
      }
      forall j
        ensures j in Kept(popped) <==> 0 <= j < |popped| && !popped[j].evicted
      {
        assert j in Kept(popped) <==> j in shorter || (j == n && !popped[n].evicted);
      }
    }
  }

  // `delivered` is `enqueued` without its evicted elements: at[k] is where the
  // k-th delivered event was enqueued, and the positions it skips, among those
  // already removed from the channel, are exactly the evictions.
  ghost predicate DeliveredAt(at: seq<nat>, delivered: seq<Event>, enqueued: seq<Event>, popped: seq<Pop>) {
    && Increasing(at) && |at| == |delivered| && |popped| <= |enqueued|
    && (forall k :: 0 <= k < |at| ==> at[k] < |popped| && enqueued[at[k]] == delivered[k])
    && (forall j :: 0 <= j < |popped| ==> popped[j].event == enqueued[j] && (j in at <==> !popped[j].evicted))
  }

  lemma DeliveredInOrder(enqueued: seq<Event>, popped: seq<Pop>, queue: seq<Event>)
    requires enqueued == Events(popped) + queue
    ensures DeliveredAt(Kept(popped), Taken(popped), enqueued, popped)
  {
    KeptProperties(popped);
  }

  // The batches handed to the transport, then the pending one, are the enqueued
  // events in order with some left out; those left out are exactly the evictions,
  // each made at the head of the queue. Every batch is non-empty and fits.
  lemma OrderAndBatching(c: Config, n: nat, st: State, s: nat)
    requires ValidConfig(c) && Reachable(c, n, st) && s < |c.batch|
    ensures |st.streams| == |c.batch|
    ensures var x := st.streams[s];
      && x.enqueued == Events(x.popped) + x.queue
      && (exists at :: DeliveredAt(at, Flatten(x.handed) + Pending(x.worker), x.enqueued, x.popped))
      && (forall b :: b in x.handed ==> 1 <= |b| <= c.batch[s])
      && |Pending(x.worker)| < c.batch[s] && |x.queue| <= c.capacity
  {
    ReachableInv(c, n, st);
    var x := st.streams[s];
    assert StreamOk(c.capacity, c.batch[s], x);
    hide Flatten, Taken, Kept, Increasing, DeliveredAt;
    DeliveredInOrder(x.enqueued, x.popped, x.queue);
  }

  // ---------------------------------------------------------------- closing

  // Producer x will send on channel s before its Capture call returns.
  predicate BoundFor(x: Producer, s: nat) {
    match x
    case Admitted(t) => t == s
    case Captured(t, _) => t == s
    case PopOldest(t, _) => t == s
    case CountEvicted(t, _, _) => t == s
    case SecondPush(t, _) => t == s
    case _ => false
  }

  predicate Quiescent(st: State, s: nat) {
    forall p :: 0 <= p < |st.producers| ==> !BoundFor(st.producers[p], s)
  }

  // No producer is on its way to a closed channel.
  ghost predicate Clear(st: State) {
    && (forall s :: 0 <= s < |st.streams| && st.streams[s].closed ==> st.shut && Quiescent(st, s))
    && (forall p :: 0 <= p < |st.producers| ==>
          !st.producers[p].Panicked? && (st.producers[p].CountEvicted? ==> st.producers[p].head.Some?))
    && st.ledger.phantom == 0
  }

  // Channels are closed only when no capture is under way on them.
  predicate OrderlyAction(st: State, a: Action) {
    a.CloseChannel? ==> Quiescent(st, a.ch)
  }

  ghost predicate OrderlyRun(c: Config, st: State, acts: seq<Action>)
    requires |c.batch| == |st.streams| && IsRun(c, st, acts)
    decreases |acts|
  {
    acts != [] ==> OrderlyAction(st, acts[0]) && OrderlyRun(c, Apply(c, st, acts[0]), acts[1..])
  }

  lemma ProducerKeepsClear(c: Config, st: State, p: nat, m: ProducerMove)
    requires Clear(st) && p < |st.producers| && ProducerEnabled(st, st.producers[p], m)
    ensures Clear(ApplyProducer(c, st, p, m))
  {
    var st' := ApplyProducer(c, st, p, m);
    forall s | 0 <= s < |st'.streams| && st'.streams[s].closed
      ensures st'.shut && Quiescent(st', s)
    {
      assert st.streams[s].closed && st.shut && Quiescent(st, s);
      assert !BoundFor(st.producers[p], s);
      assert !BoundFor(st'.producers[p], s);
    }
  }

  lemma StepKeepsClear(c: Config, st: State, a: Action)
    requires |st.streams| == |c.batch| && Clear(st) && Enabled(st, a) && OrderlyAction(st, a)
    ensures Clear(Apply(c, st, a))
  {
    match a
    case Produce(p, m) => ProducerKeepsClear(c, st, p, m);
    case _ =>
      var st' := Apply(c, st, a);
      assert st'.producers == st.producers;
      forall s | 0 <= s < |st'.streams| && st'.streams[s].closed
        ensures st'.shut && Quiescent(st', s)
      {
        assert Quiescent(st, s);
      }
  }

  lemma {:induction false} OrderlyRunKeepsClear(c: Config, st: State, acts: seq<Action>)
    requires |st.streams| == |c.batch| && Clear(st) && IsRun(c, st, acts) && OrderlyRun(c, st, acts)
    ensures Clear(After(c, st, acts))
    decreases |acts|
  {
    if acts != [] {
      StepKeepsClear(c, st, acts[0]);
      OrderlyRunKeepsClear(c, Apply(c, st, acts[0]), acts[1..]);
    }
  }

  lemma {:induction false} IdleHoldNothing(m: Measure, ps: seq<Producer>)
    requires forall p :: 0 <= p < |ps| ==> ps[p].Idle?
    ensures InProducers(m, ps) == 0
  {
    if ps != [] {
      IdleHoldNothing(m, ps[..|ps| - 1]);
    }
  }

  lemma {:induction false} ExitedHoldNothing(m: Measure, xs: seq<Stream>)
    requires forall s :: 0 <= s < |xs| ==> xs[s].worker.Exited? && xs[s].queue == []
    ensures InStreams(m, xs) == 0 && InDoubt(m, xs) == 0
  {
    if xs != [] {
      ExitedHoldNothing(m, xs[..|xs| - 1]);
    }
  }

  ghost predicate AllReturned(st: State) {
    && (forall s :: 0 <= s < |st.streams| ==> st.streams[s].worker.Exited?)
    && (forall p :: 0 <= p < |st.producers| ==> st.producers[p].Idle?)
  }

  lemma NothingInFlight(c: Config, st: State)
    requires Inv(c, st) && AllReturned(st)
    ensures forall s :: 0 <= s < |st.streams| ==> st.streams[s].queue == []
    ensures forall m ::
      InProducers(m, st.producers) == 0 && InStreams(m, st.streams) == 0 && InDoubt(m, st.streams) == 0
  {
    hide Events, Flatten, Taken, InProducers, InStreams, InDoubt;
    forall s | 0 <= s < |st.streams|
      ensures st.streams[s].queue == []
    {
      assert StreamOk(c.capacity, c.batch[s], st.streams[s]);
    }
    forall m
      ensures InProducers(m, st.producers) == 0 && InStreams(m, st.streams) == 0 && InDoubt(m, st.streams) == 0
    {
      IdleHoldNothing(m, st.producers);
      ExitedHoldNothing(m, st.streams);
    }
  }

  // Close returns when every worker has exited. If no capture was under way on a
  // channel when it was closed, and all captures have returned, nothing is left
  // anywhere: each event was sent, dropped or persisted, and counted so.
  lemma LosslessClose(c: Config, n: nat, acts: seq<Action>)
    requires ValidConfig(c)
    requires IsRun(c, Initial(c, n), acts) && OrderlyRun(c, Initial(c, n), acts)
    requires AllReturned(After(c, Initial(c, n), acts))
    ensures var st := After(c, Initial(c, n), acts);
      && st.captured == st.sent + st.dropped + st.persisted
      && st.failed == st.persisted + |st.ledger.lost|
      && (forall s :: 0 <= s < |st.streams| ==> st.streams[s].queue == [])
      && (forall e: Event :: e < st.captured ==> SettledWeight(Of(e), st.ledger) == 1)
  {
    var st := After(c, Initial(c, n), acts);
    assert Clear(Initial(c, n));
    OrderlyRunKeepsClear(c, Initial(c, n), acts);
    assert Reachable(c, n, st);
    hide IsRun, After, Reachable, InProducers, InStreams, InDoubt, Inv, Weight;
    ReachableInv(c, n, st);
    Conservation(c, n, st);
    NothingInFlight(c, st);
    forall e: Event | e < st.captured
      ensures SettledWeight(Of(e), st.ledger) == 1
    {
      assert Places(Of(e), st) == 1;
    }
  }

  // ---------------------------------------------------------------- when closing is safe

  lemma {:induction false} RunAppend(c: Config, st: State, acts: seq<Action>, more: seq<Action>)
    requires |c.batch| == |st.streams| && IsRun(c, st, acts)
    requires |After(c, st, acts).streams| == |c.batch| && IsRun(c, After(c, st, acts), more)
    ensures IsRun(c, st, acts + more)
    ensures After(c, st, acts + more) == After(c, After(c, st, acts), more)
    decreases |acts|
  {
    if acts == [] {
      assert acts + more == more;
    } else {
      assert (acts + more)[0] == acts[0] && (acts + more)[1..] == acts[1..] + more;
      RunAppend(c, Apply(c, st, acts[0]), acts[1..], more);
    }
  }

  lemma ExtendRun(c: Config, st: State, acts: seq<Action>, a: Action)
    requires |c.batch| == |st.streams| && IsRun(c, st, acts)
    requires |After(c, st, acts).streams| == |c.batch| && Enabled(After(c, st, acts), a)
    ensures IsRun(c, st, acts + [a])
    ensures After(c, st, acts + [a]) == Apply(c, After(c, st, acts), a)
  {
    assert [a][1..] == [];
    RunAppend(c, st, acts, [a]);
  }

  function MovesToPanic(x: Producer): nat {
    if x.PopOldest? then 3 else if x.Admitted? || x.CountEvicted? then 2 else 1
  }

  // A capture under way on a closed channel can only end in a panic: its own
  // remaining moves, three at most, lead there.
  lemma {:induction false} CaptureOnClosedPanics(c: Config, st: State, p: nat, s: nat) returns (acts: seq<Action>)
    requires |c.batch| == |st.streams| && p < |st.producers| && s < |st.streams|
    requires st.streams[s].closed && BoundFor(st.producers[p], s)
    ensures IsRun(c, st, acts) && |acts| <= MovesToPanic(st.producers[p])
    ensures forall a :: a in acts ==> a.Produce? && a.p == p
    ensures p < |After(c, st, acts).producers| && After(c, st, acts).producers[p].Panicked?
    decreases MovesToPanic(st.producers[p])
  {
    var x := st.producers[p];
    var m := if x.Admitted? then Count else if x.PopOldest? then Pull else if x.CountEvicted? then Tally else Push;
    var st1 := Apply(c, st, Produce(p, m));
    if m == Push {
      acts := [Produce(p, m)];
      assert acts[1..] == [];
      assert IsRun(c, st1, acts[1..]) && After(c, st1, acts[1..]) == st1;
    } else {
      var rest := CaptureOnClosedPanics(c, st1, p, s);
      acts := [Produce(p, m)] + rest;
      assert acts[1..] == rest;
    }
  }

  ghost predicate SomePanic(st: State) {
    exists p :: 0 <= p < |st.producers| && st.producers[p].Panicked?
  }

  ghost predicate CloseFree(acts: seq<Action>) {
    forall a :: a in acts ==> !a.CloseChannel?
  }

  lemma {:induction false} CloseFreeIsOrderly(c: Config, st: State, acts: seq<Action>)
    requires |c.batch| == |st.streams| && IsRun(c, st, acts) && CloseFree(acts)
    ensures OrderlyRun(c, st, acts)
    decreases |acts|
  {
    if acts != [] {
      assert acts[0] in acts && forall a :: a in acts[1..] ==> a in acts;
      CloseFreeIsOrderly(c, Apply(c, st, acts[0]), acts[1..]);
    }
  }

  // Closing a channel can make the program panic exactly when some capture has
  // passed the closed check and has not yet sent. Nothing in Close waits for that.
  lemma ClosingIsSafeExactlyWhenQuiescent(c: Config, st: State, s: nat)
    requires |c.batch| == |st.streams| && Clear(st) && Enabled(st, CloseChannel(s))
    ensures var closed := Apply(c, st, CloseChannel(s));
      (exists acts :: IsRun(c, closed, acts) && CloseFree(acts) && SomePanic(After(c, closed, acts)))
      <==> !Quiescent(st, s)
  {
    var closed := Apply(c, st, CloseChannel(s));
    if Quiescent(st, s) {
      StepKeepsClear(c, st, CloseChannel(s));
      forall acts | IsRun(c, closed, acts) && CloseFree(acts)
        ensures !SomePanic(After(c, closed, acts))
      {
        CloseFreeIsOrderly(c, closed, acts);
        OrderlyRunKeepsClear(c, closed, acts);
      }
    } else {
      var p :| 0 <= p < |st.producers| && BoundFor(st.producers[p], s);
      var acts := CaptureOnClosedPanics(c, closed, p, s);
      assert CloseFree(acts);
    }
  }

  // ---------------------------------------------------------------- Close returns

  // Bounds the moves a worker still makes before it exits, idle ticks aside.
  function WorkLeft(x: Stream): nat {
    8 * |x.queue| +
    match x.worker
    case Receiving(b) => if b == [] then 1 else 6
    case Sending(_, _) => 5
    case Refused(_, _, _) => 4
    case Classifying(_, _, _) => 3
    case Accepted(_, _) => 2
    case Stored(_, _) => 2
    case Lost(_, _) => 2
    case Exited => 0
  }

  // A move of worker s, other than a tick with nothing to flush.
  predicate Busy(st: State, a: Action, s: nat) {
    a.Work? && a.s == s && s < |st.streams| && !(a.wm.Tick? && st.streams[s].worker == Receiving([]))
  }

  ghost function BusyMoves(c: Config, st: State, acts: seq<Action>, s: nat): nat
    requires |c.batch| == |st.streams| && IsRun(c, st, acts)
    decreases |acts|
  {
    if acts == [] then 0
    else (if Busy(st, acts[0], s) then 1 else 0) + BusyMoves(c, Apply(c, st, acts[0]), acts[1..], s)
  }

  lemma WorkerStepShrinks(size: nat, x: Stream, m: WorkerMove)
    requires WorkerEnabled(x, m) && !m.Add?
    ensures WorkLeft(StreamAfter(size, x, m)) + (if m.Tick? && x.worker == Receiving([]) then 0 else 1) <= WorkLeft(x)
  {
  }

  // Whatever step is taken, a closed channel stays closed and its worker has no more
  // to do; a busy move of the worker leaves it strictly less.
  lemma ClosedStepShrinks(c: Config, st: State, a: Action, s: nat)
    requires |c.batch| == |st.streams| && s < |st.streams| && st.streams[s].closed && Enabled(st, a)
    ensures var st' := Apply(c, st, a);
      && |st'.streams| == |st.streams| && st'.streams[s].closed
      && WorkLeft(st'.streams[s]) + (if Busy(st, a, s) then 1 else 0) <= WorkLeft(st.streams[s])
  {
    match a
    case Work(t, m) =>
      if t == s && !m.Add? {
        WorkerStepShrinks(c.batch[s], st.streams[s], m);
      }
    case _ =>
  }

  // In every run after its channel was closed, whatever the other goroutines do, the
  // moves of a worker, idle ticks aside, number at most what it had to do then; and
  // while it has not exited it can make one. So the wait in Close ends.
  lemma {:induction false} ClosedWorkerExits(c: Config, st: State, acts: seq<Action>, s: nat)
    requires |c.batch| == |st.streams| && s < |st.streams| && st.streams[s].closed && IsRun(c, st, acts)
    ensures var st' := After(c, st, acts);
      && s < |st'.streams| && WorkLeft(st'.streams[s]) + BusyMoves(c, st, acts, s) <= WorkLeft(st.streams[s])
      && (WorkLeft(st'.streams[s]) == 0 ==> st'.streams[s].worker.Exited?)
      && (!st'.streams[s].worker.Exited? ==> exists m :: Enabled(st', Work(s, m)) && Busy(st', Work(s, m), s))
    decreases |acts|
  {
    if acts == [] {
      ClosedWorkerCanMove(st, s);
    } else {
      ClosedStepShrinks(c, st, acts[0], s);
      ClosedWorkerExits(c, Apply(c, st, acts[0]), acts[1..], s);
    }
  }

  lemma ClosedWorkerCanMove(st: State, s: nat)
    requires s < |st.streams| && st.streams[s].closed
    ensures WorkLeft(st.streams[s]) == 0 ==> st.streams[s].worker.Exited?
    ensures !st.streams[s].worker.Exited? ==> exists m :: Enabled(st, Work(s, m)) && Busy(st, Work(s, m), s)
  {
    var x := st.streams[s];
    if !x.worker.Exited? {
      var m := match x.worker
        case Receiving(_) => Receive
        case Sending(_, _) => Returns(Delivered)
        case Classifying(_, _, _) => Persist(true)
        case _ => Add;
      assert Enabled(st, Work(s, m)) && Busy(st, Work(s, m), s);
    }
  }
}
