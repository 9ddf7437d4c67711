/**
 * What every interleaving of the pipeline keeps: each captured event is in
 * exactly one place, the counters count those places, and every channel hands
 * its events to the transport in order.
 */
module PipelineSafety {
  import opened Pipeline

  // ---------------------------------------------------------------- places

  // What is counted: the occurrences of one event, or events altogether.
  datatype Measure = Of(e: Event) | Size

  function One(m: Measure, e: Event): nat {
    if m.Of? && m.e != e then 0 else 1
  }

  function Weight(m: Measure, q: seq<Event>): nat {
    if q == [] then 0 else Weight(m, q[..|q| - 1]) + One(m, q[|q| - 1])
  }

  lemma {:induction false} WeightAppend(m: Measure, a: seq<Event>, b: seq<Event>)
    ensures Weight(m, a + b) == Weight(m, a) + Weight(m, b)
  {
    if b == [] {
      assert a + b == a;
    } else {
      assert (a + b)[..|a + b| - 1] == a + b[..|b| - 1];
      WeightAppend(m, a, b[..|b| - 1]);
    }
  }

  lemma {:induction false} WeightIsSize(q: seq<Event>)
    ensures Weight(Size, q) == |q|
  {
    if q != [] {
      WeightIsSize(q[..|q| - 1]);
    }
  }

  lemma WeightHead(m: Measure, q: seq<Event>)
    requires q != []
    ensures Weight(m, q) == One(m, q[0]) + Weight(m, q[1..])
  {
    assert q == [q[0]] + q[1..];
    WeightAppend(m, [q[0]], q[1..]);
    assert [q[0]][..0] == [];
  }

  function ProducerWeight(m: Measure, x: Producer): nat {
    match x
    case Idle => 0
    case Admitted(_) => 0
    case Captured(_, e) => One(m, e)
    case PopOldest(_, e) => One(m, e)
    case CountEvicted(_, e, h) => One(m, e) + (if h.Some? then One(m, h.value) else 0)
    case SecondPush(_, e) => One(m, e)
    case CountDropped(e) => One(m, e)
    case Panicked(e) => One(m, e)
  }

  function Load(w: Worker): seq<Event> {
    match w
    case Receiving(b) => b
    case Exited => []
    case _ => w.load
  }

  function StreamWeight(m: Measure, x: Stream): nat {
    Weight(m, x.queue) + Weight(m, Load(x.worker))
  }

  // Counted as failed, not yet counted as persisted or dropped.
  function Unclassified(x: Stream): seq<Event> {
    if x.worker.Classifying? || x.worker.Stored? || x.worker.Lost? then x.worker.load else []
  }

  // Counted as sent, dropped or persisted.
  function SettledWeight(m: Measure, l: Ledger): nat {
    Weight(m, l.sent) + Weight(m, l.dropped) + Weight(m, l.persisted)
  }

  function InProducers(m: Measure, ps: seq<Producer>): nat {
    if ps == [] then 0 else InProducers(m, ps[..|ps| - 1]) + ProducerWeight(m, ps[|ps| - 1])
  }

  lemma {:induction false} ProducersUpdate(m: Measure, ps: seq<Producer>, i: nat, x: Producer)
    requires i < |ps|
    ensures InProducers(m, ps[i := x]) + ProducerWeight(m, ps[i]) == InProducers(m, ps) + ProducerWeight(m, x)
  {
    var n := |ps| - 1;
    if i == n {
      assert ps[i := x][..n] == ps[..n];
    } else {
      assert ps[i := x][..n] == ps[..n][i := x];
      ProducersUpdate(m, ps[..n], i, x);
    }
  }

  function InStreams(m: Measure, xs: seq<Stream>): nat {
    if xs == [] then 0 else InStreams(m, xs[..|xs| - 1]) + StreamWeight(m, xs[|xs| - 1])
  }

  lemma {:induction false} StreamsUpdate(m: Measure, xs: seq<Stream>, i: nat, x: Stream)
    requires i < |xs|
    ensures InStreams(m, xs[i := x]) + StreamWeight(m, xs[i]) == InStreams(m, xs) + StreamWeight(m, x)
  {
    var n := |xs| - 1;
    if i == n {
      assert xs[i := x][..n] == xs[..n];
    } else {
      assert xs[i := x][..n] == xs[..n][i := x];
      StreamsUpdate(m, xs[..n], i, x);
    }
  }

  function InDoubt(m: Measure, xs: seq<Stream>): nat {
    if xs == [] then 0 else InDoubt(m, xs[..|xs| - 1]) + Weight(m, Unclassified(xs[|xs| - 1]))
  }

  lemma {:induction false} InDoubtUpdate(m: Measure, xs: seq<Stream>, i: nat, x: Stream)
    requires i < |xs|
    ensures InDoubt(m, xs[i := x]) + Weight(m, Unclassified(xs[i])) == InDoubt(m, xs) + Weight(m, Unclassified(x))
  {
    var n := |xs| - 1;
    if i == n {
      assert xs[i := x][..n] == xs[..n];
    } else {
      assert xs[i := x][..n] == xs[..n][i := x];
      InDoubtUpdate(m, xs[..n], i, x);
    }
  }

  // ---------------------------------------------------------------- invariants

  // The events 0 .. n-1, once each.
  function FirstEvents(m: Measure, n: nat): nat {
    match m
    case Of(e) => if e < n then 1 else 0
    case Size => n
  }

  function Places(m: Measure, st: State): nat {
    InProducers(m, st.producers) + InStreams(m, st.streams) + SettledWeight(m, st.ledger)
  }

  ghost predicate Balanced(st: State) {
    forall m :: Places(m, st) == FirstEvents(m, st.captured)
  }

  function FailedPlaces(m: Measure, st: State): nat {
    Weight(m, st.ledger.persisted) + Weight(m, st.ledger.lost) + InDoubt(m, st.streams)
  }

  ghost predicate FailedBalance(m: Measure, st: State) {
    && Weight(m, st.ledger.failed) == FailedPlaces(m, st)
    && Weight(m, st.ledger.lost) <= Weight(m, st.ledger.dropped)
  }

  ghost predicate FailuresBalanced(st: State) {
    forall m :: FailedBalance(m, st)
  }

  ghost predicate CountersAgree(st: State) {
    && st.sent == |st.ledger.sent|
    && st.dropped == |st.ledger.dropped| + st.ledger.phantom
    && st.persisted == |st.ledger.persisted|
    && st.failed == |st.ledger.failed|
  }

  function Events(popped: seq<Pop>): seq<Event> {
    seq(|popped|, i requires 0 <= i < |popped| => popped[i].event)
  }

  // The events the worker received, in the order it received them.
  function Taken(popped: seq<Pop>): seq<Event> {
    if popped == [] then []
    else
      var last := popped[|popped| - 1];
      Taken(popped[..|popped| - 1]) + (if last.evicted then [] else [last.event])
  }

  function Flatten(batches: seq<seq<Event>>): seq<Event> {
    if batches == [] then [] else Flatten(batches[..|batches| - 1]) + batches[|batches| - 1]
  }

  function Pending(w: Worker): seq<Event> {
    if w.Receiving? then w.batch else []
  }

  ghost predicate WorkerOk(size: nat, x: Stream) {
    match x.worker
    case Receiving(b) => |b| < size
    case Exited => x.closed && x.queue == []
    case w =>
      && 1 <= |w.load| <= size
      && x.handed != [] && x.handed[|x.handed| - 1] == w.load
      && (w.last ==> x.closed && x.queue == [])
  }

  ghost predicate StreamOk(capacity: nat, size: nat, x: Stream) {
    && |x.queue| <= capacity
    && x.enqueued == Events(x.popped) + x.queue
    && Flatten(x.handed) + Pending(x.worker) == Taken(x.popped)
    && (forall b :: b in x.handed ==> 1 <= |b| <= size)
    && WorkerOk(size, x)
  }

  ghost predicate ProducerOk(n: nat, x: Producer) {
    match x
    case Admitted(s) => s < n
    case Captured(s, _) => s < n
    case PopOldest(s, _) => s < n
    case CountEvicted(s, _, _) => s < n
    case SecondPush(s, _) => s < n
    case _ => true
  }

  ghost predicate StreamsOk(c: Config, st: State) {
    && |st.streams| == |c.batch|
    && (forall s :: 0 <= s < |st.streams| ==> StreamOk(c.capacity, c.batch[s], st.streams[s]))
    && (forall p :: 0 <= p < |st.producers| ==> ProducerOk(|st.streams|, st.producers[p]))
  }

  ghost predicate Inv(c: Config, st: State) {
    && StreamsOk(c, st)
    && Balanced(st)
    && FailuresBalanced(st)
    && CountersAgree(st)
  }

  // ---------------------------------------------------------------- one step

  // What producer p, stream s and the ledger account for.
  function Near(m: Measure, st: State, p: nat, s: nat): nat
    requires p < |st.producers| && s < |st.streams|
  {
    ProducerWeight(m, st.producers[p]) + StreamWeight(m, st.streams[s]) + SettledWeight(m, st.ledger)
  }

  lemma PlacesStep(m: Measure, st: State, st': State, p: nat, s: nat)
    requires p < |st.producers| == |st'.producers| && st'.producers == st.producers[p := st'.producers[p]]
    requires s < |st.streams| == |st'.streams| && st'.streams == st.streams[s := st'.streams[s]]
    ensures Places(m, st') + Near(m, st, p, s) == Places(m, st) + Near(m, st', p, s)
  {
    ProducersUpdate(m, st.producers, p, st'.producers[p]);
    StreamsUpdate(m, st.streams, s, st'.streams[s]);
  }

  lemma EnqueueWeight(m: Measure, x: Stream, e: Event)
    ensures StreamWeight(m, x.(queue := x.queue + [e], enqueued := x.enqueued + [e]))
         == StreamWeight(m, x) + One(m, e)
  {
    WeightAppend(m, x.queue, [e]);
    assert [e][..0] == [];
  }

  lemma PushKeepsPlaces(m: Measure, c: Config, st: State, p: nat)
    requires p < |st.producers| && ProducerEnabled(st, st.producers[p], Push)
    ensures Places(m, ApplyPush(c, st, p)) == Places(m, st)
  {
    hide InProducers, InStreams, Weight;
    var x, s := st.producers[p], st.producers[p].s;
    var st' := ApplyPush(c, st, p);
    PlacesStep(m, st, st', p, s);
    assert st'.ledger == st.ledger;
    if st'.producers[p].Idle? {
      EnqueueWeight(m, st.streams[s], x.e);
      assert ProducerWeight(m, x) == One(m, x.e);
    } else {
      assert st'.streams[s] == st.streams[s];
      assert ProducerWeight(m, x) == One(m, x.e) == ProducerWeight(m, st'.producers[p]);
    }
  }

  lemma PullKeepsPlaces(m: Measure, st: State, p: nat)
    requires p < |st.producers| && ProducerEnabled(st, st.producers[p], Pull)
    ensures Places(m, ApplyPull(st, p)) == Places(m, st)
  {
    hide InProducers, InStreams, Weight;
    var s := st.producers[p].s;
    var x, x' := st.streams[s], ApplyPull(st, p).streams[s];
    PlacesStep(m, st, ApplyPull(st, p), p, s);
    if x.queue != [] {
      WeightHead(m, x.queue);
      assert StreamWeight(m, x) == StreamWeight(m, x') + One(m, x.queue[0]);
    }
  }

  lemma DropWeight(m: Measure, l: Ledger, e: Event)
    ensures SettledWeight(m, l.(dropped := l.dropped + [e])) == SettledWeight(m, l) + One(m, e)
  {
    WeightAppend(m, l.dropped, [e]);
    assert [e][..0] == [];
  }

  lemma TallyKeepsPlaces(m: Measure, c: Config, st: State, p: nat)
    requires p < |st.producers| && ProducerEnabled(st, st.producers[p], Tally)
    ensures Places(m, ApplyProducer(c, st, p, Tally)) == Places(m, st)
  {
    hide InProducers, InStreams, FirstEvents, Weight, SettledWeight;
    var st' := ApplyProducer(c, st, p, Tally);
    var x := st.producers[p];
    ProducersUpdate(m, st.producers, p, st'.producers[p]);
    if x.CountDropped? {
      DropWeight(m, st.ledger, x.e);
    } else if x.head.Some? {
      DropWeight(m, st.ledger, x.head.value);
    } else {
      PhantomWeighsNothing(m, st.ledger);
    }
  }

  lemma PhantomWeighsNothing(m: Measure, l: Ledger)
    ensures SettledWeight(m, l.(phantom := l.phantom + 1)) == SettledWeight(m, l)
  {
  }

  lemma ProducerKeepsPlaces(m: Measure, c: Config, st: State, p: nat, pm: ProducerMove)
    requires p < |st.producers| && ProducerEnabled(st, st.producers[p], pm)
    ensures var st' := ApplyProducer(c, st, p, pm);
      Places(m, st') + FirstEvents(m, st.captured) == Places(m, st) + FirstEvents(m, st'.captured)
  {
    hide InProducers, InStreams, Weight;
    match pm
    case Push => PushKeepsPlaces(m, c, st, p);
    case Pull => PullKeepsPlaces(m, st, p);
    case Tally => TallyKeepsPlaces(m, c, st, p);
    case _ =>
      var st' := ApplyProducer(c, st, p, pm);
      ProducersUpdate(m, st.producers, p, st'.producers[p]);
      assert st.producers == st.producers[p := st.producers[p]];
  }

  lemma AddKeepsSettled(m: Measure, st: State, s: nat)
    requires s < |st.streams| && WorkerEnabled(st.streams[s], Add)
    ensures SettledWeight(m, ApplyAdd(st, s).ledger) + StreamWeight(m, ApplyAdd(st, s).streams[s])
         == SettledWeight(m, st.ledger) + StreamWeight(m, st.streams[s])
  {
    var w, w' := st.streams[s].worker, ApplyAdd(st, s).streams[s].worker;
    var l, l' := st.ledger, ApplyAdd(st, s).ledger;
    if w.Refused? {
      assert l' == l.(failed := l'.failed) && Load(w') == Load(w);
    } else {
      assert Load(w') == [];
      WeightAppend(m, if w.Accepted? then l.sent else if w.Stored? then l.persisted else l.dropped, w.load);
    }
  }

  lemma AddKeepsPlaces(m: Measure, st: State, s: nat)
    requires s < |st.streams| && WorkerEnabled(st.streams[s], Add)
    ensures Places(m, ApplyAdd(st, s)) == Places(m, st)
  {
    hide InProducers, InStreams, FirstEvents;
    StreamsUpdate(m, st.streams, s, ApplyAdd(st, s).streams[s]);
    AddKeepsSettled(m, st, s);
  }

  lemma StreamMoveKeepsWeight(m: Measure, size: nat, x: Stream, wm: WorkerMove)
    requires WorkerEnabled(x, wm) && !wm.Add?
    ensures StreamWeight(m, StreamAfter(size, x, wm)) == StreamWeight(m, x)
  {
    if wm.Receive? && x.queue != [] {
      WeightHead(m, x.queue);
      WeightAppend(m, x.worker.batch, [x.queue[0]]);
      assert [x.queue[0]][..0] == [];
    }
  }

  lemma StepKeepsBalance(c: Config, st: State, a: Action)
    requires |st.streams| == |c.batch| && Balanced(st) && Enabled(st, a)
    ensures Balanced(Apply(c, st, a))
  {
    hide InProducers, InStreams, Weight;
    var st' := Apply(c, st, a);
    forall m
      ensures Places(m, st') == FirstEvents(m, st'.captured)
    {
      assert Places(m, st) == FirstEvents(m, st.captured);
      match a
      case Produce(p, pm) => ProducerKeepsPlaces(m, c, st, p, pm);
      case Work(s, Add) => AddKeepsPlaces(m, st, s);
      case Work(s, wm) =>
        StreamMoveKeepsWeight(m, c.batch[s], st.streams[s], wm);
        StreamsUpdate(m, st.streams, s, st'.streams[s]);
      case Shut =>
      case CloseChannel(s) => StreamsUpdate(m, st.streams, s, st'.streams[s]);
    }
  }

  lemma FailedStep(m: Measure, st: State, st': State, s: nat)
    requires s < |st.streams| == |st'.streams| && st'.streams == st.streams[s := st'.streams[s]]
    requires st'.streams[s].worker == st.streams[s].worker
    requires st'.ledger.persisted == st.ledger.persisted && st'.ledger.lost == st.ledger.lost
    ensures FailedPlaces(m, st') == FailedPlaces(m, st)
  {
    InDoubtUpdate(m, st.streams, s, st'.streams[s]);
  }

  lemma WeightGrows(m: Measure, q: seq<Event>, q': seq<Event>)
    requires q <= q'
    ensures Weight(m, q) <= Weight(m, q')
  {
    assert q' == q + q'[|q|..];
    WeightAppend(m, q, q'[|q|..]);
  }

  // A producer changes no worker, and of the ledger only adds to dropped.
  lemma ProducerKeepsFailures(m: Measure, c: Config, st: State, p: nat, pm: ProducerMove)
    requires p < |st.producers| && ProducerEnabled(st, st.producers[p], pm)
    ensures var st' := ApplyProducer(c, st, p, pm);
      && FailedPlaces(m, st') == FailedPlaces(m, st)
      && st'.ledger.failed == st.ledger.failed && st'.ledger.lost == st.ledger.lost
      && Weight(m, st.ledger.dropped) <= Weight(m, st'.ledger.dropped)
  {
    hide InDoubt, Weight;
    match pm
    case Push => FailedStep(m, st, ApplyPush(c, st, p), st.producers[p].s);
    case Pull => FailedStep(m, st, ApplyPull(st, p), st.producers[p].s);
    case Tally =>
      WeightGrows(m, st.ledger.dropped, ApplyProducer(c, st, p, pm).ledger.dropped);
    case _ =>
  }

  lemma AddKeepsFailures(m: Measure, st: State, s: nat)
    requires s < |st.streams| && WorkerEnabled(st.streams[s], Add)
    ensures var l, l' := st.ledger, ApplyAdd(st, s).ledger;
      && FailedPlaces(m, ApplyAdd(st, s)) + Weight(m, l.failed) == FailedPlaces(m, st) + Weight(m, l'.failed)
      && Weight(m, l'.lost) + Weight(m, l.dropped) <= Weight(m, l.lost) + Weight(m, l'.dropped)
  {
    hide InDoubt;
    var load := st.streams[s].worker.load;
    InDoubtUpdate(m, st.streams, s, ApplyAdd(st, s).streams[s]);
    WeightAppend(m, st.ledger.failed, load);
    WeightAppend(m, st.ledger.persisted, load);
    WeightAppend(m, st.ledger.lost, load);
    WeightAppend(m, st.ledger.dropped, load);
  }

  lemma StreamMoveKeepsFailures(m: Measure, size: nat, st: State, s: nat, wm: WorkerMove)
    requires s < |st.streams| && WorkerEnabled(st.streams[s], wm) && !wm.Add?
    requires FailedBalance(m, st)
    ensures FailedBalance(m, WithStream(st, s, StreamAfter(size, st.streams[s], wm)))
  {
    hide InDoubt, Weight;
    InDoubtUpdate(m, st.streams, s, StreamAfter(size, st.streams[s], wm));
  }

  lemma StepKeepsFailures(c: Config, st: State, a: Action)
    requires |st.streams| == |c.batch| && FailuresBalanced(st) && Enabled(st, a)
    ensures FailuresBalanced(Apply(c, st, a))
  {
    hide InDoubt, Weight;
    forall m
      ensures FailedBalance(m, Apply(c, st, a))
    {
      assert FailedBalance(m, st);
      match a
      case Produce(p, pm) => ProducerKeepsFailures(m, c, st, p, pm);
      case Work(s, Add) => AddKeepsFailures(m, st, s);
      case Work(s, wm) => StreamMoveKeepsFailures(m, c.batch[s], st, s, wm);
      case Shut =>
      case CloseChannel(s) => FailedStep(m, st, Apply(c, st, a), s);
    }
  }

  lemma AddKeepsCounters(st: State, s: nat)
    requires s < |st.streams| && WorkerEnabled(st.streams[s], Add) && CountersAgree(st)
    ensures CountersAgree(ApplyAdd(st, s))
  {
  }

  lemma StepKeepsCounters(c: Config, st: State, a: Action)
    requires |st.streams| == |c.batch| && CountersAgree(st) && Enabled(st, a)
    ensures CountersAgree(Apply(c, st, a))
  {
    match a
    case Work(s, Add) =>
      AddKeepsCounters(st, s);
      hide ApplyAdd;
    case _ =>
  }

  // Taking the head of the queue, by the worker or by an eviction.
  lemma PopKeepsOrder(popped: seq<Pop>, queue: seq<Event>, evicted: bool)
    requires queue != []
    ensures var longer := popped + [Pop(queue[0], evicted)];
      && Events(longer) + queue[1..] == Events(popped) + queue
      && Taken(longer) == Taken(popped) + (if evicted then [] else [queue[0]])
  {
    var longer := popped + [Pop(queue[0], evicted)];
    assert Events(longer) == Events(popped) + [queue[0]];
    assert longer[..|longer| - 1] == popped;
  }

  lemma FlushKeepsOk(capacity: nat, size: nat, x: Stream, last: bool)
    requires x.worker.Receiving? && |x.worker.batch| <= size && size >= 1
    requires |x.queue| <= capacity && x.enqueued == Events(x.popped) + x.queue
    requires Flatten(x.handed) + x.worker.batch == Taken(x.popped)
    requires forall b :: b in x.handed ==> 1 <= |b| <= size
    requires last ==> x.closed && x.queue == []
    ensures StreamOk(capacity, size, Flush(x, last))
  {
    var y := Flush(x, last);
    if x.worker.batch != [] {
      assert y.handed[..|y.handed| - 1] == x.handed;
      assert Flatten(y.handed) == Flatten(x.handed) + x.worker.batch;
    }
  }

  lemma WorkerKeepsStream(capacity: nat, size: nat, x: Stream, m: WorkerMove)
    requires size >= 1 && StreamOk(capacity, size, x) && WorkerEnabled(x, m) && !m.Add?
    ensures StreamOk(capacity, size, StreamAfter(size, x, m))
  {
    hide Flatten, Taken, Events;
    if m.Receive? && x.queue != [] {
      PopKeepsOrder(x.popped, x.queue, false);
      var y := x.(queue := x.queue[1..],
                  popped := x.popped + [Pop(x.queue[0], false)],
                  worker := Receiving(x.worker.batch + [x.queue[0]]));
      assert Flatten(y.handed) + y.worker.batch == Flatten(x.handed) + x.worker.batch + [x.queue[0]];
      if |y.worker.batch| >= size {
        FlushKeepsOk(capacity, size, y, false);
      }
    } else if m.Receive? {
      FlushKeepsOk(capacity, size, x, true);
    } else if m.Tick? {
      FlushKeepsOk(capacity, size, x, false);
    }
  }

  lemma PushKeepsOk(c: Config, size: nat, x: Stream, e: Event)
    requires StreamOk(c.capacity, size, x) && !x.closed && |x.queue| < c.capacity
    ensures StreamOk(c.capacity, size, x.(queue := x.queue + [e], enqueued := x.enqueued + [e]))
  {
    assert Events(x.popped) + (x.queue + [e]) == (Events(x.popped) + x.queue) + [e];
  }

  lemma PullKeepsOk(c: Config, size: nat, x: Stream)
    requires StreamOk(c.capacity, size, x) && x.queue != []
    ensures StreamOk(c.capacity, size,
                     x.(queue := x.queue[1..], popped := x.popped + [Pop(x.queue[0], true)]))
  {
    PopKeepsOrder(x.popped, x.queue, true);
  }

  lemma UpdateKeepsStreams(c: Config, st: State, st': State, s: nat, y: Stream)
    requires StreamsOk(c, st) && st'.producers == st.producers
    requires s < |st.streams| && st'.streams == st.streams[s := y] && StreamOk(c.capacity, c.batch[s], y)
    ensures StreamsOk(c, st')
  {
  }

  lemma ProducerKeepsStreams(c: Config, st: State, p: nat, m: ProducerMove)
    requires StreamsOk(c, st) && p < |st.producers| && ProducerEnabled(st, st.producers[p], m)
    ensures StreamsOk(c, ApplyProducer(c, st, p, m))
  {
    hide StreamOk;
    var x := st.producers[p];
    var st' := ApplyProducer(c, st, p, m);
    var st1 := st.(producers := st'.producers);
    assert ProducerOk(|st.streams|, x);
    assert ProducerOk(|st.streams|, st'.producers[p]);
    assert StreamsOk(c, st1);
    if m.Push? && !st.streams[x.s].closed && |st.streams[x.s].queue| < c.capacity {
      PushKeepsOk(c, c.batch[x.s], st.streams[x.s], x.e);
      UpdateKeepsStreams(c, st1, st', x.s, st'.streams[x.s]);
    } else if m.Pull? && st.streams[x.s].queue != [] {
      PullKeepsOk(c, c.batch[x.s], st.streams[x.s]);
      UpdateKeepsStreams(c, st1, st', x.s, st'.streams[x.s]);
    } else {
      assert st'.streams == st.streams;
    }
  }

  lemma AddKeepsStream(st: State, s: nat, capacity: nat, size: nat)
    requires s < |st.streams| && WorkerEnabled(st.streams[s], Add) && size >= 1
    requires StreamOk(capacity, size, st.streams[s])
    ensures StreamOk(capacity, size, ApplyAdd(st, s).streams[s])
  {
  }

  lemma StepKeepsStreams(c: Config, st: State, a: Action)
    requires ValidConfig(c) && StreamsOk(c, st) && Enabled(st, a)
    ensures StreamsOk(c, Apply(c, st, a))
  {
    var st' := Apply(c, st, a);
    match a
    case Produce(p, m) => ProducerKeepsStreams(c, st, p, m);
    case Work(s, m) =>
      if m.Add? {
        AddKeepsStream(st, s, c.capacity, c.batch[s]);
      } else {
        WorkerKeepsStream(c.capacity, c.batch[s], st.streams[s], m);
      }
      UpdateKeepsStreams(c, st, st', s, st'.streams[s]);
    case Shut =>
    case CloseChannel(s) => UpdateKeepsStreams(c, st, st', s, st'.streams[s]);
  }

  lemma StepKeepsInv(c: Config, st: State, a: Action)
    requires ValidConfig(c) && Inv(c, st) && Enabled(st, a)
    ensures Inv(c, Apply(c, st, a))
  {
    StepKeepsStreams(c, st, a);
    StepKeepsFailures(c, st, a);
    StepKeepsCounters(c, st, a);
    StepKeepsBalance(c, st, a);
  }
}
