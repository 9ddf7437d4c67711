/**
 * The in-memory event pipeline: five bounded channels, any number of capturing
 * goroutines, one worker goroutine per channel, the shared counters and Close.
 *
 * Every channel operation, counter update and transport return is one atomic
 * step, so a run of the machine is one interleaving of the program. The counters
 * are kept as the program keeps them; next to them the state records where each
 * event went, and the theorems say that the two never disagree.
 */
module Pipeline {

  // ---------------------------------------------------------------- state

  // An event is named by the value of the captured counter when it was counted.
  type Event = nat

  datatype Option<T> = None | Some(value: T)

  // batch[s] is the batch size of stream s. A single-event worker behaves as a
  // batch worker of size one: its batch is empty whenever it is receiving.
  datatype Config = Config(capacity: nat, batch: seq<nat>)

  const ERRORS: nat := 0

  // The defaults applied by the configuration keep both numbers positive.
  ghost predicate ValidConfig(c: Config) {
    && c.capacity >= 1
    && |c.batch| > 0
    && forall s :: 0 <= s < |c.batch| ==> c.batch[s] >= 1
  }

  // Where a capturing goroutine stands inside one Capture call.
  datatype Producer =
    | Idle
    | Admitted(s: nat)                                     // saw closed == false
    | Captured(s: nat, e: Event)                           // counted; first select next
    | PopOldest(s: nat, e: Event)                          // channel was full
    | CountEvicted(s: nat, e: Event, head: Option<Event>)   // popped; dropped.Add next
    | SecondPush(s: nat, e: Event)
    | CountDropped(e: Event)                               // not enqueued; dropped.Add next
    | Panicked(e: Event)                                   // sent on a closed channel

  // Where a worker goroutine stands. `last` marks the flush made on channel close.
  datatype Worker =
    | Receiving(batch: seq<Event>)
    | Sending(load: seq<Event>, last: bool)
    | Accepted(load: seq<Event>, last: bool)
    | Refused(load: seq<Event>, last: bool, permanent: bool)
    | Classifying(load: seq<Event>, last: bool, permanent: bool)
    | Stored(load: seq<Event>, last: bool)
    | Lost(load: seq<Event>, last: bool)
    | Exited

  datatype Pop = Pop(event: Event, evicted: bool)

  // A channel with its worker, and the history of the channel: all events ever
  // enqueued, all events ever removed from its head, all batches handed to send.
  datatype Stream = Stream(
    queue: seq<Event>,
    closed: bool,
    worker: Worker,
    enqueued: seq<Event>,
    popped: seq<Pop>,
    handed: seq<seq<Event>>)

  // Which events each counter has counted. `lost` are the drops that followed a
  // failed send; `phantom` counts zero values received from a closed channel.
  datatype Ledger = Ledger(
    sent: seq<Event>,
    dropped: seq<Event>,
    persisted: seq<Event>,
    failed: seq<Event>,
    lost: seq<Event>,
    phantom: nat)

  datatype State = State(
    shut: bool,
    producers: seq<Producer>,
    streams: seq<Stream>,
    captured: nat,
    sent: nat,
    dropped: nat,
    persisted: nat,
    failed: nat,
    ledger: Ledger)

  function Initial(c: Config, producers: nat): State {
    State(false,
          seq(producers, _ => Idle),
          seq(|c.batch|, _ => Stream([], false, Receiving([]), [], [], [])),
          0, 0, 0, 0, 0,
          Ledger([], [], [], [], [], 0))
  }

  // ---------------------------------------------------------------- steps

  datatype Outcome = Delivered | PermanentFailure | TransientFailure

  datatype ProducerMove =
    | Check(s: nat)     // closed.Load()
    | Count             // captured.Add(1)
    | Discard           // sampled out, or BeforeSend returned nil (errors only)
    | Push              // select { case ch <- &p: default: }
    | Pull              // select { case <-ch: default: }
    | Tally             // dropped.Add(1)

  datatype WorkerMove =
    | Receive                 // item, ok := <-ch
    | Tick                    // <-ticker.C
    | Returns(o: Outcome)     // transport.send returned
    | Persist(ok: bool)       // persistOnFailure returned
    | Add                     // one counter update

  datatype Action =
    | Produce(p: nat, pm: ProducerMove)
    | Work(s: nat, wm: WorkerMove)
    | Shut                    // closed.Store(true)
    | CloseChannel(ch: nat)

  predicate ProducerEnabled(st: State, x: Producer, m: ProducerMove) {
    match m
    case Check(s) => x.Idle? && s < |st.streams|
    case Count => x.Admitted?
    case Discard => x.Captured? && x.s == ERRORS
    case Push => (x.Captured? || x.SecondPush?) && x.s < |st.streams|
    case Pull => x.PopOldest? && x.s < |st.streams|
    case Tally => x.CountEvicted? || x.CountDropped?
  }

  predicate WorkerEnabled(x: Stream, m: WorkerMove) {
    match m
    case Receive => x.worker.Receiving? && (x.queue != [] || x.closed)
    case Tick => x.worker.Receiving?
    case Returns(_) => x.worker.Sending?
    case Persist(_) => x.worker.Classifying?
    case Add => x.worker.Accepted? || x.worker.Refused? || x.worker.Stored? || x.worker.Lost?
  }

  predicate Enabled(st: State, a: Action) {
    match a
    case Produce(p, m) => p < |st.producers| && ProducerEnabled(st, st.producers[p], m)
    case Work(s, m) => s < |st.streams| && WorkerEnabled(st.streams[s], m)
    case Shut => true
    case CloseChannel(s) =>
      && s < |st.streams| && st.shut && !st.streams[s].closed
      && forall t :: 0 <= t < s ==> st.streams[t].closed
  }

  function WithProducer(st: State, p: nat, x: Producer): State
    requires p < |st.producers|
  {
    st.(producers := st.producers[p := x])
  }

  function WithStream(st: State, s: nat, x: Stream): State
    requires s < |st.streams|
  {
    st.(streams := st.streams[s := x])
  }

  function ApplyProducer(c: Config, st: State, p: nat, m: ProducerMove): State
    requires p < |st.producers| && ProducerEnabled(st, st.producers[p], m)
  {
    var x := st.producers[p];
    match m
    case Check(s) => if st.shut then st else WithProducer(st, p, Admitted(s))
    case Count => WithProducer(st, p, Captured(x.s, st.captured)).(captured := st.captured + 1)
    case Discard => WithProducer(st, p, CountDropped(x.e))
    case Push => ApplyPush(c, st, p)
    case Pull => ApplyPull(st, p)
    case Tally =>
      if x.CountDropped? then
        WithProducer(st, p, Idle).(
          dropped := st.dropped + 1,
          ledger := st.ledger.(dropped := st.ledger.dropped + [x.e]))
      else
        WithProducer(st, p, SecondPush(x.s, x.e)).(
          dropped := st.dropped + 1,
          ledger := match x.head
                    case Some(e) => st.ledger.(dropped := st.ledger.dropped + [e])
                    case None => st.ledger.(phantom := st.ledger.phantom + 1))
  }

  // A send on a closed channel panics, also inside a select with a default.
  function ApplyPush(c: Config, st: State, p: nat): State
    requires p < |st.producers|
    requires st.producers[p].Captured? || st.producers[p].SecondPush?
    requires st.producers[p].s < |st.streams|
  {
    var x := st.producers[p];
    var ch := st.streams[x.s];
    if ch.closed then WithProducer(st, p, Panicked(x.e))
    else if |ch.queue| < c.capacity then
      WithStream(WithProducer(st, p, Idle), x.s,
                 ch.(queue := ch.queue + [x.e], enqueued := ch.enqueued + [x.e]))
    else if x.Captured? then WithProducer(st, p, PopOldest(x.s, x.e))
    else WithProducer(st, p, CountDropped(x.e))
  }

  // A receive from a closed, empty channel succeeds with a zero value.
  function ApplyPull(st: State, p: nat): State
    requires p < |st.producers| && st.producers[p].PopOldest?
    requires st.producers[p].s < |st.streams|
  {
    var x := st.producers[p];
    var ch := st.streams[x.s];
    if ch.queue != [] then
      WithStream(WithProducer(st, p, CountEvicted(x.s, x.e, Some(ch.queue[0]))), x.s,
                 ch.(queue := ch.queue[1..], popped := ch.popped + [Pop(ch.queue[0], true)]))
    else if ch.closed then WithProducer(st, p, CountEvicted(x.s, x.e, None))
    else WithProducer(st, p, SecondPush(x.s, x.e))
  }

  function Resume(last: bool): Worker {
    if last then Exited else Receiving([])
  }

  // flush(): nothing for an empty batch, otherwise the batch goes to send.
  function Flush(x: Stream, last: bool): Stream
    requires x.worker.Receiving?
  {
    var b := x.worker.batch;
    if b == [] then x.(worker := Resume(last))
    else x.(worker := Sending(b, last), handed := x.handed + [b])
  }

  // The moves of a worker that leave the counters alone.
  function StreamAfter(size: nat, x: Stream, m: WorkerMove): Stream
    requires WorkerEnabled(x, m) && !m.Add?
  {
    match m
    case Receive =>
      if x.queue == [] then Flush(x, true)
      else
        var y := x.(queue := x.queue[1..],
                    popped := x.popped + [Pop(x.queue[0], false)],
                    worker := Receiving(x.worker.batch + [x.queue[0]]));
        if |y.worker.batch| >= size then Flush(y, false) else y
    case Tick => Flush(x, false)
    case Returns(o) =>
      var w := x.worker;
      x.(worker := match o
                   case Delivered => Accepted(w.load, w.last)
                   case PermanentFailure => Refused(w.load, w.last, true)
                   case TransientFailure => Refused(w.load, w.last, false))
    case Persist(ok) =>
      var w := x.worker;
      x.(worker := if w.permanent || !ok then Lost(w.load, w.last) else Stored(w.load, w.last))
  }

  function ApplyAdd(st: State, s: nat): State
    requires s < |st.streams| && WorkerEnabled(st.streams[s], Add)
  {
    var x := st.streams[s];
    var w := x.worker;
    var l := st.ledger;
    match w
    case Accepted(load, last) =>
      WithStream(st, s, x.(worker := Resume(last))).(
        sent := st.sent + |load|, ledger := l.(sent := l.sent + load))
    case Refused(load, last, permanent) =>
      WithStream(st, s, x.(worker := Classifying(load, last, permanent))).(
        failed := st.failed + |load|, ledger := l.(failed := l.failed + load))
    case Stored(load, last) =>
      WithStream(st, s, x.(worker := Resume(last))).(
        persisted := st.persisted + |load|, ledger := l.(persisted := l.persisted + load))
    case Lost(load, last) =>
      WithStream(st, s, x.(worker := Resume(last))).(
        dropped := st.dropped + |load|,
        ledger := l.(dropped := l.dropped + load, lost := l.lost + load))
  }

  function Apply(c: Config, st: State, a: Action): State
    requires Enabled(st, a)
    requires |c.batch| == |st.streams|
  {
    match a
    case Produce(p, m) => ApplyProducer(c, st, p, m)
    case Work(s, m) =>
      if m.Add? then ApplyAdd(st, s)
      else WithStream(st, s, StreamAfter(c.batch[s], st.streams[s], m))
    case Shut => st.(shut := true)
    case CloseChannel(s) => WithStream(st, s, st.streams[s].(closed := true))
  }

  // A run: each action is enabled where it is taken.
  ghost predicate IsRun(c: Config, st: State, acts: seq<Action>)
    requires |c.batch| == |st.streams|
    decreases |acts|
  {
    acts != [] ==> Enabled(st, acts[0]) && IsRun(c, Apply(c, st, acts[0]), acts[1..])
  }

  ghost function After(c: Config, st: State, acts: seq<Action>): State
    requires |c.batch| == |st.streams|
    requires IsRun(c, st, acts)
    decreases |acts|
  {
    if acts == [] then st else After(c, Apply(c, st, acts[0]), acts[1..])
  }

  ghost predicate Reachable(c: Config, n: nat, st: State) {
    exists acts :: IsRun(c, Initial(c, n), acts) && After(c, Initial(c, n), acts) == st
  }
}
