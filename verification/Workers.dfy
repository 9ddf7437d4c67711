/**
 * The two worker loops. A loop is driven by what its select yields and by how its
 * sends and its writes to the offline spool turn out; it is proved to hand over
 * exactly the batches of a simple greedy cut, to count every event once, and to
 * take the steps of the pipeline machine.
 */
module Workers {
  import opened Pipeline
  import opened PipelineSafety
  import opened PipelineRuns

  // What one round of the receive loop yields. The channel is closed after the last.
  datatype Signal = Item(e: Event) | Ticker

  // How one send ends, and what persistOnFailure would find on the disk.
  datatype Attempt = Attempt(outcome: Outcome, stored: bool)

  datatype Totals = Totals(sent: nat, failed: nat, persisted: nat, dropped: nat)

  function Settle(t: Totals, n: nat, a: Attempt): Totals {
    match a
    case Attempt(Delivered, _) => t.(sent := t.sent + n)
    case Attempt(TransientFailure, true) => t.(failed := t.failed + n, persisted := t.persisted + n)
    case _ => t.(failed := t.failed + n, dropped := t.dropped + n)
  }

  // The counters after the given loads, load k being settled by attempts(k).
  function Account(t: Totals, loads: seq<seq<Event>>, attempts: nat -> Attempt): Totals {
    if loads == [] then t
    else
      var k := |loads| - 1;
      Settle(Account(t, loads[..k], attempts), |loads[k]|, attempts(k))
  }

  // The sizes of the loads that were delivered; of those that failed for now and could
  // be stored; and of all others.
  function DeliveredTotal(loads: seq<seq<Event>>, attempts: nat -> Attempt): nat {
    if loads == [] then 0
    else
      var k := |loads| - 1;
      DeliveredTotal(loads[..k], attempts) + (if attempts(k).outcome == Delivered then |loads[k]| else 0)
  }

  function StoredTotal(loads: seq<seq<Event>>, attempts: nat -> Attempt): nat {
    if loads == [] then 0
    else
      var k := |loads| - 1;
      StoredTotal(loads[..k], attempts)
      + (if attempts(k).outcome == TransientFailure && attempts(k).stored then |loads[k]| else 0)
  }

  function LostTotal(loads: seq<seq<Event>>, attempts: nat -> Attempt): nat {
    if loads == [] then 0
    else
      var k := |loads| - 1;
      LostTotal(loads[..k], attempts)
      + (if attempts(k).outcome == PermanentFailure
            || (attempts(k).outcome == TransientFailure && !attempts(k).stored) then |loads[k]| else 0)
  }

  // What each counter counts.
  lemma {:induction false} AccountIs(t: Totals, loads: seq<seq<Event>>, attempts: nat -> Attempt)
    ensures var u := Account(t, loads, attempts);
      && u.sent == t.sent + DeliveredTotal(loads, attempts)
      && u.persisted == t.persisted + StoredTotal(loads, attempts)
      && u.dropped == t.dropped + LostTotal(loads, attempts)
      && u.failed == t.failed + StoredTotal(loads, attempts) + LostTotal(loads, attempts)
  {
    if loads != [] {
      AccountIs(t, loads[..|loads| - 1], attempts);
    }
  }

  // Every event of every load is counted once as sent, persisted or dropped, and
  // as failed exactly when it was not sent.
  lemma {:induction false} AccountConserves(t: Totals, loads: seq<seq<Event>>, attempts: nat -> Attempt)
    ensures var u := Account(t, loads, attempts);
      && (u.sent - t.sent) + (u.persisted - t.persisted) + (u.dropped - t.dropped) == |Flatten(loads)|
      && u.failed - t.failed == (u.persisted - t.persisted) + (u.dropped - t.dropped)
      && t.sent <= u.sent && t.persisted <= u.persisted && t.dropped <= u.dropped
  {
    if loads != [] {
      AccountConserves(t, loads[..|loads| - 1], attempts);
    }
  }

  // A rejected load is dropped, never written to the spool: if every failure was
  // permanent then nothing was persisted.
  lemma {:induction false} PermanentFailuresAreDropped(t: Totals, loads: seq<seq<Event>>, attempts: nat -> Attempt)
    requires forall k: nat :: !attempts(k).outcome.TransientFailure?
    ensures Account(t, loads, attempts).persisted == t.persisted
  {
    if loads != [] {
      PermanentFailuresAreDropped(t, loads[..|loads| - 1], attempts);
    }
  }

  // ---------------------------------------------------------------- batches

  function Items(signals: seq<Signal>): seq<Event> {
    if signals == [] then []
    else
      var n := |signals| - 1;
      Items(signals[..n]) + (if signals[n].Item? then [signals[n].e] else [])
  }

  datatype Cut = Cut(handed: seq<seq<Event>>, pending: seq<Event>)

  function Hand(x: Cut): Cut {
    if x.pending == [] then x else Cut(x.handed + [x.pending], [])
  }

  // Full batches are handed over at once, shorter ones on a tick.
  function CutAfter(size: nat, signals: seq<Signal>): Cut {
    if signals == [] then Cut([], [])
    else
      var n := |signals| - 1;
      var x := CutAfter(size, signals[..n]);
      if signals[n].Ticker? then Hand(x)
      else
        var y := x.(pending := x.pending + [signals[n].e]);
        if |y.pending| >= size then Hand(y) else y
  }

  // What a worker hands over before it exits.
  function Batches(size: nat, signals: seq<Signal>): seq<seq<Event>> {
    Hand(CutAfter(size, signals)).handed
  }

  lemma FlattenAppend(batches: seq<seq<Event>>, b: seq<Event>)
    ensures Flatten(batches + [b]) == Flatten(batches) + b
  {
    assert (batches + [b])[..|batches|] == batches;
  }

  ghost predicate CutOk(size: nat, x: Cut, items: seq<Event>) {
    && Flatten(x.handed) + x.pending == items
    && |x.pending| < size
    && forall b :: b in x.handed ==> 1 <= |b| <= size
  }

  lemma {:induction false} CutProperties(size: nat, signals: seq<Signal>)
    requires size >= 1
    ensures CutOk(size, CutAfter(size, signals), Items(signals))
  {
    if signals != [] {
      var n := |signals| - 1;
      CutProperties(size, signals[..n]);
      var x := CutAfter(size, signals[..n]);
      if signals[n].Ticker? {
        FlattenAppend(x.handed, x.pending);
      } else {
        var longer := x.pending + [signals[n].e];
        FlattenAppend(x.handed, longer);
        assert Flatten(x.handed) + longer == (Flatten(x.handed) + x.pending) + [signals[n].e];
      }
    }
  }

  // Nothing received is lost, repeated or reordered on the way to the transport,
  // whatever the ticker does; no batch is empty or too large.
  lemma BatchesKeepEverything(size: nat, signals: seq<Signal>)
    requires size >= 1
    ensures Flatten(Batches(size, signals)) == Items(signals)
    ensures forall b :: b in Batches(size, signals) ==> 1 <= |b| <= size
  {
    CutProperties(size, signals);
    var x := CutAfter(size, signals);
    FlattenAppend(x.handed, x.pending);
  }

  // A tick leaves nothing pending; an item is handed over at once if it completes a
  // batch of the full size, and else waits.
  lemma HandedOverWhen(size: nat, signals: seq<Signal>, e: Event)
    requires size >= 1
    ensures var x := CutAfter(size, signals);
      && CutAfter(size, signals + [Ticker]).pending == []
      && CutAfter(size, signals + [Ticker]).handed == (if x.pending == [] then x.handed else x.handed + [x.pending])
      && CutAfter(size, signals + [Item(e)])
         == (if |x.pending| + 1 == size then Cut(x.handed + [x.pending + [e]], []) else Cut(x.handed, x.pending + [e]))
  {
    assert (signals + [Ticker])[..|signals|] == signals;
    assert (signals + [Item(e)])[..|signals|] == signals;
    CutProperties(size, signals);
  }

  // Without ticks only the last batch can be short.
  lemma {:induction false} FullWithoutTicks(size: nat, signals: seq<Signal>)
    requires size >= 1 && forall i :: 0 <= i < |signals| ==> signals[i].Item?
    ensures forall b :: b in CutAfter(size, signals).handed ==> |b| == size
  {
    if signals != [] {
      var n := |signals| - 1;
      FullWithoutTicks(size, signals[..n]);
      CutProperties(size, signals[..n]);
    }
  }

  function Singles(items: seq<Event>): seq<seq<Event>> {
    seq(|items|, i requires 0 <= i < |items| => [items[i]])
  }

  // A single-event worker is a batch worker of size one.
  lemma {:induction false} SingleIsBatchOfOne(signals: seq<Signal>)
    requires forall i :: 0 <= i < |signals| ==> signals[i].Item?
    ensures CutAfter(1, signals) == Cut(Singles(Items(signals)), [])
    ensures Batches(1, signals) == Singles(Items(signals))
  {
    if signals != [] {
      var n := |signals| - 1;
      SingleIsBatchOfOne(signals[..n]);
      assert Singles(Items(signals)) == Singles(Items(signals[..n])) + [[signals[n].e]];
      var one: seq<Event> := [signals[n].e];
      assert [] + one == one;
    }
  }

  // ---------------------------------------------------------------- the machine

  function CountersOf(st: State): Totals {
    Totals(st.sent, st.failed, st.persisted, st.dropped)
  }

  // What the transport and the spool answered in a run, in order.
  function Answers(acts: seq<Action>): seq<WorkerMove> {
    if acts == [] then []
    else
      var a := acts[|acts| - 1];
      Answers(acts[..|acts| - 1]) + (if a.Work? && (a.wm.Returns? || a.wm.Persist?) then [a.wm] else [])
  }

  // What they answer to the first n loads: the outcome of the send, and for a failure
  // whether the load could be stored.
  function Expected(attempts: nat -> Attempt, n: nat): seq<WorkerMove> {
    if n == 0 then []
    else Expected(attempts, n - 1) + AnswerTo(attempts(n - 1))
  }

  function AnswerTo(a: Attempt): seq<WorkerMove> {
    if a.outcome == Delivered then [Returns(Delivered)] else [Returns(a.outcome), Persist(a.stored)]
  }

  lemma {:induction false} AnswersAppend(a: seq<Action>, b: seq<Action>)
    ensures Answers(a + b) == Answers(a) + Answers(b)
  {
    if b == [] {
      assert a + b == a;
    } else {
      assert (a + b)[..|a + b| - 1] == a + b[..|b| - 1];
      AnswersAppend(a, b[..|b| - 1]);
    }
  }

  predicate ByWorker(acts: seq<Action>, s: nat) {
    forall a :: a in acts ==> a.Work? && a.s == s
  }

  // One more move of worker s at the end of a run.
  lemma MoveWorker(c: Config, st: State, acts: seq<Action>, s: nat, m: WorkerMove) returns (longer: seq<Action>)
    requires |c.batch| == |st.streams| && IsRun(c, st, acts) && ByWorker(acts, s)
    requires var st1 := After(c, st, acts); |st1.streams| == |c.batch| && Enabled(st1, Work(s, m))
    ensures IsRun(c, st, longer) && ByWorker(longer, s)
    ensures After(c, st, longer) == Apply(c, After(c, st, acts), Work(s, m))
    ensures Answers(longer) == Answers(acts) + (if m.Returns? || m.Persist? then [m] else [])
  {
    ExtendRun(c, st, acts, Work(s, m));
    longer := acts + [Work(s, m)];
    assert longer[..|acts|] == acts;
  }

  // After a failed send the worker has counted the failure, and asks the spool.
  ghost predicate Refusing(st: State, st': State, s: nat, permanent: bool) {
    && s < |st.streams| && st.streams[s].worker.Sending?
    && var x := st.streams[s];
      && st'.streams == st.streams[s := x.(worker := Classifying(x.worker.load, x.worker.last, permanent))]
      && CountersOf(st') == CountersOf(st).(failed := st.failed + |x.worker.load|)
  }

  lemma FailRun(c: Config, st: State, s: nat, permanent: bool) returns (acts: seq<Action>)
    requires |c.batch| == |st.streams| && s < |st.streams| && st.streams[s].worker.Sending?
    ensures IsRun(c, st, acts) && ByWorker(acts, s) && Refusing(st, After(c, st, acts), s, permanent)
    ensures Answers(acts) == [Returns(if permanent then PermanentFailure else TransientFailure)]
  {
    acts := MoveWorker(c, st, [], s, Returns(if permanent then PermanentFailure else TransientFailure));
    acts := MoveWorker(c, st, acts, s, Add);
  }

  lemma SettleRun(c: Config, st: State, s: nat, stored: bool) returns (acts: seq<Action>)
    requires |c.batch| == |st.streams| && s < |st.streams| && st.streams[s].worker.Classifying?
    ensures IsRun(c, st, acts) && ByWorker(acts, s)
    ensures var x, st' := st.streams[s], After(c, st, acts);
      var kept := stored && !x.worker.permanent;
      && st'.streams == st.streams[s := x.(worker := Resume(x.worker.last))]
      && CountersOf(st') == if kept then CountersOf(st).(persisted := st.persisted + |x.worker.load|)
                            else CountersOf(st).(dropped := st.dropped + |x.worker.load|)
    ensures Answers(acts) == [Persist(stored)]
  {
    acts := MoveWorker(c, st, [], s, Persist(stored));
    acts := MoveWorker(c, st, acts, s, Add);
  }

  lemma AcceptRun(c: Config, st: State, s: nat) returns (acts: seq<Action>)
    requires |c.batch| == |st.streams| && s < |st.streams| && st.streams[s].worker.Sending?
    ensures IsRun(c, st, acts) && ByWorker(acts, s)
    ensures var x, st' := st.streams[s], After(c, st, acts);
      && st'.streams == st.streams[s := x.(worker := Resume(x.worker.last))]
      && CountersOf(st') == CountersOf(st).(sent := st.sent + |x.worker.load|)
    ensures Answers(acts) == [Returns(Delivered)]
  {
    acts := MoveWorker(c, st, [], s, Returns(Delivered));
    acts := MoveWorker(c, st, acts, s, Add);
  }

  // A send that has started returns and is counted.
  lemma SendRun(c: Config, st: State, s: nat, a: Attempt) returns (acts: seq<Action>)
    requires |c.batch| == |st.streams| && s < |st.streams| && st.streams[s].worker.Sending?
    ensures IsRun(c, st, acts) && ByWorker(acts, s)
    ensures var x, st' := st.streams[s], After(c, st, acts);
      && st'.streams == st.streams[s := x.(worker := Resume(x.worker.last))]
      && CountersOf(st') == Settle(CountersOf(st), |x.worker.load|, a)
    ensures Answers(acts) == AnswerTo(a)
  {
    hide IsRun, After, Answers;
    if a.outcome.Delivered? {
      acts := AcceptRun(c, st, s);
    } else {
      acts := FailRun(c, st, s, a.outcome.PermanentFailure?);
      var rest := SettleRun(c, After(c, st, acts), s, a.stored);
      RunAppend(c, st, acts, rest);
      AnswersAppend(acts, rest);
      acts := acts + rest;
    }
  }

  // Worker s is receiving; it has cut what it received so far in this way, counted
  // what it handed over, and finds the given events in its channel.
  ghost predicate Serving(c: Config, st: State, s: nat, before: seq<seq<Event>>, t: Totals,
                          attempts: nat -> Attempt, x: Cut, queue: seq<Event>) {
    && |st.streams| == |c.batch| && s < |st.streams|
    && st.streams[s].worker == Receiving(x.pending) && st.streams[s].queue == queue
    && st.streams[s].handed == before + x.handed
    && CountersOf(st) == Account(t, x.handed, attempts)
  }

  function CutNext(size: nat, x: Cut, signal: Signal): Cut {
    match signal
    case Ticker => Hand(x)
    case Item(e) =>
      var y := x.(pending := x.pending + [e]);
      if |y.pending| >= size then Hand(y) else y
  }

  // From a state of the worker to the next one in which it receives, or has exited: a
  // batch that was handed over on the way is sent and counted.
  lemma HandedRun(c: Config, st: State, s: nat, before: seq<seq<Event>>, t: Totals,
                  attempts: nat -> Attempt, y: Cut, last: bool) returns (acts: seq<Action>)
    requires |st.streams| == |c.batch| && s < |st.streams|
    requires st.streams[s].handed == before + Hand(y).handed && CountersOf(st) == Account(t, y.handed, attempts)
    requires st.streams[s].worker == if y.pending == [] then Resume(last) else Sending(y.pending, last)
    ensures IsRun(c, st, acts) && ByWorker(acts, s)
    ensures var st' := After(c, st, acts);
      && |st'.streams| == |c.batch| && st'.streams[s] == st.streams[s].(worker := Resume(last))
      && CountersOf(st') == Account(t, Hand(y).handed, attempts)
    ensures Expected(attempts, |y.handed|) + Answers(acts) == Expected(attempts, |Hand(y).handed|)
  {
    if y.pending == [] {
      acts := [];
    } else {
      acts := SendRun(c, st, s, attempts(|y.handed|));
      assert Hand(y).handed[..|y.handed|] == y.handed;
    }
  }

  // One round of the loop: the signal is taken, and a full or ticked batch sent.
  lemma RoundRun(c: Config, st: State, s: nat, before: seq<seq<Event>>, t: Totals,
                 attempts: nat -> Attempt, x: Cut, signal: Signal, queue: seq<Event>) returns (acts: seq<Action>)
    requires Serving(c, st, s, before, t, attempts, x, if signal.Item? then [signal.e] + queue else queue)
    ensures IsRun(c, st, acts) && ByWorker(acts, s)
    ensures Serving(c, After(c, st, acts), s, before, t, attempts, CutNext(c.batch[s], x, signal), queue)
    ensures After(c, st, acts).streams[s].closed == st.streams[s].closed
    ensures Expected(attempts, |x.handed|) + Answers(acts)
         == Expected(attempts, |CutNext(c.batch[s], x, signal).handed|)
  {
    var a := Work(s, if signal.Item? then Receive else Tick);
    var y := if signal.Item? then x.(pending := x.pending + [signal.e]) else x;
    assert Enabled(st, a);
    var st1 := Apply(c, st, a);
    ExtendRun(c, st, [], a);
    acts := [a];
    assert [] + [a] == acts;
    if signal.Ticker? || |y.pending| >= c.batch[s] {
      assert st1.streams[s].handed == before + Hand(y).handed;
      var rest := HandedRun(c, st1, s, before, t, attempts, y, false);
      RunAppend(c, st, acts, rest);
      AnswersAppend(acts, rest);
      assert Answers([a]) == [] && [] + Answers(rest) == Answers(rest);
      acts := acts + rest;
    }
  }

  lemma {:induction false} LoopRun(c: Config, st: State, s: nat, signals: seq<Signal>, attempts: nat -> Attempt,
                                   more: seq<Event>) returns (acts: seq<Action>)
    requires |st.streams| == |c.batch| && s < |st.streams|
    requires st.streams[s].worker == Receiving([]) && st.streams[s].queue == Items(signals) + more
    ensures IsRun(c, st, acts) && ByWorker(acts, s)
    ensures Serving(c, After(c, st, acts), s, st.streams[s].handed, CountersOf(st), attempts,
                    CutAfter(c.batch[s], signals), more)
    ensures After(c, st, acts).streams[s].closed == st.streams[s].closed
    ensures Answers(acts) == Expected(attempts, |CutAfter(c.batch[s], signals).handed|)
  {
    if signals == [] {
      acts := [];
      assert st.streams[s].handed + [] == st.streams[s].handed && [] + more == more;
    } else {
      var n := |signals| - 1;
      var sig := signals[n];
      var queue := if sig.Item? then [sig.e] + more else more;
      assert Items(signals) + more == Items(signals[..n]) + queue;
      acts := LoopRun(c, st, s, signals[..n], attempts, queue);
      var rest := RoundRun(c, After(c, st, acts), s, st.streams[s].handed, CountersOf(st), attempts,
                           CutAfter(c.batch[s], signals[..n]), sig, more);
      RunAppend(c, st, acts, rest);
      AnswersAppend(acts, rest);
      acts := acts + rest;
    }
  }

  // The channel is closed and empty: what is pending is flushed, and the worker exits.
  lemma ExitRun(c: Config, st: State, s: nat, before: seq<seq<Event>>, t: Totals,
                attempts: nat -> Attempt, x: Cut) returns (acts: seq<Action>)
    requires Serving(c, st, s, before, t, attempts, x, []) && st.streams[s].closed
    ensures IsRun(c, st, acts) && ByWorker(acts, s)
    ensures var st' := After(c, st, acts);
      && |st'.streams| == |c.batch| && st'.streams[s].worker.Exited? && st'.streams[s].queue == []
      && st'.streams[s].handed == before + Hand(x).handed && CountersOf(st') == Account(t, Hand(x).handed, attempts)
    ensures Expected(attempts, |x.handed|) + Answers(acts) == Expected(attempts, |Hand(x).handed|)
  {
    var a := Work(s, Receive);
    var st1 := Apply(c, st, a);
    assert st1.streams[s].handed == before + Hand(x).handed;
    ExtendRun(c, st, [], a);
    var first: seq<Action> := [a];
    assert [] + [a] == first && Answers(first) == [];
    hide Answers, IsRun, After, Account, Expected;
    var rest := HandedRun(c, st1, s, before, t, attempts, x, true);
    RunAppend(c, st, first, rest);
    AnswersAppend(first, rest);
    assert [] + Answers(rest) == Answers(rest);
    acts := first + rest;
  }

  // The loop is a run of the machine: from any state in which the worker finds the
  // items in its closed channel, some run, by this worker alone and with these answers
  // to its loads, ends with the worker gone, exactly the greedy batches handed over, and
  // the counters that the loop has.
  lemma LoopFollowsMachine(c: Config, st: State, s: nat, signals: seq<Signal>, attempts: nat -> Attempt)
    returns (acts: seq<Action>)
    requires |st.streams| == |c.batch| && s < |st.streams| && st.streams[s].closed
    requires st.streams[s].worker == Receiving([]) && st.streams[s].queue == Items(signals)
    ensures IsRun(c, st, acts) && ByWorker(acts, s)
    ensures Answers(acts) == Expected(attempts, |Batches(c.batch[s], signals)|)
    ensures var st' := After(c, st, acts);
      && |st'.streams| == |c.batch| && st'.streams[s].worker.Exited? && st'.streams[s].queue == []
      && st'.streams[s].handed == st.streams[s].handed + Batches(c.batch[s], signals)
      && CountersOf(st') == Account(CountersOf(st), Batches(c.batch[s], signals), attempts)
    ensures var t, u, loads := CountersOf(st), CountersOf(After(c, st, acts)), Batches(c.batch[s], signals);
      && u.sent == t.sent + DeliveredTotal(loads, attempts)
      && u.persisted == t.persisted + StoredTotal(loads, attempts)
      && u.dropped == t.dropped + LostTotal(loads, attempts)
  {
    assert Items(signals) + [] == Items(signals);
    AccountIs(CountersOf(st), Batches(c.batch[s], signals), attempts);
    var x := CutAfter(c.batch[s], signals);
    assert Batches(c.batch[s], signals) == Hand(x).handed;
    hide *;
    acts := LoopRun(c, st, s, signals, attempts, []);
    var rest := ExitRun(c, After(c, st, acts), s, st.streams[s].handed, CountersOf(st), attempts, x);
    RunAppend(c, st, acts, rest);
    AnswersAppend(acts, rest);
    BothByWorker(acts, rest, s);
    acts := acts + rest;
  }

  lemma BothByWorker(a: seq<Action>, b: seq<Action>, s: nat)
    requires ByWorker(a, s) && ByWorker(b, s)
    ensures ByWorker(a + b, s)
  {
  }

  // ---------------------------------------------------------------- the loops

  class Worker {
    var sent: nat
    var failed: nat
    var persisted: nat
    var dropped: nat

    function Counters(): Totals
      reads this
    {
      Totals(sent, failed, persisted, dropped)
    }

    constructor ()
      ensures Counters() == Totals(0, 0, 0, 0)
    {
      sent, failed, persisted, dropped := 0, 0, 0, 0;
    }

    // persistOnFailure for a load whose path may be spooled.
    method PersistOnFailure(n: nat, a: Attempt) returns (ok: bool)
      requires !a.outcome.Delivered?
      modifies this`persisted
      ensures ok == (a.outcome.TransientFailure? && a.stored)
      ensures persisted == old(persisted) + (if ok then n else 0)
    {
      if a.outcome.PermanentFailure? {
        return false;
      }
      ok := a.stored;
      if ok {
        persisted := persisted + n;
      }
    }

    // Send one load and count it.
    method Deliver(load: seq<Event>, a: Attempt)
      modifies this
      ensures Counters() == Settle(old(Counters()), |load|, a)
      ensures a.outcome == Delivered ==> Counters() == old(Counters()).(sent := old(sent) + |load|)
      ensures a.outcome == TransientFailure && a.stored ==>
        Counters() == old(Counters()).(failed := old(failed) + |load|, persisted := old(persisted) + |load|)
      ensures a.outcome == PermanentFailure || (a.outcome == TransientFailure && !a.stored) ==>
        Counters() == old(Counters()).(failed := old(failed) + |load|, dropped := old(dropped) + |load|)
    {
      if !a.outcome.Delivered? {
        failed := failed + |load|;
        var ok := PersistOnFailure(|load|, a);
        if !ok {
          dropped := dropped + |load|;
        }
      } else {
        sent := sent + |load|;
      }
    }

    method RunSingle(items: seq<Event>, attempts: nat -> Attempt) returns (handed: seq<seq<Event>>)
      modifies this
      ensures handed == Singles(items)
      ensures Counters() == Account(old(Counters()), handed, attempts)
      ensures sent == old(sent) + DeliveredTotal(handed, attempts)
      ensures persisted == old(persisted) + StoredTotal(handed, attempts)
      ensures dropped == old(dropped) + LostTotal(handed, attempts)
      ensures failed == old(failed) + StoredTotal(handed, attempts) + LostTotal(handed, attempts)
    {
      handed := [];
      for i := 0 to |items|
        invariant handed == Singles(items[..i])
        invariant Counters() == Account(old(Counters()), handed, attempts)
      {
        Deliver([items[i]], attempts(i));
        assert (handed + [[items[i]]])[..|handed|] == handed;
        handed := handed + [[items[i]]];
      }
      AccountIs(old(Counters()), handed, attempts);
    }

    // flush(): hand over the batch unless it is empty, and reset it.
    method Flush(batch: seq<Event>, handed: seq<seq<Event>>, attempts: nat -> Attempt)
      returns (batch': seq<Event>, handed': seq<seq<Event>>)
      modifies this
      ensures Cut(handed', batch') == Hand(Cut(handed, batch))
      ensures forall t :: old(Counters()) == Account(t, handed, attempts) ==>
        Counters() == Account(t, handed', attempts)
    {
      batch', handed' := batch, handed;
      if |batch| == 0 {
        return;
      }
      var snapshot := batch;
      batch' := [];
      Deliver(snapshot, attempts(|handed|));
      handed' := handed + [snapshot];
      assert handed'[..|handed|] == handed;
    }

    method RunBatch(size: nat, signals: seq<Signal>, attempts: nat -> Attempt) returns (handed: seq<seq<Event>>)
      requires size >= 1
      modifies this
      ensures handed == Batches(size, signals)
      ensures Counters() == Account(old(Counters()), handed, attempts)
      ensures sent == old(sent) + DeliveredTotal(handed, attempts)
      ensures persisted == old(persisted) + StoredTotal(handed, attempts)
      ensures dropped == old(dropped) + LostTotal(handed, attempts)
      ensures failed == old(failed) + StoredTotal(handed, attempts) + LostTotal(handed, attempts)
    {
      var batch := [];
      handed := [];
      for i := 0 to |signals|
        invariant Cut(handed, batch) == CutAfter(size, signals[..i])
        invariant Counters() == Account(old(Counters()), handed, attempts)
      {
        assert signals[..i + 1][..i] == signals[..i];
        match signals[i]
        case Item(e) =>
          batch := batch + [e];
          if |batch| >= size {
            batch, handed := Flush(batch, handed, attempts);
          }
        case Ticker =>
          batch, handed := Flush(batch, handed, attempts);
      }
      assert signals[..|signals|] == signals;
      batch, handed := Flush(batch, handed, attempts);
      AccountIs(old(Counters()), handed, attempts);
    }
  }
}
