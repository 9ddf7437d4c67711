/**
 * The code of the client: a Capture call with its three selects, over fields for
 * the channels and counters. Every call is proved to be a run of the pipeline
 * machine, so the theorems about runs hold of the client's state.
 */
module ClientCode {
  import opened Pipeline
  import opened PipelineSafety
  import opened PipelineRuns

  class Client {
    const cfg: Config
    const goroutines: nat
    var once: bool            // closeOnce
    var shut: bool
    var queues: seq<seq<Event>>
    var closed: seq<bool>
    var captured: nat
    var dropped: nat

    // The state of the whole pipeline, of which the fields are a part, and the
    // run that led to it.
    ghost var model: State
    ghost var trace: seq<Action>

    ghost predicate Valid()
      reads this
    {
      && |queues| == |closed| == |cfg.batch| == |model.streams| && |model.producers| == goroutines
      && (once ==> shut) && (forall s :: 0 <= s < |closed| ==> closed[s] == once)
      && shut == model.shut && captured == model.captured && dropped == model.dropped
      && (forall s :: 0 <= s < |queues| ==>
            queues[s] == model.streams[s].queue && closed[s] == model.streams[s].closed)
      && IsRun(cfg, Initial(cfg, goroutines), trace)
      && model == After(cfg, Initial(cfg, goroutines), trace)
    }

    // The actions recorded while a call ran, all of them by goroutine p.
    twostate predicate Ran(p: nat)
      reads this
    {
      && old(trace) <= trace
      && (forall a :: a in trace[|old(trace)|..] ==> a.Produce? && a.p == p)
      && once == old(once)
    }

    constructor (cfg: Config, goroutines: nat)
      ensures Valid() && this.cfg == cfg && this.goroutines == goroutines && trace == [] && !once
    {
      this.cfg, this.goroutines := cfg, goroutines;
      once, shut, captured, dropped := false, false, 0, 0;
      queues := seq(|cfg.batch|, _ => []);
      closed := seq(|cfg.batch|, _ => false);
      model, trace := Initial(cfg, goroutines), [];
    }

    ghost method Record(a: Action)
      requires |cfg.batch| == |model.streams|
      requires IsRun(cfg, Initial(cfg, goroutines), trace) && model == After(cfg, Initial(cfg, goroutines), trace)
      requires Enabled(model, a)
      modifies this`model, this`trace
      ensures model == Apply(cfg, old(model), a) && trace == old(trace) + [a]
      ensures IsRun(cfg, Initial(cfg, goroutines), trace) && model == After(cfg, Initial(cfg, goroutines), trace)
    {
      ExtendRun(cfg, Initial(cfg, goroutines), trace, a);
      model, trace := Apply(cfg, model, a), trace + [a];
    }

    // if c.closed.Load() { return }; c.captured.Add(1)
    method Admit(p: nat, s: nat) returns (admitted: bool)
      requires Valid() && s < |queues| && p < goroutines && model.producers[p].Idle?
      modifies this
      ensures Valid() && Ran(p)
      ensures admitted == !old(shut) && shut == old(shut) && captured == old(captured) + (if admitted then 1 else 0)
      ensures dropped == old(dropped) && queues == old(queues) && closed == old(closed)
      ensures model.producers[p] == if admitted then Captured(s, old(captured)) else Idle
    {
      Record(Produce(p, Check(s)));
      admitted := !shut;
      if admitted {
        captured := captured + 1;
        Record(Produce(p, Count));
      }
    }

    // select { case ch <- &p: default: }
    method TryPush(p: nat, s: nat, e: Event) returns (pushed: bool, panicked: bool)
      requires Valid() && s < |queues| && p < goroutines
      requires model.producers[p] == Captured(s, e) || model.producers[p] == SecondPush(s, e)
      modifies this
      ensures Valid() && Ran(p)
      ensures shut == old(shut) && captured == old(captured) && dropped == old(dropped) && closed == old(closed)
      ensures panicked == old(closed[s])
      ensures pushed == (!panicked && |old(queues[s])| < cfg.capacity)
      ensures queues == if pushed then old(queues)[s := old(queues[s]) + [e]] else old(queues)
      ensures model.producers[p] ==
        if panicked then Panicked(e) else if pushed then Idle
        else if old(model.producers[p]).Captured? then PopOldest(s, e) else CountDropped(e)
    {
      pushed, panicked := false, closed[s];
      if !panicked && |queues[s]| < cfg.capacity {
        queues := queues[s := queues[s] + [e]];
        pushed := true;
      }
      Record(Produce(p, Push));
    }

    // select { case <-ch: default: }
    method TryPop(p: nat, s: nat, e: Event) returns (popped: bool)
      requires Valid() && s < |queues| && p < goroutines && model.producers[p] == PopOldest(s, e)
      modifies this
      ensures Valid() && Ran(p)
      ensures shut == old(shut) && captured == old(captured) && dropped == old(dropped) && closed == old(closed)
      ensures popped == (old(queues[s]) != [] || old(closed[s]))
      ensures queues == if old(queues[s]) == [] then old(queues) else old(queues)[s := old(queues[s])[1..]]
      ensures model.producers[p] ==
        if !popped then SecondPush(s, e)
        else CountEvicted(s, e, if old(queues[s]) == [] then None else Some(old(queues[s])[0]))
    {
      popped := queues[s] != [] || closed[s];
      if queues[s] != [] {
        queues := queues[s := queues[s][1..]];
      }
      Record(Produce(p, Pull));
    }

    // c.dropped.Add(1)
    method AddDropped(p: nat)
      requires Valid() && p < goroutines
      requires model.producers[p].CountEvicted? || model.producers[p].CountDropped?
      modifies this
      ensures Valid() && Ran(p)
      ensures shut == old(shut) && captured == old(captured) && dropped == old(dropped) + 1
      ensures queues == old(queues) && closed == old(closed)
      ensures model.producers[p] ==
        var x := old(model.producers[p]); if x.CountDropped? then Idle else SecondPush(x.s, x.e)
    {
      dropped := dropped + 1;
      Record(Produce(p, Tally));
    }

    // The three selects: push, or drop the oldest and push again.
    method Enqueue(p: nat, s: nat, e: Event) returns (panicked: bool)
      requires Valid() && s < |queues| && p < goroutines && model.producers[p] == Captured(s, e)
      modifies this
      ensures Valid() && Ran(p)
      ensures if panicked then model.producers[p].Panicked? else model.producers[p].Idle?
      ensures shut == old(shut) && captured == old(captured) && closed == old(closed)
      ensures panicked <==> old(closed[s])
      ensures panicked ==> queues == old(queues) && dropped == old(dropped)
      ensures !panicked ==>
        && queues == old(queues)[s := Displace(cfg.capacity, old(queues[s]), e)]
        && dropped + |queues[s]| == old(dropped) + |old(queues[s])| + 1
    {
      var pushed;
      pushed, panicked := TryPush(p, s, e);
      if !pushed && !panicked {
        DropOldestAndPush(p, s, e);
      }
    }

    // The inner two selects, on an open channel that was full.
    method DropOldestAndPush(p: nat, s: nat, e: Event)
      requires Valid() && s < |queues| && p < goroutines && model.producers[p] == PopOldest(s, e)
      requires !closed[s] && |queues[s]| >= cfg.capacity
      modifies this
      ensures Valid() && Ran(p) && model.producers[p].Idle?
      ensures shut == old(shut) && captured == old(captured) && closed == old(closed)
      ensures queues == old(queues)[s := Displace(cfg.capacity, old(queues[s]), e)]
      ensures dropped + |queues[s]| == old(dropped) + |old(queues[s])| + 1
    {
      var popped := TryPop(p, s, e);
      if popped {
        AddDropped(p);
      }
      var pushed, panicked := TryPush(p, s, e);
      if !pushed {
        AddDropped(p);
      }
    }

    // One Capture call on stream s by goroutine p, run alone. `keep` is the verdict
    // of the sampling rate and of BeforeSend, which only error captures consult.
    method Capture(p: nat, s: nat, keep: bool) returns (panicked: bool)
      requires Valid() && s < |queues| && p < goroutines && model.producers[p].Idle?
      modifies this
      ensures Valid() && Ran(p)
      ensures if panicked then model.producers[p].Panicked? else model.producers[p].Idle?
      ensures shut == old(shut) && closed == old(closed)
      ensures captured == old(captured) + (if old(shut) then 0 else 1)
      ensures panicked <==> !old(shut) && (s != ERRORS || keep) && old(closed[s])
      ensures queues == if old(shut) || panicked || (s == ERRORS && !keep) then old(queues)
                        else old(queues)[s := Displace(cfg.capacity, old(queues[s]), old(captured))]
      ensures !panicked ==> dropped + |queues[s]| + old(captured) == old(dropped) + |old(queues[s])| + captured
      ensures panicked ==> dropped == old(dropped)
    {
      panicked := false;
      var e := captured;
      var admitted := Admit(p, s);
      if !admitted {
        return;
      }
      if s == ERRORS && !keep {
        Record(Produce(p, Discard));
        AddDropped(p);
        return;
      }
      panicked := Enqueue(p, s, e);
    }

    // Close, up to the wait for the workers: the flag first, then every channel, and
    // only on the first call. Captures are not waited for.
    method Close()
      requires Valid()
      modifies this
      ensures Valid() && once && shut
      ensures captured == old(captured) && dropped == old(dropped) && queues == old(queues)
      ensures closed == if old(once) then old(closed) else seq(|queues|, _ => true)
      ensures trace == if old(once) then old(trace) else old(trace) + CloseActions(|queues|)
    {
      hide IsRun, After, ProducerEnabled, WorkerEnabled, ApplyProducer, ApplyAdd, StreamAfter;
      if once {
        return;
      }
      shut := true;
      Record(Shut);
      for s := 0 to |closed|
        invariant |queues| == |closed| == |cfg.batch| == |model.streams| && |model.producers| == goroutines
        invariant shut && model.shut && captured == model.captured && dropped == model.dropped
        invariant forall t :: 0 <= t < |queues| ==>
          queues[t] == model.streams[t].queue && closed[t] == model.streams[t].closed == (t < s)
        invariant IsRun(cfg, Initial(cfg, goroutines), trace) && model == After(cfg, Initial(cfg, goroutines), trace)
        invariant captured == old(captured) && dropped == old(dropped) && queues == old(queues) && !once
        invariant trace == old(trace) + CloseActions(s)
      {
        closed := closed[s := true];
        Record(CloseChannel(s));
      }
      once := true;
    }
  }

  function CloseActions(n: nat): seq<Action> {
    if n == 0 then [Shut] else CloseActions(n - 1) + [CloseChannel(n - 1)]
  }

  // What an undisturbed capture makes of a channel.
  function Displace(capacity: nat, q: seq<Event>, e: Event): seq<Event> {
    var room := if |q| < capacity || q == [] then q else q[1..];
    if |room| < capacity then room + [e] else room
  }

  // On a channel within its capacity the newest event always gets in, nothing is
  // reordered, and at most the oldest event is lost, only when the channel is full.
  lemma NewestGetsIn(capacity: nat, q: seq<Event>, e: Event)
    requires capacity >= 1 && |q| <= capacity
    ensures |Displace(capacity, q, e)| <= capacity
    ensures Displace(capacity, q, e) == (if |q| < capacity then q else q[1..]) + [e]
  {
  }
}
