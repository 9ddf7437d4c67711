/**
 * The status of a release-health session. Any number of goroutines escalate it
 * with a load and a compare-and-swap, without a lock.
 */
module Escalation {

  const OK := "ok"
  const ERRORED := "errored"
  const CRASHED := "crashed"
  const ABNORMAL := "abnormal"

  function Rank(status: string): nat {
    if status == ERRORED then 1
    else if status == ABNORMAL then 2
    else if status == CRASHED then 3
    else 0
  }

  // The values the status of a session can take.
  predicate Known(status: string) {
    status == OK || Rank(status) > 0
  }

  lemma RankIdentifies(a: string, b: string)
    requires Known(a) && Known(b) && Rank(a) == Rank(b)
    ensures a == b
  {
  }

  // ---------------------------------------------------------------- threads

  // One call of recordError or recordCrash; `loads` counts the loop iterations.
  datatype Call =
    | Entered(next: string)
    | Looping(next: string, loads: nat)
    | Loaded(next: string, loads: nat, cur: string)
    | Returned(next: string, loads: nat)

  datatype State = State(status: string, errors: nat, calls: seq<Call>)

  function Initial(requests: seq<string>): State {
    State(OK, 0, seq(|requests|, t requires 0 <= t < |requests| => Entered(requests[t])))
  }

  predicate CanStep(st: State, t: nat) {
    t < |st.calls| && !st.calls[t].Returned?
  }

  // The next atomic step of call t: errors.Add(1), the load together with the
  // comparison that follows it, or the compare-and-swap.
  function Step(st: State, t: nat): State
    requires CanStep(st, t)
  {
    match st.calls[t]
    case Entered(next) => st.(errors := st.errors + 1, calls := st.calls[t := Looping(next, 0)])
    case Looping(next, loads) =>
      if Rank(next) <= Rank(st.status)
      then st.(calls := st.calls[t := Returned(next, loads + 1)])
      else st.(calls := st.calls[t := Loaded(next, loads + 1, st.status)])
    case Loaded(next, loads, cur) =>
      if st.status == cur
      then st.(status := next, calls := st.calls[t := Returned(next, loads)])
      else st.(calls := st.calls[t := Looping(next, loads)])
  }

  // A schedule names the call that takes each step.
  ghost predicate IsRun(st: State, schedule: seq<nat>)
    decreases |schedule|
  {
    schedule != [] ==> CanStep(st, schedule[0]) && IsRun(Step(st, schedule[0]), schedule[1..])
  }

  ghost function After(st: State, schedule: seq<nat>): State
    requires IsRun(st, schedule)
    decreases |schedule|
  {
    if schedule == [] then st else After(Step(st, schedule[0]), schedule[1..])
  }

  // ---------------------------------------------------------------- invariant

  ghost predicate CallOk(status: string, x: Call) {
    match x
    case Entered(_) => true
    case Looping(next, loads) => loads <= Rank(next) && loads <= Rank(status)
    case Loaded(next, loads, cur) =>
      Known(cur) && Rank(cur) <= Rank(status) && Rank(cur) < Rank(next) && 1 <= loads <= Rank(cur) + 1
    case Returned(next, loads) => Rank(next) <= Rank(status) && 1 <= loads <= Rank(next) + 1
  }

  function CountedCalls(calls: seq<Call>): nat {
    if calls == [] then 0
    else CountedCalls(calls[..|calls| - 1]) + (if calls[|calls| - 1].Entered? then 0 else 1)
  }

  ghost predicate Inv(requests: seq<string>, st: State) {
    && |st.calls| == |requests|
    && (forall t :: 0 <= t < |requests| ==> st.calls[t].next == requests[t])
    && (forall t :: 0 <= t < |requests| ==> CallOk(st.status, st.calls[t]))
    && Known(st.status) && (st.status == OK || st.status in requests)
    && st.errors == CountedCalls(st.calls)
  }

  lemma {:induction false} CountUpdate(calls: seq<Call>, t: nat, x: Call)
    requires t < |calls|
    ensures CountedCalls(calls[t := x]) + (if calls[t].Entered? then 0 else 1)
         == CountedCalls(calls) + (if x.Entered? then 0 else 1)
  {
    var n := |calls| - 1;
    if t == n {
      assert calls[t := x][..n] == calls[..n];
    } else {
      assert calls[t := x][..n] == calls[..n][t := x];
      CountUpdate(calls[..n], t, x);
    }
  }

  lemma StepKeepsInv(requests: seq<string>, st: State, t: nat)
    requires Inv(requests, st) && CanStep(st, t)
    ensures Inv(requests, Step(st, t))
    ensures Rank(st.status) <= Rank(Step(st, t).status)
  {
    var st' := Step(st, t);
    CountUpdate(st.calls, t, st'.calls[t]);
    var x := st.calls[t];
    assert CallOk(st.status, x) && x.next == requests[t];
    if x.Loaded? && st.status != x.cur && Rank(st.status) == Rank(x.cur) {
      RankIdentifies(st.status, x.cur);
    }
    assert CallOk(st'.status, st'.calls[t]);
    assert requests[t] in requests;
  }

  lemma {:induction false} RunKeepsInv(requests: seq<string>, st: State, schedule: seq<nat>)
    requires Inv(requests, st) && IsRun(st, schedule)
    ensures Inv(requests, After(st, schedule)) && Rank(st.status) <= Rank(After(st, schedule).status)
    decreases |schedule|
  {
    if schedule != [] {
      StepKeepsInv(requests, st, schedule[0]);
      RunKeepsInv(requests, Step(st, schedule[0]), schedule[1..]);
    }
  }

  lemma {:induction false} NoneCounted(calls: seq<Call>)
    requires forall t :: 0 <= t < |calls| ==> calls[t].Entered?
    ensures CountedCalls(calls) == 0
  {
    if calls != [] {
      NoneCounted(calls[..|calls| - 1]);
    }
  }

  lemma {:induction false} AllCounted(calls: seq<Call>)
    requires forall t :: 0 <= t < |calls| ==> !calls[t].Entered?
    ensures CountedCalls(calls) == |calls|
  {
    if calls != [] {
      AllCounted(calls[..|calls| - 1]);
    }
  }

  lemma InitialInv(requests: seq<string>)
    ensures Inv(requests, Initial(requests))
  {
    NoneCounted(Initial(requests).calls);
  }

  // ---------------------------------------------------------------- theorems

  // The status after the first steps of a run never ranks above the status later.
  lemma StatusNeverFalls(requests: seq<string>, earlier: seq<nat>, later: seq<nat>)
    requires IsRun(Initial(requests), earlier) && IsRun(After(Initial(requests), earlier), later)
    ensures Rank(After(Initial(requests), earlier).status)
         <= Rank(After(After(Initial(requests), earlier), later).status)
  {
    InitialInv(requests);
    RunKeepsInv(requests, Initial(requests), earlier);
    RunKeepsInv(requests, After(Initial(requests), earlier), later);
  }

  // The most severe of the requested statuses, or ok.
  function Highest(requests: seq<string>): string {
    if requests == [] then OK
    else
      var rest, last := Highest(requests[..|requests| - 1]), requests[|requests| - 1];
      if Rank(last) > Rank(rest) then last else rest
  }

  lemma {:induction false} HighestIsMaximal(requests: seq<string>)
    ensures Known(Highest(requests)) && (Highest(requests) == OK || Highest(requests) in requests)
    ensures forall r :: r in requests ==> Rank(r) <= Rank(Highest(requests))
  {
    if requests != [] {
      HighestIsMaximal(requests[..|requests| - 1]);
      assert forall r :: r in requests ==> r in requests[..|requests| - 1] || r == requests[|requests| - 1];
    }
  }

  // By name: crashed outranks abnormal, abnormal errored, and errored ok.
  lemma NamesByRank(requests: seq<string>, highest: string)
    requires Known(highest) && (highest == OK || highest in requests)
    requires forall r :: r in requests ==> Rank(r) <= Rank(highest)
    ensures highest ==
      if "crashed" in requests then "crashed"
      else if "abnormal" in requests then "abnormal"
      else if "errored" in requests then "errored"
      else "ok"
  {
  }

  // When every call has returned, the status is exactly the most severe one
  // requested, however the calls were interleaved, and every call was counted.
  lemma FinalStatusIsHighest(requests: seq<string>, schedule: seq<nat>)
    requires IsRun(Initial(requests), schedule)
    requires forall t :: 0 <= t < |requests| ==>
      t < |After(Initial(requests), schedule).calls| && After(Initial(requests), schedule).calls[t].Returned?
    ensures After(Initial(requests), schedule).status == Highest(requests)
    ensures After(Initial(requests), schedule).status ==
      if "crashed" in requests then "crashed"
      else if "abnormal" in requests then "abnormal"
      else if "errored" in requests then "errored"
      else "ok"
    ensures After(Initial(requests), schedule).errors == |requests|
  {
    InitialInv(requests);
    RunKeepsInv(requests, Initial(requests), schedule);
    HighestIsMaximal(requests);
    var st := After(Initial(requests), schedule);
    forall r | r in requests
      ensures Rank(r) <= Rank(st.status)
    {
      var t :| 0 <= t < |requests| && requests[t] == r;
      assert CallOk(st.status, st.calls[t]);
    }
    RankIdentifies(st.status, Highest(requests));
    NamesByRank(requests, Highest(requests));
    AllCounted(st.calls);
  }

  // A call goes round its loop at most Rank(next) + 1 times: whenever its swap
  // fails the status has become strictly more severe.
  lemma LoopIsBounded(requests: seq<string>, schedule: seq<nat>, t: nat)
    requires IsRun(Initial(requests), schedule) && t < |requests|
    ensures t < |After(Initial(requests), schedule).calls|
    ensures var x := After(Initial(requests), schedule).calls[t];
      x.next == requests[t] && (!x.Entered? ==> x.loads <= Rank(requests[t]) + 1 <= 4)
  {
    InitialInv(requests);
    RunKeepsInv(requests, Initial(requests), schedule);
    assert CallOk(After(Initial(requests), schedule).status, After(Initial(requests), schedule).calls[t]);
  }

  // ---------------------------------------------------------------- the code

  class Session {
    var status: string
    var errors: nat

    constructor ()
      ensures status == OK && errors == 0
    {
      status, errors := OK, 0;
    }

    // Other goroutines escalate the status to s.
    method Others(s: string)
      modifies this`status
      ensures status == if Rank(s) > Rank(old(status)) then s else old(status)
    {
      if Rank(s) > Rank(status) {
        status := s;
      }
    }

    // The compare-and-swap loop. Between the k-th load and the swap that follows,
    // other goroutines escalate to others(k).
    method Escalate(next: string, others: nat -> string) returns (loads: nat)
      requires Known(status)
      modifies this`status
      ensures Known(status) && Rank(status) >= Rank(old(status)) && Rank(status) >= Rank(next)
      ensures 1 <= loads <= Rank(next) + 1
      ensures (forall k :: Rank(others(k)) == 0) ==>
        status == (if Rank(next) > Rank(old(status)) then next else old(status))
      ensures status == old(status) || status == next || exists k :: status == others(k)
    {
      loads := 0;
      while true
        invariant Known(status) && Rank(status) >= Rank(old(status))
        invariant loads <= Rank(status) && loads <= Rank(next)
        invariant (forall k :: Rank(others(k)) == 0) ==> status == old(status)
        invariant status == old(status) || status == next || exists k :: status == others(k)
        decreases Rank(next) - Rank(status)
      {
        var cur := status;
        loads := loads + 1;
        if Rank(next) <= Rank(cur) {
          return;
        }
        Others(others(loads));
        if status == cur {
          status := next;
          return;
        }
      }
    }

    method RecordError(others: nat -> string)
      requires Known(status)
      modifies this
      ensures errors == old(errors) + 1 && Known(status) && Rank(status) >= Rank(old(status))
      ensures Rank(status) >= Rank(ERRORED)
      ensures (forall k :: Rank(others(k)) == 0) ==> status == (if old(status) == OK then ERRORED else old(status))
    {
      errors := errors + 1;
      var _ := Escalate(ERRORED, others);
    }

    method RecordCrash(others: nat -> string)
      requires Known(status)
      modifies this
      ensures errors == old(errors) + 1 && status == CRASHED
    {
      errors := errors + 1;
      var _ := Escalate(CRASHED, others);
    }
  }
}
