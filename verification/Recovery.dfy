/**
 * Recovery of a release-health session that ended without saying so. Successive
 * processes share one state file; a process may crash between any two steps, and
 * any write, read or removal may fail.
 */
module Recovery {
  import opened Escalation

  const MAX_AGE_MS: int := 7 * 24 * 60 * 60 * 1000
  const LOCK_TTL_NS: int := 30_000_000_000
  const MAX_TRIES: int := 3
  const NS: int := 1_000_000        // nanoseconds in a millisecond

  // ---------------------------------------------------------------- state

  // Session ids and lock owners are random; here they are numbers never used
  // before. Owner 0 stands for the empty string.
  datatype Saved = Saved(
    id: nat,
    startedAt: int,
    updatedAt: int,
    status: string,
    closed: bool,
    attempts: int,
    lockOwner: nat,
    lockUntil: int)

  datatype Content = Absent | Junk | Data(s: Saved)

  predicate ValidSaved(s: Saved) {
    s.startedAt > 0 && s.updatedAt > 0 && Known(s.status)
  }

  // Where the process stands. `written` tells whether the claim reached the disk,
  // which the program itself only learns by reading the file back.
  datatype Stage =
    | Down
    | Reading
    | Claiming(s: Saved)
    | Confirming(s: Saved, written: bool)
    | Reporting(s: Saved)
    | Failed(s: Saved)
    | Succeeded(s: Saved)
    | Opening
    | Running
    | Ending
    | Ended

  datatype Event =
    | Claim(id: nat, attempt: int)                          // a claim reached the disk
    | Report(id: nat, stored: string, status: string, durationMs: int)
    | Close(id: nat)                                        // a closed state reached the disk
    | End(id: nat)                                          // the session ended by itself

  datatype State = State(
    file: Content,
    clock: int,                // nanoseconds
    unused: nat,                // the next unused number
    stage: Stage,
    id: nat,                   // the session of this process
    startedAt: int,
    pending: seq<Saved>,       // states read by updates that have not written yet
    history: seq<Event>)

  function NowMs(st: State): int {
    st.clock / NS
  }

  // ---------------------------------------------------------------- steps

  datatype Move =
    | Boot
    | Read(ok: bool, removed: bool)
    | WriteClaim(ok: bool)
    | Confirm(ok: bool, removed: bool)
    | Send(accepted: bool)
    | Unlock(ok: bool)
    | WriteClosed(ok: bool)
    | Open(ok: bool)
    | UpdateRead(removed: bool)
    | UpdateWrite(i: nat, status: string, ok: bool)
    | Stop
    | WriteEnd(status: string, ok: bool)
    | Crash
    | Pass(ns: nat)

  predicate Enabled(st: State, m: Move) {
    match m
    case Boot => st.stage.Down?
    case Read(_, _) => st.stage.Reading?
    case WriteClaim(_) => st.stage.Claiming?
    case Confirm(_, _) => st.stage.Confirming?
    case Send(_) => st.stage.Reporting?
    case Unlock(_) => st.stage.Failed?
    case WriteClosed(_) => st.stage.Succeeded?
    case Open(_) => st.stage.Opening?
    case UpdateRead(_) => st.stage.Running? || st.stage.Ending? || st.stage.Ended?
    case UpdateWrite(i, status, _) => i < |st.pending| && Known(status)
    case Stop => st.stage.Running?
    case WriteEnd(status, _) => st.stage.Ending? && Known(status)
    case Crash => !st.stage.Down?
    case Pass(_) => true
  }

  function Remove(st: State, removed: bool): State {
    if removed then st.(file := Absent) else st
  }

  function Write(st: State, s: Saved, ok: bool): State {
    if ok then st.(file := Data(s)) else st
  }

  // The checks of recoverPreviousSession on the state it has read.
  function ApplyRead(st: State, ok: bool, removed: bool): State {
    var next := st.(stage := Opening);
    if !ok || st.file.Absent? then next
    else if st.file.Junk? || !ValidSaved(st.file.s) then Remove(next, removed)
    else
      var s := st.file.s;
      if s.closed then Remove(next, removed)
      else if s.startedAt <= 0 || st.clock - s.startedAt * NS > MAX_AGE_MS * NS then Remove(next, removed)
      else if s.attempts >= MAX_TRIES then Remove(next, removed)
      else if s.lockUntil > NowMs(st) then next
      else st.(unused := st.unused + 1,
               stage := Claiming(s.(attempts := s.attempts + 1, lockOwner := st.unused,
                                    lockUntil := (st.clock + LOCK_TTL_NS) / NS, updatedAt := NowMs(st))))
  }

  function ReportStatus(stored: string): string {
    if stored == CRASHED then CRASHED else ABNORMAL
  }

  function Max(a: int, b: int): int {
    if a > b then a else b
  }

  function NewSession(st: State): Saved {
    Saved(st.unused, NowMs(st), NowMs(st), OK, false, 0, 0, 0)
  }

  function Without<T>(q: seq<T>, i: nat): seq<T>
    requires i < |q|
  {
    q[..i] + q[i + 1..]
  }

  function Apply(st: State, m: Move): State
    requires Enabled(st, m)
  {
    match m
    case Boot => st.(stage := Reading, pending := [])
    case Read(ok, removed) => ApplyRead(st, ok, removed)
    case WriteClaim(ok) =>
      var s := st.stage.s;
      Write(st, s, ok).(
        stage := Confirming(s, ok),
        history := if ok then st.history + [Claim(s.id, s.attempts)] else st.history)
    case Confirm(ok, removed) =>
      if !ok || st.file.Absent? then st.(stage := Opening)
      else if st.file.Junk? || !ValidSaved(st.file.s) then Remove(st.(stage := Opening), removed)
      else if st.file.s.lockOwner != st.stage.s.lockOwner then st.(stage := Opening)
      else st.(stage := Reporting(st.stage.s))
    case Send(accepted) =>
      var s := st.stage.s;
      st.(stage := if accepted then Succeeded(s) else Failed(s),
          history := st.history +
            [Report(s.id, s.status, ReportStatus(s.status), Max(0, s.updatedAt - s.startedAt))])
    case Unlock(ok) => Write(st, st.stage.s.(lockUntil := 0), ok).(stage := Opening)
    case WriteClosed(ok) =>
      var s := st.stage.s;
      Write(st, s.(status := ReportStatus(s.status), closed := true, lockUntil := 0), ok).(
        stage := Opening,
        history := if ok then st.history + [Close(s.id)] else st.history)
    case Open(ok) =>
      Write(st, NewSession(st), ok).(
        unused := st.unused + 1, stage := Running, id := st.unused, startedAt := NowMs(st), pending := [])
    case UpdateRead(removed) =>
      if st.file.Absent? then st
      else if st.file.Junk? || !ValidSaved(st.file.s) then Remove(st, removed)
      else if st.file.s.id != st.id || st.file.s.closed then st
      else st.(pending := st.pending + [st.file.s])
    case UpdateWrite(i, status, ok) =>
      Write(st, st.pending[i].(status := status, updatedAt := NowMs(st)), ok).(
        pending := Without(st.pending, i))
    case Stop => st.(stage := Ending)
    case WriteEnd(status, ok) =>
      Write(st, Saved(st.id, st.startedAt, NowMs(st), status, true, 0, 0, 0), ok).(
        stage := Ended,
        history := (if ok then st.history + [Close(st.id)] else st.history) + [End(st.id)])
    case Crash => st.(stage := Down, pending := [])
    case Pass(ns) => st.(clock := st.clock + ns)
  }

  ghost predicate IsRun(st: State, ms: seq<Move>)
    decreases |ms|
  {
    ms != [] ==> Enabled(st, ms[0]) && IsRun(Apply(st, ms[0]), ms[1..])
  }

  ghost function After(st: State, ms: seq<Move>): State
    requires IsRun(st, ms)
    decreases |ms|
  {
    if ms == [] then st else After(Apply(st, ms[0]), ms[1..])
  }

  // No process yet. The file may hold anything, a session of an earlier version of
  // the history included, as long as its attempts were counted up from zero.
  predicate IsInitial(st: State) {
    && st.stage.Down? && st.pending == [] && st.history == [] && st.clock >= NS && st.unused > 0
    && (st.file.Data? ==> st.file.s.id < st.unused && st.file.s.lockOwner < st.unused && st.file.s.attempts >= 0)
  }

  // ---------------------------------------------------------------- invariant

  function Claims(h: seq<Event>, id: nat): nat {
    if h == [] then 0
    else Claims(h[..|h| - 1], id) + (if h[|h| - 1].Claim? && h[|h| - 1].id == id then 1 else 0)
  }

  function Reports(h: seq<Event>, id: nat): nat {
    if h == [] then 0
    else Reports(h[..|h| - 1], id) + (if h[|h| - 1].Report? && h[|h| - 1].id == id then 1 else 0)
  }

  lemma CountAppend(h: seq<Event>, e: Event, id: nat)
    ensures Claims(h + [e], id) == Claims(h, id) + (if e.Claim? && e.id == id then 1 else 0)
    ensures Reports(h + [e], id) == Reports(h, id) + (if e.Report? && e.id == id then 1 else 0)
  {
    assert (h + [e])[..|h|] == h;
  }

  // A saved state whose attempts count the claims made on its session.
  ghost predicate Counted(st: State, s: Saved) {
    s.id < st.unused && s.lockOwner < st.unused && Claims(st.history, s.id) <= s.attempts
  }

  // The process has made a durable claim that it has not yet used for a report.
  predicate Unused(x: Stage, id: nat) {
    (x.Reporting? || (x.Confirming? && x.written)) && x.s.id == id
  }

  ghost predicate ClaimOk(st: State, s: Saved) {
    && s.id < st.unused && s.lockOwner < st.unused && 1 <= s.attempts <= MAX_TRIES
    && s.startedAt > 0 && s.updatedAt > 0 && s.updatedAt - s.startedAt <= MAX_AGE_MS && Known(s.status)
  }

  ghost predicate StageOk(st: State) {
    match st.stage
    case Claiming(s) =>
      && ClaimOk(st, s) && Claims(st.history, s.id) < s.attempts
      && (st.file.Data? ==> st.file.s.lockOwner != s.lockOwner)
    case Confirming(s, written) =>
      && ClaimOk(st, s)
      && if written then Claims(st.history, s.id) <= s.attempts && st.file == Data(s)
         else st.file.Data? ==> st.file.s.lockOwner != s.lockOwner
    case Reporting(s) => ClaimOk(st, s) && Claims(st.history, s.id) <= s.attempts
    case Failed(s) => ClaimOk(st, s) && Claims(st.history, s.id) <= s.attempts
    case Succeeded(s) => ClaimOk(st, s) && Claims(st.history, s.id) <= s.attempts
    case _ => true
  }

  predicate HasSession(x: Stage) {
    x.Running? || x.Ending? || x.Ended?
  }

  // What the process knows of its own session, wherever it is saved.
  predicate Own(st: State, s: Saved) {
    s.id == st.id ==> ValidSaved(s) && s.startedAt == st.startedAt && s.attempts == 0 && s.lockUntil == 0
  }

  ghost predicate Inv(st: State) {
    && st.clock >= NS && st.unused > 0
    && (st.file.Data? ==> Counted(st, st.file.s))
    && StageOk(st)
    && (HasSession(st.stage) ==>
          && st.id < st.unused && Claims(st.history, st.id) == 0 && 0 < st.startedAt <= NowMs(st)
          && (st.file.Data? ==> Own(st, st.file.s)))
    && (!HasSession(st.stage) ==> st.pending == [])
    && (forall i :: 0 <= i < |st.pending| ==>
          st.pending[i].id == st.id && Own(st, st.pending[i]) && Counted(st, st.pending[i]) && !st.pending[i].closed)
    && (forall id: nat :: Claims(st.history, id) <= MAX_TRIES)
    && (forall id: nat :: id >= st.unused ==> Claims(st.history, id) == 0)
    && (forall id: nat :: Reports(st.history, id) + (if Unused(st.stage, id) then 1 else 0) <= Claims(st.history, id))
  }

  lemma ReadKeepsInv(st: State, ok: bool, removed: bool)
    requires Inv(st) && st.stage.Reading?
    ensures Inv(ApplyRead(st, ok, removed))
  {
  }

  lemma ClaimKeepsInv(st: State, ok: bool)
    requires Inv(st) && st.stage.Claiming?
    ensures Inv(Apply(st, WriteClaim(ok)))
  {
    forall id: nat {
      CountAppend(st.history, Claim(st.stage.s.id, st.stage.s.attempts), id);
    }
    hide Claims, Reports;
  }

  lemma SendKeepsInv(st: State, accepted: bool)
    requires Inv(st) && st.stage.Reporting?
    ensures Inv(Apply(st, Send(accepted)))
  {
    var s := st.stage.s;
    var e := Report(s.id, s.status, ReportStatus(s.status), Max(0, s.updatedAt - s.startedAt));
    var h' := Apply(st, Send(accepted)).history;
    forall id: nat
      ensures Claims(h', id) == Claims(st.history, id)
      ensures Reports(h', id) == Reports(st.history, id) + (if Unused(st.stage, id) then 1 else 0)
    {
      CountAppend(st.history, e, id);
    }
    hide Claims, Reports;
  }

  lemma ConfirmKeepsInv(st: State, ok: bool, removed: bool)
    requires Inv(st) && st.stage.Confirming?
    ensures Inv(Apply(st, Confirm(ok, removed)))
  {
    hide Claims, Reports;
    assert forall id: nat :: Unused(Apply(st, Confirm(ok, removed)).stage, id) ==> Unused(st.stage, id);
  }

  lemma UnlockKeepsInv(st: State, ok: bool)
    requires Inv(st) && st.stage.Failed?
    ensures Inv(Apply(st, Unlock(ok)))
  {
    hide Claims, Reports;
  }

  lemma CloseKeepsInv(st: State, ok: bool)
    requires Inv(st) && st.stage.Succeeded?
    ensures Inv(Apply(st, WriteClosed(ok)))
  {
    var s := st.stage.s;
    var h' := Apply(st, WriteClosed(ok)).history;
    forall id: nat
      ensures Claims(h', id) == Claims(st.history, id) && Reports(h', id) == Reports(st.history, id)
    {
      CountAppend(st.history, Close(s.id), id);
    }
    hide Claims, Reports;
  }

  lemma EndKeepsCounts(st: State, status: string, ok: bool, id: nat)
    requires st.stage.Ending? && Known(status)
    ensures var h' := Apply(st, WriteEnd(status, ok)).history;
      Claims(h', id) == Claims(st.history, id) && Reports(h', id) == Reports(st.history, id)
  {
    var h := if ok then st.history + [Close(st.id)] else st.history;
    CountAppend(st.history, Close(st.id), id);
    CountAppend(h, End(st.id), id);
    assert Apply(st, WriteEnd(status, ok)).history == h + [End(st.id)];
  }

  // The invariant reads from the history only how many claims and reports there are.
  lemma SameCountsKeepInv(st: State, h: seq<Event>)
    requires Inv(st)
    requires forall id: nat :: Claims(h, id) == Claims(st.history, id) && Reports(h, id) == Reports(st.history, id)
    ensures Inv(st.(history := h))
  {
    hide Claims, Reports, Known;
  }

  lemma EndStageKeepsInv(st: State, saved: Saved, ok: bool)
    requires Inv(st) && st.stage.Ending?
    requires saved.id == st.id && saved.lockOwner == 0 && Own(st, saved)
    ensures Inv(Write(st, saved, ok).(stage := Ended))
  {
    hide Claims, Reports, Known;
    assert forall i :: 0 <= i < |st.pending| ==> Own(st, st.pending[i]) && Counted(st, st.pending[i]);
  }

  lemma EndKeepsInv(st: State, status: string, ok: bool)
    requires Inv(st) && st.stage.Ending? && Known(status)
    ensures Inv(Apply(st, WriteEnd(status, ok)))
  {
    var st' := Apply(st, WriteEnd(status, ok));
    var saved := Saved(st.id, st.startedAt, NowMs(st), status, true, 0, 0, 0);
    var ended := Write(st, saved, ok).(stage := Ended);
    assert st' == ended.(history := st'.history);
    EndStageKeepsInv(st, saved, ok);
    forall id: nat
      ensures Claims(st'.history, id) == Claims(st.history, id) && Reports(st'.history, id) == Reports(st.history, id)
    {
      EndKeepsCounts(st, status, ok, id);
    }
    hide Inv, Claims, Reports;
    SameCountsKeepInv(ended, st'.history);
  }

  lemma UpdateKeepsInv(st: State, m: Move)
    requires Inv(st) && Enabled(st, m) && (m.UpdateRead? || m.UpdateWrite?)
    ensures Inv(Apply(st, m))
  {
    hide Claims, Reports;
  }

  lemma OtherKeepsInv(st: State, m: Move)
    requires Inv(st) && Enabled(st, m) && (m.Boot? || m.Open? || m.Stop? || m.Crash? || m.Pass?)
    ensures Inv(Apply(st, m))
  {
    hide Claims, Reports;
  }

  lemma StepKeepsInv(st: State, m: Move)
    requires Inv(st) && Enabled(st, m)
    ensures Inv(Apply(st, m))
  {
    hide Inv;
    match m
    case Read(ok, removed) => ReadKeepsInv(st, ok, removed);
    case WriteClaim(ok) => ClaimKeepsInv(st, ok);
    case Send(accepted) => SendKeepsInv(st, accepted);
    case Confirm(ok, removed) => ConfirmKeepsInv(st, ok, removed);
    case Unlock(ok) => UnlockKeepsInv(st, ok);
    case WriteClosed(ok) => CloseKeepsInv(st, ok);
    case WriteEnd(status, ok) => EndKeepsInv(st, status, ok);
    case UpdateRead(_) => UpdateKeepsInv(st, m);
    case UpdateWrite(_, _, _) => UpdateKeepsInv(st, m);
    case _ => OtherKeepsInv(st, m);
  }

  lemma {:induction false} RunKeepsInv(st: State, ms: seq<Move>)
    requires Inv(st) && IsRun(st, ms)
    ensures Inv(After(st, ms))
    decreases |ms|
  {
    if ms != [] {
      StepKeepsInv(st, ms[0]);
      RunKeepsInv(Apply(st, ms[0]), ms[1..]);
    }
  }

  lemma InitialInv(st: State)
    requires IsInitial(st)
    ensures Inv(st)
  {
  }

  // ---------------------------------------------------------------- reports

  // However often processes crash and writes fail, a session is reported at most
  // once per durable claim, so at most three times.
  lemma ReportsAreBounded(st0: State, ms: seq<Move>, id: nat)
    requires IsInitial(st0) && IsRun(st0, ms)
    ensures var h := After(st0, ms).history; Reports(h, id) <= Claims(h, id) <= 3
  {
    InitialInv(st0);
    RunKeepsInv(st0, ms);
  }

  predicate ReportOk(e: Event) {
    e.Report? ==>
      && Known(e.stored) && Known(e.status)
      && Rank(e.status) == Max(Rank(ABNORMAL), Rank(e.stored))
      && 0 <= e.durationMs <= MAX_AGE_MS
  }

  lemma StepReportsRight(st: State, m: Move)
    requires StageOk(st) && Enabled(st, m)
    ensures forall e :: e in Apply(st, m).history && e !in st.history ==> ReportOk(e)
  {
    hide Claims;
  }

  lemma {:induction false} ReportsAreRight(st0: State, ms: seq<Move>)
    requires Inv(st0) && IsRun(st0, ms) && forall e :: e in st0.history ==> ReportOk(e)
    ensures forall e :: e in After(st0, ms).history ==> ReportOk(e)
    decreases |ms|
  {
    if ms != [] {
      StepKeepsInv(st0, ms[0]);
      StepReportsRight(st0, ms[0]);
      hide Inv, Apply, ReportOk;
      ReportsAreRight(Apply(st0, ms[0]), ms[1..]);
    }
  }

  // What that means: crashed if crashed was stored, and else abnormal; at most 604800
  // seconds.
  lemma ReportByName(e: Event)
    requires e.Report? && ReportOk(e)
    ensures e.status == if e.stored == "crashed" then "crashed" else "abnormal"
    ensures 0 <= e.durationMs <= 604_800_000
  {
  }

  // Every recovery report carries the more severe of abnormal and the stored
  // status, and a duration between nothing and seven days.
  lemma ReportsCarryStatusAndDuration(st0: State, ms: seq<Move>)
    requires IsInitial(st0) && IsRun(st0, ms)
    ensures forall e :: e in After(st0, ms).history ==> ReportOk(e)
    ensures forall e :: e in After(st0, ms).history && e.Report? ==>
      e.status == (if e.stored == "crashed" then "crashed" else "abnormal") && 0 <= e.durationMs <= 604_800_000
  {
    InitialInv(st0);
    ReportsAreRight(st0, ms);
    forall e | e in After(st0, ms).history && e.Report?
      ensures e.status == (if e.stored == "crashed" then "crashed" else "abnormal") && 0 <= e.durationMs <= 604_800_000
    {
      ReportByName(e);
    }
  }

  // ---------------------------------------------------------------- closed sessions

  // Too old to be recovered.
  predicate Expired(st: State, s: Saved) {
    st.clock - s.startedAt * NS > MAX_AGE_MS * NS
  }

  // Session id is closed on the disk, expired, or gone from it, and nobody holds an
  // open copy of it that could still be reported, now or after being written back.
  ghost predicate Settled(st: State, id: nat) {
    && id < st.unused
    && (st.file.Data? && st.file.s.id == id ==> st.file.s.closed || Expired(st, st.file.s))
    && (st.stage.Claiming? || st.stage.Confirming? || st.stage.Reporting? || st.stage.Failed? ==> st.stage.s.id != id)
    && (forall i :: 0 <= i < |st.pending| && st.pending[i].id == id ==> Expired(st, st.pending[i]))
  }

  lemma StepKeepsSettled(st: State, m: Move, id: nat)
    requires Settled(st, id) && Enabled(st, m)
    ensures Settled(Apply(st, m), id)
  {
  }

  // Only sending a report of the session adds one.
  lemma StepKeepsReports(st: State, m: Move, id: nat)
    requires Enabled(st, m) && (m.Send? ==> st.stage.s.id != id)
    ensures Reports(Apply(st, m).history, id) == Reports(st.history, id)
  {
    hide Reports, Claims;
    var h, h' := st.history, Apply(st, m).history;
    if m.WriteEnd? {
      EndKeepsCounts(st, m.status, m.ok, id);
    } else if h' != h {
      assert h' == h + [h'[|h|]];
      CountAppend(h, h'[|h|], id);
    }
  }

  lemma {:induction false} SettledForever(st: State, ms: seq<Move>, id: nat)
    requires Settled(st, id) && IsRun(st, ms)
    ensures Settled(After(st, ms), id) && Reports(After(st, ms).history, id) == Reports(st.history, id)
    decreases |ms|
  {
    if ms != [] {
      StepKeepsSettled(st, ms[0], id);
      StepKeepsReports(st, ms[0], id);
      SettledForever(Apply(st, ms[0]), ms[1..], id);
    }
  }

  // A recovered session is never reported again once its closed state is on the disk.
  lemma RecoveredSessionStaysClosed(st0: State, ms: seq<Move>, more: seq<Move>)
    requires IsInitial(st0) && IsRun(st0, ms)
    requires var st := After(st0, ms); st.stage.Succeeded? && IsRun(Apply(st, WriteClosed(true)), more)
    ensures var st := After(st0, ms);
      var closed := Apply(st, WriteClosed(true));
      Reports(After(closed, more).history, st.stage.s.id) == Reports(closed.history, st.stage.s.id)
  {
    InitialInv(st0);
    RunKeepsInv(st0, ms);
    var st := After(st0, ms);
    SettledForever(Apply(st, WriteClosed(true)), more, st.stage.s.id);
  }

  lemma RunCons(st: State, m: Move, ms: seq<Move>)
    requires Enabled(st, m) && IsRun(Apply(st, m), ms)
    ensures IsRun(st, [m] + ms) && After(st, [m] + ms) == After(Apply(st, m), ms)
  {
    assert ([m] + ms)[0] == m && ([m] + ms)[1..] == ms;
  }

  // An open, young, unlocked session on the disk is reported by the next process
  // if all goes well.
  lemma NextProcessReports(st: State) returns (ms: seq<Move>)
    requires st.file.Data? && ValidSaved(st.file.s) && !st.file.s.closed && st.file.s.attempts < MAX_TRIES
    requires !Expired(st, st.file.s) && st.clock >= NS
    requires st.file.s.lockUntil <= NowMs(st) && st.stage.Down?
    ensures IsRun(st, ms) && Reports(After(st, ms).history, st.file.s.id) == Reports(st.history, st.file.s.id) + 1
  {
    var id := st.file.s.id;
    var st2 := Apply(st, Boot);
    var st3 := Apply(st2, Read(true, true));
    var st4 := Apply(st3, WriteClaim(true));
    var st5 := Apply(st4, Confirm(true, true));
    var st6 := Apply(st5, Send(true));
    CountAppend(st.history, st4.history[|st.history|], id);
    CountAppend(st4.history, st6.history[|st4.history|], id);
    assert IsRun(st6, []);
    hide ApplyRead;
    RunCons(st5, Send(true), []);
    RunCons(st4, Confirm(true, true), [Send(true)] + []);
    var rest := [Confirm(true, true)] + ([Send(true)] + []);
    RunCons(st3, WriteClaim(true), rest);
    RunCons(st2, Read(true, true), [WriteClaim(true)] + rest);
    rest := [Read(true, true)] + ([WriteClaim(true)] + rest);
    RunCons(st, Boot, rest);
    ms := [Boot] + rest;
  }

  // The same if a process is still running, which may crash.
  lemma OpenSessionIsReported(st: State) returns (ms: seq<Move>)
    requires st.file.Data? && ValidSaved(st.file.s) && !st.file.s.closed && st.file.s.attempts < MAX_TRIES
    requires !Expired(st, st.file.s) && st.clock >= NS
    requires st.file.s.lockUntil <= NowMs(st)
    ensures IsRun(st, ms) && Reports(After(st, ms).history, st.file.s.id) == Reports(st.history, st.file.s.id) + 1
  {
    if st.stage.Down? {
      ms := NextProcessReports(st);
    } else {
      var rest := NextProcessReports(Apply(st, Crash));
      RunCons(st, Crash, rest);
      ms := [Crash] + rest;
    }
  }

  // The file still holds the open state of the process's own session.
  predicate OwnStateIsOpen(st: State) {
    st.file.Data? && st.file.s.id == st.id && !st.file.s.closed
  }

  // A session that ended by itself can still be reported as abnormal by a later
  // process exactly when it is no older than seven days and either an update of its
  // state was between its read and its write, and then puts the open state back, or
  // the closed state could not be written over the open one.
  lemma EndedSessionIsReportedExactlyWhen(st: State, status: string, ok: bool)
    requires Inv(st) && st.stage.Ending? && Known(status)
    ensures var ended := Apply(st, WriteEnd(status, ok));
      (exists ms :: IsRun(ended, ms) && Reports(After(ended, ms).history, st.id) > Reports(ended.history, st.id))
      <==> st.clock - st.startedAt * NS <= MAX_AGE_MS * NS && (st.pending != [] || (!ok && OwnStateIsOpen(st)))
  {
    var ended := Apply(st, WriteEnd(status, ok));
    assert forall i :: 0 <= i < |st.pending| ==> Own(st, st.pending[i]) && !st.pending[i].closed;
    if st.clock - st.startedAt * NS <= MAX_AGE_MS * NS && st.pending != [] {
      var m := UpdateWrite(0, status, true);
      var rest := OpenSessionIsReported(Apply(ended, m));
      RunCons(ended, m, rest);
      assert IsRun(ended, [m] + rest);
    } else if st.clock - st.startedAt * NS <= MAX_AGE_MS * NS && !ok && OwnStateIsOpen(st) {
      var ms := OpenSessionIsReported(ended);
    } else {
      assert Settled(ended, st.id);
      forall ms | IsRun(ended, ms)
        ensures Reports(After(ended, ms).history, st.id) == Reports(ended.history, st.id)
      {
        SettledForever(ended, ms, st.id);
      }
    }
  }
}
