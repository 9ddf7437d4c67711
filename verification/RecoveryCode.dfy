/**
 * The code that recovers a previous session and opens a new one, run without a
 * crash. Whether each file operation and the send succeed is decided outside.
 */
module RecoveryCode {
  import Escalation
  import opened Recovery

  lemma {:induction false} ExtendRun(st: State, ms: seq<Move>, m: Move)
    requires IsRun(st, ms) && Enabled(After(st, ms), m)
    ensures IsRun(st, ms + [m]) && After(st, ms + [m]) == Apply(After(st, ms), m)
    decreases |ms|
  {
    if ms == [] {
      assert ms + [m] == [m] && [m][1..] == [];
    } else {
      assert (ms + [m])[0] == ms[0] && (ms + [m])[1..] == ms[1..] + [m];
      ExtendRun(Apply(st, ms[0]), ms[1..], m);
    }
  }

  // A saved session that the next process will try to recover.
  predicate Recoverable(c: Content, clock: int) {
    && c.Data? && ValidSaved(c.s) && !c.s.closed
    && clock - c.s.startedAt * NS <= MAX_AGE_MS * NS
    && c.s.attempts < MAX_TRIES && c.s.lockUntil <= clock / NS
  }

  // A saved session that the next process removes instead.
  predicate Discarded(c: Content, clock: int) {
    c.Junk? || (c.Data? && (!ValidSaved(c.s) || c.s.closed || clock - c.s.startedAt * NS > MAX_AGE_MS * NS
                            || c.s.attempts >= MAX_TRIES))
  }

  // The state that claims a session for one more attempt.
  function Claimed(s: Saved, owner: nat, clock: int): Saved {
    s.(attempts := s.attempts + 1, lockOwner := owner, lockUntil := (clock + LOCK_TTL_NS) / NS, updatedAt := clock / NS)
  }

  datatype Sent = Nothing | EndReport(id: nat, status: string, durationMs: int)

  // How long the session is known to have lasted, from its start to its last update.
  function KnownDuration(s: Saved): int {
    Max(0, s.updatedAt - s.startedAt)
  }

  // The last update was in the millisecond of the recovery, or both moments are no
  // later than the start.
  predicate DurationIsKnown(s: Saved, clock: int) {
    s.updatedAt == clock / NS || (s.updatedAt <= s.startedAt && clock / NS <= s.startedAt)
  }

  class Tracker {
    var file: Content
    var clock: int
    var unused: nat
    var recoveries: nat

    // The machine state these fields are part of, and the run that led to it.
    ghost const start: State
    ghost var model: State
    ghost var trace: seq<Move>

    ghost predicate Valid()
      reads this
    {
      && file == model.file && clock == model.clock && unused == model.unused
      && IsInitial(start) && IsRun(start, trace) && model == After(start, trace)
    }

    constructor (start: State)
      requires IsInitial(start)
      ensures Valid() && this.start == start && trace == []
      ensures file == start.file && recoveries == 0
    {
      this.start := start;
      file, clock, unused, recoveries := start.file, start.clock, start.unused, 0;
      model, trace := start, [];
    }

    ghost method Record(m: Move)
      requires IsRun(start, trace) && model == After(start, trace) && Enabled(model, m)
      modifies this`model, this`trace
      ensures model == Apply(old(model), m) && trace == old(trace) + [m]
      ensures IsRun(start, trace) && model == After(start, trace)
    {
      ExtendRun(start, trace, m);
      model, trace := Apply(model, m), trace + [m];
    }

    method RemoveState(removed: bool)
      modifies this`file
      ensures file == if removed then Absent else old(file)
    {
      if removed {
        file := Absent;
      }
    }

    // An unreadable file is left alone, an invalid one removed.
    method ReadState(ok: bool, removed: bool) returns (found: bool, s: Saved)
      modifies this`file
      ensures found <==> ok && old(file).Data? && ValidSaved(old(file).s)
      ensures found ==> s == old(file).s
      ensures file == if ok && !found && !old(file).Absent? && removed then Absent else old(file)
    {
      found, s := false, Saved(0, 0, 0, "", false, 0, 0, 0);
      if !ok || file.Absent? {
        return;
      }
      if file.Junk? || !ValidSaved(file.s) {
        RemoveState(removed);
        return;
      }
      found, s := true, file.s;
    }

    method WriteState(s: Saved, ok: bool)
      modifies this`file
      ensures file == if ok then Data(s) else old(file)
    {
      if ok {
        file := Data(s);
      }
    }

    // The checks on the saved state, and the claim that follows from it.
    method Examine(readOk: bool, removed: bool) returns (found: bool, claim: Saved)
      requires Valid() && model.stage.Reading?
      modifies this
      ensures Valid() && old(trace) <= trace && clock == old(clock) && recoveries == old(recoveries)
      ensures found <==> readOk && Recoverable(old(file), clock)
      ensures file == if readOk && Discarded(old(file), clock) && removed then Absent else old(file)
      ensures !found ==> model.stage.Opening?
      ensures found ==> claim == Claimed(old(file).s, old(unused), clock) && model.stage == Claiming(claim)
    {
      claim := Saved(0, 0, 0, "", false, 0, 0, 0);
      Record(Read(readOk, removed));
      var s;
      found, s := ReadState(readOk, removed);
      if !found {
        return;
      }
      if s.closed || s.startedAt <= 0 || clock - s.startedAt * NS > MAX_AGE_MS * NS || s.attempts >= MAX_TRIES {
        RemoveState(removed);
        found := false;
        return;
      }
      if s.lockUntil > clock / NS {
        found := false;
        return;
      }
      claim := Claimed(s, unused, clock);
      unused := unused + 1;
    }

    // Write the claim and read it back: it is ours exactly when both worked.
    method ClaimSession(claim: Saved, claimOk: bool, confirmOk: bool, removed: bool) returns (owned: bool)
      requires Valid() && model.stage == Claiming(claim) && file.Data? && ValidSaved(file.s)
      modifies this
      ensures Valid() && old(trace) <= trace && clock == old(clock) && recoveries == old(recoveries)
      ensures owned <==> claimOk && confirmOk
      ensures file == if claimOk then Data(claim) else old(file)
      ensures owned ==> model.stage == Reporting(claim)
      ensures !owned ==> model.stage.Opening?
    {
      InvHere();
      WriteState(claim, claimOk);
      Record(WriteClaim(claimOk));
      Record(Confirm(confirmOk, removed));
      var found, now := ReadState(confirmOk, removed);
      owned := found && now.lockOwner == claim.lockOwner;
    }

    // Send the end report, then close the state, or unlock it for another try.
    method ReportEnd(s: Saved, accepted: bool, writeOk: bool) returns (sent: Sent)
      requires Valid() && model.stage == Reporting(s)
      modifies this
      ensures Valid() && old(trace) <= trace && clock == old(clock) && model.stage.Opening?
      ensures sent == EndReport(s.id, ReportStatus(s.status), Max(0, s.updatedAt - s.startedAt))
      ensures recoveries == old(recoveries) + (if accepted then 1 else 0)
      ensures file == if !writeOk then old(file)
                      else if accepted then Data(s.(status := sent.status, closed := true, lockUntil := 0))
                      else Data(s.(lockUntil := 0))
    {
      var status := Escalation.ABNORMAL;
      if s.status == Escalation.CRASHED {
        status := Escalation.CRASHED;
      }
      sent := EndReport(s.id, status, Max(0, s.updatedAt - s.startedAt));
      Record(Send(accepted));
      if !accepted {
        WriteState(s.(lockUntil := 0), writeOk);
        Record(Unlock(writeOk));
        return;
      }
      WriteState(s.(status := status, closed := true, lockUntil := 0), writeOk);
      Record(WriteClosed(writeOk));
      recoveries := recoveries + 1;
    }

    // recoverPreviousSession
    method Recover(readOk: bool, removed: bool, claimOk: bool, confirmOk: bool, accepted: bool, writeOk: bool)
      returns (sent: Sent)
      requires Valid() && model.stage.Reading?
      modifies this
      ensures Valid() && old(trace) <= trace && model.stage.Opening? && clock == old(clock)
      ensures sent.EndReport? <==> readOk && claimOk && confirmOk && Recoverable(old(file), clock)
      // Recoverable is a valid open session, begun at most seven days ago, with fewer than
      // three attempts, whose lock has expired; times here are in nanoseconds.
      ensures sent.EndReport? ==> readOk && claimOk && confirmOk && old(file).Data?
      ensures readOk && claimOk && confirmOk && old(file).Data? ==>
        var s := old(file).s;
        sent.EndReport? == (
          && s.startedAt > 0 && s.updatedAt > 0 && s.status in {"ok", "errored", "crashed", "abnormal"}
          && !s.closed && clock - s.startedAt * 1_000_000 <= 604_800_000_000_000
          && s.attempts < 3 && s.lockUntil <= clock / 1_000_000)
      ensures sent.EndReport? ==>
        var s := old(file).s;
        && sent.id == s.id && sent.status == (if s.status == "crashed" then "crashed" else "abnormal")
        && sent.durationMs == (if clock / 1_000_000 > s.startedAt then clock / 1_000_000 - s.startedAt else 0)
        // The claim is one more attempt, with a lock of thirty seconds; afterwards the
        // state is closed or unlocked, if that could be written.
        && file.Data? && file.s.attempts == s.attempts + 1 && file.s.id == s.id && file.s.startedAt == s.startedAt
        && file.s.updatedAt == clock / 1_000_000
        && (if writeOk then file.s.lockUntil == 0 && file.s.closed == accepted
            else file.s.lockUntil == (clock + 30_000_000_000) / 1_000_000 && !file.s.closed)
        && file.s.status == (if writeOk && accepted then sent.status else s.status)
      ensures sent.EndReport? ==>
        var s := old(file).s;
        && sent == EndReport(s.id, ReportStatus(s.status), Max(0, clock / NS - s.startedAt))
        && (sent.durationMs == KnownDuration(s) <==> DurationIsKnown(s, clock))
      ensures file ==
        if !readOk || !Recoverable(old(file), clock) then
          (if readOk && Discarded(old(file), clock) && removed then Absent else old(file))
        else
          var claim := Claimed(old(file).s, old(unused), clock);
          if !claimOk then old(file)
          else if !confirmOk || !writeOk then Data(claim)
          else if accepted then Data(claim.(status := sent.status, closed := true, lockUntil := 0))
          else Data(claim.(lockUntil := 0))
      ensures recoveries == old(recoveries) + (if sent.EndReport? && accepted then 1 else 0)
    {
      sent := Nothing;
      var found, claim := Examine(readOk, removed);
      if !found {
        return;
      }
      var owned := ClaimSession(claim, claimOk, confirmOk, removed);
      if !owned {
        return;
      }
      sent := ReportEnd(claim, accepted, writeOk);
    }

    lemma InvHere()
      requires Valid()
      ensures Inv(model)
    {
      InitialInv(start);
      RunKeepsInv(start, trace);
    }
  }

  // A session last heard of one second after its start and recovered four seconds
  // after it is reported to have lasted four seconds.
  method RecoverAfterDowntime() returns (known: int, sent: Sent)
    ensures known == 1000 && sent == EndReport(1, Escalation.ABNORMAL, 4000)
  {
    var saved := Saved(1, 1000, 2000, Escalation.OK, false, 0, 0, 0);
    known := KnownDuration(saved);
    var tracker := new Tracker(State(Data(saved), 5000 * NS, 2, Down, 0, 0, [], []));
    tracker.Record(Boot);
    sent := tracker.Recover(true, true, true, true, true, true);
  }
}
