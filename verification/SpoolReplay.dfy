/**
 * The drain's loop is a run of the spool machine, so what holds of every run of the
 * machine holds of the loop.
 */
module SpoolReplay {
  import opened SpoolNames
  import opened SpoolDir
  import opened SpoolRuns

  // The moves of the replaying goroutine.
  predicate ByDrainer(ms: seq<Move>) {
    forall m :: m in ms ==>
      m.DrainAcquire? || m.DrainList? || m.DrainRead? || m.DrainJudge? || m.DrainSend? || m.DrainRemove?
  }

  // The answers to its sends, in order.
  function Answered(ms: seq<Move>): seq<Verdict> {
    if ms == [] then []
    else
      var m := ms[|ms| - 1];
      Answered(ms[..|ms| - 1]) + (if m.DrainSend? then [m.verdict] else [])
  }

  lemma {:induction false} AnsweredAppend(a: seq<Move>, b: seq<Move>)
    ensures Answered(a + b) == Answered(a) + Answered(b)
  {
    if b == [] {
      assert a + b == a;
    } else {
      assert (a + b)[..|a + b| - 1] == a + b[..|b| - 1];
      AnsweredAppend(a, b[..|b| - 1]);
    }
  }

  // The answers to the envelopes that are to be sent, from index k on.
  function Due(names: seq<string>, k: nat, dir: Directory, cutoff: int, verdicts: nat -> Verdict): seq<Verdict>
    decreases |names| - k
  {
    if k >= |names| then []
    else (if names[k] in dir && Sendable(dir[names[k]].contents, cutoff) then [verdicts(k)] else [])
         + Due(names, k + 1, dir, cutoff, verdicts)
  }

  // A move of the replaying goroutine does what the drain's part of the machine says.
  lemma DrainMove(c: Config, st: State, m: Move)
    requires st.alive && DrainEnabled(st, m)
    ensures Enabled(c, st, m) && Apply(c, st, m) == ApplyDrain(c, st, m)
  {
    hide CouldList, ApplyDrain, ApplyPersist;
  }

  lemma Extend(c: Config, st: State, ms: seq<Move>, m: Move) returns (longer: seq<Move>)
    requires IsRun(c, st, ms) && ByDrainer(ms) && Enabled(c, After(c, st, ms), m) && ByDrainer([m])
    ensures IsRun(c, st, longer) && ByDrainer(longer)
    ensures After(c, st, longer) == Apply(c, After(c, st, ms), m)
    ensures Answered(longer) == Answered(ms) + (if m.DrainSend? then [m.verdict] else [])
  {
    var one := [m];
    var st1 := After(c, st, ms);
    assert one[1..] == [];
    assert IsRun(c, Apply(c, st1, m), one[1..]);
    assert IsRun(c, st1, one) && After(c, st1, one) == Apply(c, st1, m);
    RunJoin(c, st, ms, one);
    longer := ms + one;
    assert longer[..|ms|] == ms;
  }

  lemma First(c: Config, st: State, m: Move) returns (ms: seq<Move>)
    requires Enabled(c, st, m) && ByDrainer([m])
    ensures IsRun(c, st, ms) && ByDrainer(ms)
    ensures After(c, st, ms) == Apply(c, st, m)
    ensures Answered(ms) == if m.DrainSend? then [m.verdict] else []
  {
    hide Apply, Enabled;
    ms := Extend(c, st, [], m);
  }

  lemma Join(c: Config, st: State, ms: seq<Move>, more: seq<Move>)
    requires IsRun(c, st, ms) && ByDrainer(ms) && IsRun(c, After(c, st, ms), more) && ByDrainer(more)
    ensures IsRun(c, st, ms + more) && ByDrainer(ms + more)
    ensures After(c, st, ms + more) == After(c, After(c, st, ms), more)
    ensures Answered(ms + more) == Answered(ms) + Answered(more)
  {
    hide IsRun, After, Answered;
    RunJoin(c, st, ms, more);
    AnsweredAppend(ms, more);
  }

  lemma FilesWithout(d: Disk, n: string)
    ensures Files(d - {n}) == Files(d) - {n}
  {
  }

  // The drain is about to look at file k, and nothing else of the state but the disk and
  // the history differs from st0.
  ghost predicate AtFile(st0: State, st: State, names: seq<string>, k: nat, cutoff: int) {
    st == st0.(disk := st.disk, history := st.history, drainer := Next(names, k, cutoff))
  }

  lemma ReadAndJudge(c: Config, st: State, names: seq<string>, k: nat, cutoff: int) returns (ms: seq<Move>)
    requires st.alive && st.drainer == Next(names, k, cutoff) && k < |names| && names[k] in st.disk
    ensures IsRun(c, st, ms) && ByDrainer(ms) && Answered(ms) == []
    ensures var item := st.disk[names[k]];
      var st' := After(c, st, ms);
      && st' == st.(drainer := st'.drainer)
      && (if Sendable(item.file.contents, cutoff) then st'.drainer == Sending(names, k, cutoff, item)
          else st'.drainer.Removing? && st'.drainer == Removing(names, k, cutoff, item, st'.drainer.why))
  {
    DrainMove(c, st, DrainRead(true));
    var st1 := ApplyDrain(c, st, DrainRead(true));
    DrainMove(c, st1, DrainJudge);
    hide Enabled, Apply, PersistEnabled, ApplyPersist, IsRun, After, Answered;
    ms := First(c, st, DrainRead(true));
    ms := Extend(c, st, ms, DrainJudge);
  }

  lemma RemoveRun(c: Config, st: State, names: seq<string>, k: nat, cutoff: int) returns (ms: seq<Move>)
    requires st.alive && k < |names| && names[k] in st.disk && st.drainer.Removing?
    requires st.drainer == Removing(names, k, cutoff, st.drainer.item, st.drainer.why)
    ensures IsRun(c, st, ms) && ByDrainer(ms) && Answered(ms) == []
    ensures var st' := After(c, st, ms);
      AtFile(st, st', names, k + 1, cutoff) && st'.disk == st.disk - {names[k]}
  {
    DrainMove(c, st, DrainRemove(true));
    hide Enabled, Apply, PersistEnabled, ApplyPersist, IsRun, After, Answered;
    ms := First(c, st, DrainRemove(true));
  }

  lemma SendRun(c: Config, st: State, names: seq<string>, k: nat, cutoff: int, v: Verdict) returns (ms: seq<Move>)
    requires st.alive && k < |names| && names[k] in st.disk && st.drainer.Sending?
    requires st.drainer == Sending(names, k, cutoff, st.drainer.item)
    ensures IsRun(c, st, ms) && ByDrainer(ms) && Answered(ms) == [v]
    ensures var st' := After(c, st, ms);
      && AtFile(st, st', names, k + 1, cutoff)
      && st'.disk == if v.Transient? then st.disk else st.disk - {names[k]}
  {
    DrainMove(c, st, DrainSend(v));
    hide Enabled, Apply, PersistEnabled, ApplyPersist, IsRun, After, Answered;
    ms := First(c, st, DrainSend(v));
    if !v.Transient? {
      var rest := RemoveRun(c, After(c, st, ms), names, k, cutoff);
      Join(c, st, ms, rest);
      ms := ms + rest;
    }
  }

  // One file of the listing.
  lemma FileRun(c: Config, st: State, names: seq<string>, k: nat, cutoff: int, v: Verdict) returns (ms: seq<Move>)
    requires st.alive && st.drainer == Next(names, k, cutoff) && k < |names|
    ensures IsRun(c, st, ms) && ByDrainer(ms)
    ensures Answered(ms) ==
      if names[k] in st.disk && Sendable(st.disk[names[k]].file.contents, cutoff) then [v] else []
    ensures var st' := After(c, st, ms);
      && AtFile(st, st', names, k + 1, cutoff)
      && forall x: Pass :: x.dir == Files(st.disk) ==> Files(st'.disk) == ReplayOne(x, names[k], cutoff, v).dir
  {
    FilesWithout(st.disk, names[k]);
    if names[k] !in st.disk {
      ms := First(c, st, DrainRead(true));
    } else {
      var rest;
      ms := ReadAndJudge(c, st, names, k, cutoff);
      hide IsRun, After, Answered, Apply, Enabled, ByDrainer;
      if Sendable(st.disk[names[k]].file.contents, cutoff) {
        rest := SendRun(c, After(c, st, ms), names, k, cutoff, v);
      } else {
        rest := RemoveRun(c, After(c, st, ms), names, k, cutoff);
      }
      Join(c, st, ms, rest);
      assert [] + Answered(rest) == Answered(rest);
      ms := ms + rest;
    }
  }

  lemma MayList(st: State, st1: State, names: seq<string>)
    requires st.lock == Free && st.drainer.NotStarted? && IsListing(names, Files(st.disk))
    requires st1.drainer.TakingList? && st1.disk == st.disk
    ensures DrainEnabled(st, DrainAcquire) && DrainEnabled(st1, DrainList(names))
  {
    hide IsListing, Files;
  }

  lemma ListRun(c: Config, st: State, names: seq<string>) returns (ms: seq<Move>)
    requires st.alive && st.lock == Free && st.drainer.NotStarted? && IsListing(names, Files(st.disk))
    ensures IsRun(c, st, ms) && ByDrainer(ms) && Answered(ms) == []
    ensures After(c, st, ms) == st.(drainer := Next(names, 0, st.clock - c.maxAge))
  {
    var st1 := st.(drainer := TakingList, lock := ByDrain);
    MayList(st, st1, names);
    hide Enabled, Apply, DrainEnabled, IsListing, Files;
    DrainMove(c, st, DrainAcquire);
    DrainMove(c, st1, DrainList(names));
    assert ApplyDrain(c, st, DrainAcquire) == st1;
    assert ApplyDrain(c, st1, DrainList(names)) == st.(drainer := Next(names, 0, st.clock - c.maxAge));
    hide ApplyDrain, IsRun, After, Answered;
    ms := First(c, st, DrainAcquire);
    ms := Extend(c, st, ms, DrainList(names));
  }

  function Never(k: nat): bool {
    false
  }

  function Nothing(k: nat): set<string> {
    {}
  }

  lemma {:induction false} FilesRun(c: Config, st: State, names: seq<string>, k: nat, cutoff: int,
                                    verdicts: nat -> Verdict, x: Pass) returns (ms: seq<Move>)
    requires st.alive && st.drainer == Next(names, k, cutoff) && k <= |names| && x.dir == Files(st.disk)
    requires Sorted(names)
    ensures IsRun(c, st, ms) && ByDrainer(ms)
    ensures Answered(ms) == Due(names, k, Files(st.disk), cutoff, verdicts)
    ensures var st' := After(c, st, ms);
      && AtFile(st, st', names, |names|, cutoff)
      && Files(st'.disk) == Drained(x, names, k, cutoff, verdicts, Never, Nothing).dir
    decreases |names| - k
  {
    if k == |names| {
      ms := [];
    } else {
      ms := FileRun(c, st, names, k, cutoff, verdicts(k));
      var x' := ReplayOne(x, names[k], cutoff, verdicts(k));
      assert x.(dir := x.dir - Nothing(k)) == x;
      var st1 := After(c, st, ms);
      OthersAreDue(names, k, x.dir, x'.dir, cutoff, verdicts);
      hide IsRun, After, Answered, ReplayOne, Sorted, Sendable, ByDrainer;
      var rest := FilesRun(c, st1, names, k + 1, cutoff, verdicts, x');
      Join(c, st, ms, rest);
      ms := ms + rest;
    }
  }

  lemma OthersAreDue(names: seq<string>, k: nat, dir: Directory, dir': Directory, cutoff: int, verdicts: nat -> Verdict)
    requires Sorted(names) && k < |names|
    requires forall n :: n != names[k] ==> (n in dir <==> n in dir')
    requires forall n :: n != names[k] && n in dir ==> dir[n] == dir'[n]
    ensures Due(names, k + 1, dir, cutoff, verdicts) == Due(names, k + 1, dir', cutoff, verdicts)
  {
    NoneEqual(names, k);
    SameDue(names, k + 1, dir, dir', cutoff, verdicts);
  }

  lemma {:induction false} SameDue(names: seq<string>, k: nat, dir: Directory, dir': Directory, cutoff: int,
                                   verdicts: nat -> Verdict)
    requires forall j :: k <= j < |names| ==> (names[j] in dir <==> names[j] in dir')
    requires forall j :: k <= j < |names| && names[j] in dir ==> dir[names[j]] == dir'[names[j]]
    ensures Due(names, k, dir, cutoff, verdicts) == Due(names, k, dir', cutoff, verdicts)
    decreases |names| - k
  {
    if k < |names| {
      SameDue(names, k + 1, dir, dir', cutoff, verdicts);
    }
  }

  // Where no persist interferes, the drain's loop is a run of the machine by the
  // replaying goroutine alone, with the same answers, that leaves the same files.
  lemma DrainFollowsMachine(c: Config, st: State, names: seq<string>, verdicts: nat -> Verdict)
    returns (ms: seq<Move>)
    requires st.alive && st.lock == Free && st.drainer.NotStarted? && IsListing(names, Files(st.disk))
    ensures IsRun(c, st, ms) && ByDrainer(ms)
    ensures Answered(ms) == Due(names, 0, Files(st.disk), st.clock - c.maxAge, verdicts)
    ensures Files(After(c, st, ms).disk)
         == Drained(Pass(Files(st.disk), [], 0), names, 0, st.clock - c.maxAge, verdicts, Never, Nothing).dir
  {
    hide *;
    SortedListing(names, Files(st.disk));
    ms := ListRun(c, st, names);
    var st1 := After(c, st, ms);
    var rest := FilesRun(c, st1, names, 0, st.clock - c.maxAge, verdicts, Pass(Files(st.disk), [], 0));
    Join(c, st, ms, rest);
    ms := ms + rest;
  }

  lemma SortedListing(names: seq<string>, dir: Directory)
    requires IsListing(names, dir)
    ensures Sorted(names)
  {
  }
}
