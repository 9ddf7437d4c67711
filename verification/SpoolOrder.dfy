/**
 * In the spool's listing the envelopes stand in the order in which they were written,
 * over any number of processes, as long as each starts after the files it finds.
 */
module SpoolOrder {
  import opened SpoolNames
  import opened SpoolDir
  import opened SpoolRuns

  predicate Before(a: Stamp, b: Stamp) {
    a.ms < b.ms || (a.ms == b.ms && a.q < b.q)
  }

  // The file carries the name it was given, from a time that has passed.
  ghost predicate Stamped(st: State, n: string)
    requires n in st.disk && st.disk[n].id < |st.stamps|
  {
    var s := st.stamps[st.disk[n].id];
    && n == FileName(s.ms, s.q) && s.q >= 1 && s.ms <= st.clock
    && (st.alive ==> s.ms < st.startMs || s.q <= st.seqNo)
  }

  // The envelopes on the disk that were written since number `base` have names whose
  // stamps are in the order of writing.
  ghost predicate Ordered(st: State, base: nat) {
    && |st.stamps| == |st.written| && (st.alive ==> st.startMs <= st.clock)
    && (forall n :: n in st.disk ==> st.disk[n].id < |st.stamps|)
    && (forall n :: n in st.disk && st.disk[n].id >= base ==> Stamped(st, n))
    && (forall n, n' :: n in st.disk && n' in st.disk && base <= st.disk[n].id < st.disk[n'].id ==>
          Before(st.stamps[st.disk[n].id], st.stamps[st.disk[n'].id]))
  }

  // Files disappear, time passes and sequence numbers are used up.
  lemma OrderedLater(st: State, st': State, base: nat)
    requires Ordered(st, base)
    requires st'.stamps == st.stamps && |st'.written| == |st.written|
    requires forall n :: n in st'.disk ==> n in st.disk && st'.disk[n] == st.disk[n]
    requires st'.clock >= st.clock
    requires st'.alive ==> st.alive && st'.startMs == st.startMs && st'.seqNo >= st.seqNo
    ensures Ordered(st', base)
  {
    hide FileName;
    forall n | n in st'.disk && st'.disk[n].id >= base
      ensures Stamped(st', n)
    {
      assert Stamped(st, n);
    }
  }

  lemma StoreKeepsOrder(st: State, base: nat, file: File)
    requires Ordered(st, base) && st.alive
    ensures Ordered(Store(st, file), base)
  {
    hide FileName;
    var st' := Store(st, file);
    var name := FileName(st.clock, st.seqNo + 1);
    assert forall id: nat :: id < |st.stamps| ==> st'.stamps[id] == st.stamps[id];
    forall n | n in st'.disk && st'.disk[n].id >= base
      ensures Stamped(st', n)
    {
      if n != name {
        assert Stamped(st, n);
      }
    }
    forall n, n' | n in st'.disk && n' in st'.disk && base <= st'.disk[n].id < st'.disk[n'].id
      ensures Before(st'.stamps[st'.disk[n].id], st'.stamps[st'.disk[n'].id])
    {
      assert n != name && Stamped(st, n);
    }
  }

  // A process that finds no name of its first millisecond or later starts after all
  // the envelopes it finds.
  lemma RestartKeepsOrder(c: Config, st: State, base: nat)
    requires Ordered(st, base) && !st.alive && NoClash(st)
    ensures Ordered(Apply(c, st, Restart), base)
  {
    hide FileName;
    var st' := Apply(c, st, Restart);
    forall n | n in st'.disk && st'.disk[n].id >= base
      ensures Stamped(st', n)
    {
      assert Stamped(st, n) && Behind(n, st.clock, 0);
    }
  }

  lemma StepKeepsOrder(c: Config, st: State, m: Move, base: nat)
    requires Ordered(st, base) && Enabled(c, st, m) && (m.Restart? ==> NoClash(st))
    ensures Ordered(Apply(c, st, m), base)
  {
    var st' := Apply(c, st, m);
    if m.Restart? {
      RestartKeepsOrder(c, st, base);
    } else if m.Write? && m.ok {
      StoreKeepsOrder(st, base, st.persisters[m.p].file);
      hide FileName;
      OrderedLater(Store(st, st.persisters[m.p].file), st', base);
    } else {
      hide FileName, CouldList, Stamped;
      OrderedLater(st, st', base);
    }
  }

  lemma {:induction false} RunKeepsOrder(c: Config, st: State, ms: seq<Move>, base: nat)
    requires Ordered(st, base) && IsRun(c, st, ms) && TimelyRun(c, st, ms)
    ensures Ordered(After(c, st, ms), base)
    decreases |ms|
  {
    if ms != [] {
      StepKeepsOrder(c, st, ms[0], base);
      hide Ordered, Apply, Enabled;
      RunKeepsOrder(c, Apply(c, st, ms[0]), ms[1..], base);
    }
  }

  // Clock and sequence numbers still fit the widths of the names.
  ghost predicate WithinWidth(st: State) {
    && st.clock < 10_000_000_000_000
    && forall id: nat :: id < |st.stamps| ==> st.stamps[id].q < 10_000_000_000
  }

  // Of the envelopes written during the run, the name of one sorts before that of
  // another exactly when it was written first: the sorted listing is the order of
  // creation.
  lemma NamesSortByAge(c: Config, st0: State, ms: seq<Move>)
    requires IsInitial(st0) && IsRun(c, st0, ms) && TimelyRun(c, st0, ms)
    requires WithinWidth(After(c, st0, ms))
    ensures var st := After(c, st0, ms);
      forall n, n' :: n in st.disk && n' in st.disk
                      && st.disk[n].id >= |st0.written| && st.disk[n'].id >= |st0.written| ==>
        (Less(n, n') <==> st.disk[n].id < st.disk[n'].id)
  {
    var base := |st0.written|;
    assert Ordered(st0, base);
    RunKeepsOrder(c, st0, ms, base);
    var st := After(c, st0, ms);
    hide FileName, Less, IsRun, After, TimelyRun;
    forall n, n' | n in st.disk && n' in st.disk && st.disk[n].id >= base && st.disk[n'].id >= base
      ensures Less(n, n') <==> st.disk[n].id < st.disk[n'].id
    {
      assert Stamped(st, n) && Stamped(st, n');
      var s, s' := st.stamps[st.disk[n].id], st.stamps[st.disk[n'].id];
      NameOrderIsCreationOrder(s.ms, s.q, s'.ms, s'.q);
      if st.disk[n].id < st.disk[n'].id {
        assert Before(s, s');
      } else if st.disk[n'].id < st.disk[n].id {
        assert Before(s', s);
      }
    }
  }

  lemma {:induction false} RunSnoc(c: Config, st: State, ms: seq<Move>, m: Move)
    requires IsRun(c, st, ms) && TimelyRun(c, st, ms) && Enabled(c, After(c, st, ms), m) && !m.Restart?
    ensures IsRun(c, st, ms + [m]) && TimelyRun(c, st, ms + [m])
    ensures After(c, st, ms + [m]) == Apply(c, After(c, st, ms), m)
    decreases |ms|
  {
    if ms == [] {
      assert ms + [m] == [m] && [m][1..] == [];
    } else {
      assert (ms + [m])[0] == ms[0] && (ms + [m])[1..] == ms[1..] + [m];
      RunSnoc(c, Apply(c, st, ms[0]), ms[1..], m);
    }
  }

  // So the envelope just written has the greatest name of all that the run has written;
  // of all there are, if the spool was empty at first.
  lemma NewestHasGreatestName(c: Config, st0: State, ms: seq<Move>, p: nat)
    requires IsInitial(st0) && IsRun(c, st0, ms) && TimelyRun(c, st0, ms)
    requires Enabled(c, After(c, st0, ms), Write(p, true))
    requires WithinWidth(Apply(c, After(c, st0, ms), Write(p, true)))
    ensures var st := After(c, st0, ms);
      var st' := Apply(c, st, Write(p, true));
      var name := FileName(st.clock, st.seqNo + 1);
      && name in st'.disk
      && (forall n :: n in st'.disk && st'.disk[n].id >= |st0.written| && n != name ==> Less(n, name))
      && (st0.disk == map[] ==> forall n :: n in st'.disk && n != name ==> Less(n, name))
  {
    var st := After(c, st0, ms);
    var m := Write(p, true);
    var st' := Apply(c, st, m);
    RunSnoc(c, st0, ms, m);
    NamesSortByAge(c, st0, ms + [m]);
    FirstInv(c, st0);
    RunKeepsInv(c, st0, ms);
    var name := FileName(st.clock, st.seqNo + 1);
    hide FileName, Less, IsRun, After, TimelyRun;
    assert st'.disk[name].id == |st.written| && forall n :: n in st.disk ==> st.disk[n].id < |st.written|;
    WrittenGrows(c, st0, ms);
    assert |st0.written| > 0 ==> OnDisk(st0, 0);
  }
}
