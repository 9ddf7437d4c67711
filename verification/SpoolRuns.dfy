/**
 * The offline spool over any number of process runs. Persisting workers, the
 * drain, crashes and restarts take turns in any order; the history records why
 * each envelope left the disk.
 */
module SpoolRuns {
  import opened SpoolNames
  import opened SpoolDir

  // ---------------------------------------------------------------- state

  // A file together with the number of the envelope in it.
  datatype Item = Item(id: nat, file: File)

  type Disk = map<string, Item>

  datatype Reason =
    | ByAccept
    | ByReject
    | Corrupt
    | Stale(cutoff: int)
    | Bounds(name: string, files: Directory)   // evicted from this directory, as listed
    | Overwritten                     // another envelope was renamed onto it
    | Mistaken                        // removed in place of the envelope that was judged

  datatype Entry =
    | Wrote(id: nat)
    | Listed(files: Directory)        // what was on the disk when a persist listed it
    | Accept(id: nat)
    | Reject(id: nat)
    | Removed(id: nat, why: Reason)

  datatype Lock = Free | ByPersist(p: nat) | ByDrain

  // Where a worker stands in persist(). From Writing on it holds the mutex.
  datatype Persister =
    | Resting
    | Waiting(file: File)
    | Writing(file: File)
    | Listing
    | Measuring(names: seq<string>, k: nat, sizes: map<string, nat>, total: int, files: Directory)
    | Evicting(names: seq<string>, k: nat, sizes: map<string, nat>, total: int, files: Directory)

  // Where the replaying goroutine stands in drain().
  datatype Drainer =
    | NotStarted
    | TakingList
    | Next(names: seq<string>, k: nat, cutoff: int)
    | Judging(names: seq<string>, k: nat, cutoff: int, item: Item)
    | Sending(names: seq<string>, k: nat, cutoff: int, item: Item)
    | Removing(names: seq<string>, k: nat, cutoff: int, item: Item, why: Reason)
    | Finished

  // When an envelope was written: the millisecond and the sequence number in its name.
  datatype Stamp = Stamp(ms: nat, q: nat)

  datatype Config = Config(maxEntries: nat, maxBytes: nat, maxAge: nat)

  datatype State = State(
    disk: Disk,
    written: seq<File>,       // written[id] is envelope id as it was written
    stamps: seq<Stamp>,       // and stamps[id] when
    history: seq<Entry>,
    clock: nat,               // milliseconds, never going back
    alive: bool,
    startMs: nat,             // when the current process started
    seqNo: nat,
    lock: Lock,
    persisters: seq<Persister>,
    drainer: Drainer)

  function Files(d: Disk): Directory {
    map n | n in d :: d[n].file
  }

  // ---------------------------------------------------------------- steps

  datatype Move =
    | Begin(p: nat, file: File)
    | Acquire(p: nat)
    | Write(p: nat, ok: bool)
    | List(p: nat, listing: seq<string>)
    | Stat(p: nat)
    | Evict(p: nat, ok: bool)
    | Release(p: nat)
    | DrainAcquire
    | DrainList(listing: seq<string>)
    | DrainRead(ok: bool)
    | DrainStop
    | DrainJudge
    | DrainSend(verdict: Verdict)
    | DrainRemove(ok: bool)
    | Tick(ms: nat)
    | Crash
    | Restart

  predicate IsHolding(x: Drainer) {
    x.Judging? || x.Sending? || x.Removing?
  }

  // What ReadDir and the sort yield; an unreadable directory lists as empty.
  ghost predicate CouldList(listing: seq<string>, d: Disk) {
    listing == [] || IsListing(listing, Files(d))
  }

  predicate OverBounds(c: Config, x: Persister)
    requires x.Evicting? && x.k <= |x.names|
  {
    |x.names| - x.k > c.maxEntries || x.total > c.maxBytes
  }

  ghost predicate PersistEnabled(c: Config, st: State, m: Move) {
    match m
    case Begin(p, file) =>
      && p < |st.persisters| && st.persisters[p].Resting?
      && file.contents.Envelope? && file.contents.v == ENVELOPE_VERSION && file.contents.path != ""
      && file.contents.createdAt == st.clock
    case Acquire(p) => p < |st.persisters| && st.persisters[p].Waiting? && st.lock == Free
    case Write(p, _) => p < |st.persisters| && st.persisters[p].Writing?
    case List(p, listing) => p < |st.persisters| && st.persisters[p].Listing? && CouldList(listing, st.disk)
    case Stat(p) =>
      && p < |st.persisters| && st.persisters[p].Measuring? && st.persisters[p].k <= |st.persisters[p].names|
    case Evict(p, _) =>
      && p < |st.persisters| && st.persisters[p].Evicting? && st.persisters[p].k < |st.persisters[p].names|
      && OverBounds(c, st.persisters[p])
    case Release(p) =>
      && p < |st.persisters| && st.persisters[p].Evicting? && st.persisters[p].k <= |st.persisters[p].names|
      && (st.persisters[p].k == |st.persisters[p].names| || !OverBounds(c, st.persisters[p]))
    case _ => false
  }

  ghost predicate DrainEnabled(st: State, m: Move) {
    match m
    case DrainAcquire => st.drainer.NotStarted? && st.lock == Free
    case DrainList(listing) => st.drainer.TakingList? && CouldList(listing, st.disk)
    case DrainRead(_) => st.drainer.Next? && st.drainer.k < |st.drainer.names|
    case DrainStop => st.drainer.Next?
    case DrainJudge => st.drainer.Judging?
    case DrainSend(_) => st.drainer.Sending?
    case DrainRemove(_) => st.drainer.Removing? && st.drainer.k < |st.drainer.names|
    case _ => false
  }

  ghost predicate Enabled(c: Config, st: State, m: Move) {
    match m
    case Tick(ms) => ms >= st.clock
    case Crash => st.alive
    case Restart => !st.alive
    case _ => st.alive && (PersistEnabled(c, st, m) || DrainEnabled(st, m))
  }

  function With(st: State, p: nat, x: Persister): State
    requires p < |st.persisters|
  {
    st.(persisters := st.persisters[p := x])
  }

  // Rename the finished temporary file onto the new name.
  function Store(st: State, file: File): State {
    var name := FileName(st.clock, st.seqNo + 1);
    var id := |st.written|;
    st.(disk := st.disk[name := Item(id, file)],
        written := st.written + [file],
        stamps := st.stamps + [Stamp(st.clock, st.seqNo + 1)],
        seqNo := st.seqNo + 1,
        history := (if name in st.disk then st.history + [Removed(st.disk[name].id, Overwritten)] else st.history)
                   + [Wrote(id)])
  }

  // os.Remove(name), recorded under the given reason.
  function Delete(st: State, name: string, why: Reason): State
    requires name in st.disk
  {
    st.(disk := st.disk - {name}, history := st.history + [Removed(st.disk[name].id, why)])
  }

  ghost function ApplyPersist(c: Config, st: State, m: Move): State
    requires PersistEnabled(c, st, m)
  {
    match m
    case Begin(p, file) => if file.size > c.maxBytes then st else With(st, p, Waiting(file))
    case Acquire(p) => With(st, p, Writing(st.persisters[p].file)).(lock := ByPersist(p))
    case Write(p, ok) =>
      if ok then With(Store(st, st.persisters[p].file), p, Listing)
      else With(st, p, Resting).(seqNo := st.seqNo + 1, lock := Free)
    case List(p, listing) =>
      With(st, p, Measuring(listing, 0, map[], 0, Files(st.disk))).(history := st.history + [Listed(Files(st.disk))])
    case Stat(p) =>
      var x := st.persisters[p];
      if x.k == |x.names| then With(st, p, Evicting(x.names, 0, x.sizes, x.total, x.files))
      else
        var n := x.names[x.k];
        if n in st.disk
        then With(st, p, Measuring(x.names, x.k + 1, x.sizes[n := st.disk[n].file.size],
                                   x.total + st.disk[n].file.size, x.files))
        else With(st, p, Measuring(x.names, x.k + 1, x.sizes, x.total, x.files))
    case Evict(p, ok) =>
      var x := st.persisters[p];
      var n := x.names[x.k];
      if ok && n in st.disk
      then With(Delete(st, n, Bounds(n, x.files)), p,
                Evicting(x.names, x.k + 1, x.sizes, x.total - (if n in x.sizes then x.sizes[n] else 0), x.files))
      else With(st, p, Evicting(x.names, x.k + 1, x.sizes, x.total, x.files))
    case Release(p) => With(st, p, Resting).(lock := Free)
  }

  ghost function ApplyDrain(c: Config, st: State, m: Move): State
    requires DrainEnabled(st, m)
  {
    var d := st.drainer;
    match m
    case DrainAcquire => st.(drainer := TakingList, lock := ByDrain)
    case DrainList(listing) => st.(drainer := Next(listing, 0, st.clock - c.maxAge), lock := Free)
    case DrainRead(ok) =>
      var n := d.names[d.k];
      st.(drainer := if ok && n in st.disk then Judging(d.names, d.k, d.cutoff, st.disk[n])
                     else Next(d.names, d.k + 1, d.cutoff))
    case DrainStop => st.(drainer := Finished)
    case DrainJudge =>
      var f := d.item.file.contents;
      st.(drainer :=
        if !(f.Envelope? && f.v == ENVELOPE_VERSION && f.path != "")
        then Removing(d.names, d.k, d.cutoff, d.item, Corrupt)
        else if 0 < f.createdAt < d.cutoff then Removing(d.names, d.k, d.cutoff, d.item, Stale(d.cutoff))
        else Sending(d.names, d.k, d.cutoff, d.item))
    case DrainSend(Accepted) =>
      st.(drainer := Removing(d.names, d.k, d.cutoff, d.item, ByAccept), history := st.history + [Accept(d.item.id)])
    case DrainSend(Rejected) =>
      st.(drainer := Removing(d.names, d.k, d.cutoff, d.item, ByReject), history := st.history + [Reject(d.item.id)])
    case DrainSend(Transient) => st.(drainer := Next(d.names, d.k + 1, d.cutoff))
    case DrainRemove(ok) =>
      var n := d.names[d.k];
      var st' := if ok && n in st.disk
                 then Delete(st, n, if st.disk[n].id == d.item.id then d.why else Mistaken)
                 else st;
      st'.(drainer := Next(d.names, d.k + 1, d.cutoff))
  }

  // A crash forgets everything but the disk. A restart begins a new process.
  ghost function Apply(c: Config, st: State, m: Move): State
    requires Enabled(c, st, m)
  {
    match m
    case Tick(ms) => st.(clock := ms)
    case Crash =>
      st.(alive := false, lock := Free, drainer := NotStarted,
          persisters := seq(|st.persisters|, _ => Resting))
    case Restart => st.(alive := true, startMs := st.clock, seqNo := 0)
    case _ => if PersistEnabled(c, st, m) then ApplyPersist(c, st, m) else ApplyDrain(c, st, m)
  }

  ghost predicate IsRun(c: Config, st: State, ms: seq<Move>)
    decreases |ms|
  {
    ms != [] ==> Enabled(c, st, ms[0]) && IsRun(c, Apply(c, st, ms[0]), ms[1..])
  }

  ghost function After(c: Config, st: State, ms: seq<Move>): State
    requires IsRun(c, st, ms)
    decreases |ms|
  {
    if ms == [] then st else After(c, Apply(c, st, ms[0]), ms[1..])
  }

  // No process yet; the directory may hold anything, its files numbered.
  ghost predicate IsInitial(st: State) {
    && !st.alive && st.lock == Free && st.drainer == NotStarted && st.history == []
    && (forall p :: 0 <= p < |st.persisters| ==> st.persisters[p].Resting?)
    && NumberedDisk(st) && |st.stamps| == |st.written|
    && (forall id: nat :: id < |st.written| ==> OnDisk(st, id))
  }

  ghost predicate OnDisk(st: State, id: nat) {
    exists n :: n in st.disk && st.disk[n].id == id
  }

  ghost predicate NumberedDisk(st: State) {
    && (forall n :: n in st.disk ==> st.disk[n].id < |st.written| && st.written[st.disk[n].id] == st.disk[n].file)
    && (forall n, n' :: n in st.disk && n' in st.disk && st.disk[n].id == st.disk[n'].id ==> n == n')
  }

  // ---------------------------------------------------------------- durability

  ghost predicate Wellformed(f: Contents) {
    f.Envelope? && f.v == ENVELOPE_VERSION && f.path != ""
  }

  // From the file of this name on, the directory had more envelopes than the cap
  // allows, or altogether it had more bytes.
  ghost predicate OverCap(c: Config, name: string, files: Directory) {
    exists names, k :: && IsListing(names, files) && 0 <= k < |names| && names[k] == name
                       && (|names| - k > c.maxEntries || Bytes(names, files) > c.maxBytes)
  }

  // What must be true for a removal to be recorded with this reason after `past`.
  ghost predicate Justified(c: Config, written: seq<File>, clock: nat, past: seq<Entry>, e: Entry)
    requires e.Removed?
  {
    && e.id < |written|
    && match e.why
       case ByAccept => Accept(e.id) in past
       case ByReject => Reject(e.id) in past
       case Corrupt => !Wellformed(written[e.id].contents)
       case Stale(cutoff) =>
         && written[e.id].contents.Envelope?
         && 0 < written[e.id].contents.createdAt < cutoff <= clock as int - c.maxAge
       case Bounds(name, files) =>
         && Listed(files) in past && OverCap(c, name, files)
         && name in files && files[name] == written[e.id]
       case _ => true
  }

  ghost predicate HistoryOk(c: Config, written: seq<File>, clock: nat, h: seq<Entry>) {
    forall k :: 0 <= k < |h| && h[k].Removed? ==> Justified(c, written, clock, h[..k], h[k])
  }

  ghost predicate Gone(h: seq<Entry>, id: nat) {
    exists k :: 0 <= k < |h| && h[k].Removed? && h[k].id == id
  }

  // Disk and history account for every envelope ever written: it is on the disk
  // until it is recorded as removed, and never comes back.
  ghost predicate Accounted(c: Config, st: State) {
    && NumberedDisk(st)
    && HistoryOk(c, st.written, st.clock, st.history)
    && forall id: nat :: id < |st.written| ==> (OnDisk(st, id) <==> !Gone(st.history, id))
  }

  // What the drain holds in its hand is an envelope as written, and the reason it
  // is about to give has been established.
  ghost predicate DrainerOk(c: Config, st: State) {
    var d := st.drainer;
    && (d.Next? || IsHolding(d) ==> d.k <= |d.names| && d.cutoff <= st.clock as int - c.maxAge)
    && (IsHolding(d) ==>
          d.k < |d.names| && d.item.id < |st.written| && st.written[d.item.id] == d.item.file)
    && (d.Removing? ==> Justified(c, st.written, st.clock, st.history, Removed(d.item.id, d.why)))
  }

  predicate IsCritical(x: Persister) {
    x.Writing? || x.Listing? || x.Measuring? || x.Evicting?
  }

  // Only the holder of the mutex writes files, lists them or enforces the bounds.
  ghost predicate LockOk(st: State) {
    && (forall p :: 0 <= p < |st.persisters| && IsCritical(st.persisters[p]) ==> st.lock == ByPersist(p))
    && (st.drainer.TakingList? ==> st.lock == ByDrain)
  }

  // What a persist has listed is what was on the disk then; the listed files that are
  // still there are unchanged, and it has counted no more bytes than there were.
  ghost predicate BoundsOk(st: State, x: Persister) {
    x.Measuring? || x.Evicting? ==>
      && (x.names == [] || IsListing(x.names, x.files)) && x.k <= |x.names|
      && Listed(x.files) in st.history
      && (forall n :: n in x.names && n in st.disk ==> n in x.files && st.disk[n].file == x.files[n])
      && x.total <= Bytes(if x.Measuring? then x.names[..x.k] else x.names, x.files)
  }

  ghost predicate PersistersOk(st: State) {
    LockOk(st) && forall p :: 0 <= p < |st.persisters| ==> BoundsOk(st, st.persisters[p])
  }

  ghost predicate Inv(c: Config, st: State) {
    Accounted(c, st) && DrainerOk(c, st) && PersistersOk(st)
  }

  lemma JustifiedLater(c: Config, w: seq<File>, w': seq<File>, t: nat, t': nat,
                       past: seq<Entry>, past': seq<Entry>, e: Entry)
    requires e.Removed? && Justified(c, w, t, past, e)
    requires w <= w' && t <= t' && past <= past'
    ensures Justified(c, w', t', past', e)
  {
  }

  lemma HistoryLater(c: Config, w: seq<File>, w': seq<File>, t: nat, t': nat, h: seq<Entry>)
    requires HistoryOk(c, w, t, h) && w <= w' && t <= t'
    ensures HistoryOk(c, w', t', h)
  {
    forall k | 0 <= k < |h| && h[k].Removed?
      ensures Justified(c, w', t', h[..k], h[k])
    {
      JustifiedLater(c, w, w', t, t', h[..k], h[..k], h[k]);
    }
  }

  lemma HistoryAppend(c: Config, w: seq<File>, t: nat, h: seq<Entry>, e: Entry)
    requires HistoryOk(c, w, t, h)
    requires e.Removed? ==> Justified(c, w, t, h, e)
    ensures HistoryOk(c, w, t, h + [e])
    ensures forall id :: Gone(h + [e], id) <==> Gone(h, id) || (e.Removed? && e.id == id)
  {
    var h' := h + [e];
    forall k | 0 <= k < |h'| && h'[k].Removed?
      ensures Justified(c, w, t, h'[..k], h'[k])
    {
      assert h'[..k] == h[..k];
    }
    assert h[..|h|] == h;
    forall id
      ensures Gone(h', id) <==> Gone(h, id) || (e.Removed? && e.id == id)
    {
      if Gone(h, id) {
        var k :| 0 <= k < |h| && h[k].Removed? && h[k].id == id;
        assert h'[k] == h[k];
      }
      if e.Removed? && e.id == id {
        assert h'[|h|] == e;
      }
    }
  }

  lemma DeleteKeeps(c: Config, st: State, name: string, why: Reason)
    requires Accounted(c, st) && name in st.disk
    requires Justified(c, st.written, st.clock, st.history, Removed(st.disk[name].id, why))
    ensures Accounted(c, Delete(st, name, why))
  {
    var st' := Delete(st, name, why);
    var gone := st.disk[name].id;
    HistoryAppend(c, st.written, st.clock, st.history, Removed(gone, why));
    forall id: nat | id < |st.written|
      ensures OnDisk(st', id) <==> !Gone(st'.history, id)
    {
      if id != gone && OnDisk(st, id) {
        var n :| n in st.disk && st.disk[n].id == id;
        assert n in st'.disk && st'.disk[n].id == id;
      }
      assert OnDisk(st', id) ==> OnDisk(st, id);
      assert OnDisk(st, gone);
    }
  }

  lemma GoneWasWritten(c: Config, w: seq<File>, t: nat, h: seq<Entry>, id: nat)
    requires HistoryOk(c, w, t, h)
    ensures Gone(h, id) ==> id < |w|
  {
  }

  // A file appears under a name that was free.
  lemma AppearKeeps(c: Config, st: State, name: string, file: File)
    requires Accounted(c, st) && name !in st.disk
    ensures Accounted(c, st.(disk := st.disk[name := Item(|st.written|, file)], written := st.written + [file],
                             history := st.history + [Wrote(|st.written|)]))
  {
    var id0 := |st.written|;
    var st' := st.(disk := st.disk[name := Item(id0, file)], written := st.written + [file],
                   history := st.history + [Wrote(id0)]);
    HistoryLater(c, st.written, st'.written, st.clock, st.clock, st.history);
    HistoryAppend(c, st'.written, st.clock, st.history, Wrote(id0));
    forall id: nat | id < |st'.written|
      ensures OnDisk(st', id) <==> !Gone(st'.history, id)
    {
      if id == id0 {
        assert st'.disk[name].id == id;
        GoneWasWritten(c, st.written, st.clock, st.history, id);
      } else {
        if OnDisk(st, id) {
          var n :| n in st.disk && st.disk[n].id == id;
          assert st'.disk[n].id == id;
        }
        assert OnDisk(st', id) ==> OnDisk(st, id);
      }
    }
  }

  lemma StoreKeeps(c: Config, st: State, file: File)
    requires Accounted(c, st)
    ensures Accounted(c, Store(st, file))
  {
    var name := FileName(st.clock, st.seqNo + 1);
    var st1 := if name in st.disk then Delete(st, name, Overwritten) else st;
    if name in st.disk {
      DeleteKeeps(c, st, name, Overwritten);
    }
    hide Accounted, FileName;
    AppearKeeps(c, st1, name, file);
    assert (st.disk - {name})[name := Item(|st.written|, file)] == st.disk[name := Item(|st.written|, file)];
    SameAccount(c, st1.(disk := st1.disk[name := Item(|st1.written|, file)], written := st1.written + [file],
                        history := st1.history + [Wrote(|st1.written|)]), Store(st, file));
  }

  // Only the disk, what was written, the history and the clock matter.
  lemma SameAccount(c: Config, st: State, st': State)
    requires Accounted(c, st)
    requires st'.disk == st.disk && st'.written == st.written && st'.history == st.history && st'.clock >= st.clock
    ensures Accounted(c, st')
  {
    HistoryLater(c, st.written, st.written, st.clock, st'.clock, st.history);
    assert forall id :: OnDisk(st, id) <==> OnDisk(st', id);
  }

  // The envelope about to be evicted: the listed directory exceeded a cap.
  lemma EvictionIsJustified(c: Config, st: State, p: nat)
    requires Accounted(c, st) && p < |st.persisters| && BoundsOk(st, st.persisters[p])
    requires st.persisters[p].Evicting? && st.persisters[p].k < |st.persisters[p].names|
    requires OverBounds(c, st.persisters[p])
    requires st.persisters[p].names[st.persisters[p].k] in st.disk
    ensures var x := st.persisters[p];
      var n := x.names[x.k];
      Justified(c, st.written, st.clock, st.history, Removed(st.disk[n].id, Bounds(n, x.files)))
  {
    var x := st.persisters[p];
    hide IsListing, Bytes;
    assert x.names[x.k] in x.names;
    assert OverCap(c, x.names[x.k], x.files);
  }

  lemma ListKeeps(c: Config, st: State, files: Directory)
    requires Accounted(c, st)
    ensures Accounted(c, st.(history := st.history + [Listed(files)]))
  {
    HistoryAppend(c, st.written, st.clock, st.history, Listed(files));
    assert forall id :: OnDisk(st, id) <==> OnDisk(st.(history := st.history + [Listed(files)]), id);
  }

  lemma PersistKeepsAccount(c: Config, st: State, m: Move)
    requires Accounted(c, st) && PersistersOk(st) && PersistEnabled(c, st, m)
    ensures Accounted(c, ApplyPersist(c, st, m))
  {
    var st' := ApplyPersist(c, st, m);
    hide Accounted, FileName, IsListing, Bytes;
    if m.Write? && m.ok {
      StoreKeeps(c, st, st.persisters[m.p].file);
      SameAccount(c, Store(st, st.persisters[m.p].file), st');
    } else if m.Evict? && m.ok && st.persisters[m.p].names[st.persisters[m.p].k] in st.disk {
      var x := st.persisters[m.p];
      var n := x.names[x.k];
      EvictionIsJustified(c, st, m.p);
      DeleteKeeps(c, st, n, Bounds(n, x.files));
      SameAccount(c, Delete(st, n, Bounds(n, x.files)), st');
    } else if m.List? {
      ListKeeps(c, st, Files(st.disk));
      SameAccount(c, st.(history := st.history + [Listed(Files(st.disk))]), st');
    } else {
      SameAccount(c, st, st');
    }
  }

  // Files disappear, and events are recorded.
  lemma BoundsLater(st: State, st': State, x: Persister)
    requires BoundsOk(st, x) && st.history <= st'.history
    requires forall n :: n in st'.disk ==> n in st.disk && st'.disk[n] == st.disk[n]
    ensures BoundsOk(st', x)
  {
    if x.Measuring? || x.Evicting? {
      var k :| 0 <= k < |st.history| && st.history[k] == Listed(x.files);
      assert st'.history[k] == Listed(x.files);
    }
  }

  lemma StatKeepsBounds(st: State, x: Persister, n: string)
    requires x.Measuring? && x.k < |x.names| && BoundsOk(st, x) && n == x.names[x.k]
    ensures n in st.disk ==>
      BoundsOk(st, Measuring(x.names, x.k + 1, x.sizes[n := st.disk[n].file.size], x.total + st.disk[n].file.size,
                             x.files))
    ensures BoundsOk(st, Measuring(x.names, x.k + 1, x.sizes, x.total, x.files))
  {
    MeasureMore(x.names, x.k, x.files);
    hide IsListing, Bytes;
    assert n in x.names;
  }

  lemma ListKeepsBounds(c: Config, st: State, p: nat, listing: seq<string>)
    requires PersistEnabled(c, st, List(p, listing))
    ensures var st' := ApplyPersist(c, st, List(p, listing)); BoundsOk(st', st'.persisters[p])
  {
    var st' := ApplyPersist(c, st, List(p, listing));
    assert st'.history[|st.history|] == Listed(Files(st.disk));
    assert forall n :: n in listing ==> n in Files(st.disk);
    hide IsListing;
    assert listing[..0] == [];
  }

  lemma StatMoveKeepsBounds(c: Config, st: State, p: nat)
    requires PersistEnabled(c, st, Stat(p)) && BoundsOk(st, st.persisters[p])
    ensures var st' := ApplyPersist(c, st, Stat(p)); BoundsOk(st', st'.persisters[p])
  {
    hide IsListing, Bytes, BoundsOk;
    var x, st' := st.persisters[p], ApplyPersist(c, st, Stat(p));
    assert st'.disk == st.disk && st'.history == st.history;
    if x.k < |x.names| {
      StatKeepsBounds(st, x, x.names[x.k]);
      BoundsStay(st, st', st'.persisters[p]);
    } else {
      AllMeasured(st, st', x);
    }
  }

  lemma AllMeasured(st: State, st': State, x: Persister)
    requires x.Measuring? && x.k == |x.names| && BoundsOk(st, x) && st'.disk == st.disk && st'.history == st.history
    ensures BoundsOk(st', Evicting(x.names, 0, x.sizes, x.total, x.files))
  {
    hide IsListing, Bytes;
    assert x.names[..x.k] == x.names;
  }

  lemma EvictMoveKeepsBounds(c: Config, st: State, p: nat, ok: bool)
    requires PersistEnabled(c, st, Evict(p, ok)) && BoundsOk(st, st.persisters[p])
    ensures var st' := ApplyPersist(c, st, Evict(p, ok)); BoundsOk(st', st'.persisters[p])
  {
    hide IsListing, Bytes, BoundsOk;
    var x, st' := st.persisters[p], ApplyPersist(c, st, Evict(p, ok));
    BoundsLater(st, st', x);
    OneLessToTry(st', x, st'.persisters[p].total);
  }

  lemma OneLessToTry(st: State, x: Persister, total: int)
    requires x.Evicting? && x.k < |x.names| && BoundsOk(st, x) && total <= x.total
    ensures BoundsOk(st, Evicting(x.names, x.k + 1, x.sizes, total, x.files))
  {
    hide IsListing, Bytes;
  }

  // The persist that moves keeps its own account of what it listed.
  lemma MoverKeepsBounds(c: Config, st: State, m: Move)
    requires PersistEnabled(c, st, m) && BoundsOk(st, st.persisters[m.p])
    ensures BoundsOk(ApplyPersist(c, st, m), ApplyPersist(c, st, m).persisters[m.p])
  {
    if m.List? {
      ListKeepsBounds(c, st, m.p, m.listing);
    } else if m.Stat? {
      StatMoveKeepsBounds(c, st, m.p);
    } else if m.Evict? {
      EvictMoveKeepsBounds(c, st, m.p, m.ok);
    } else {
      hide IsListing, Bytes;
    }
  }

  lemma BoundsStay(st: State, st': State, x: Persister)
    requires BoundsOk(st, x) && st'.disk == st.disk && st'.history == st.history
    ensures BoundsOk(st', x)
  {
  }

  lemma PersistKeepsLock(c: Config, st: State, m: Move)
    requires LockOk(st) && PersistEnabled(c, st, m)
    ensures LockOk(ApplyPersist(c, st, m))
  {
    hide CouldList, FileName, Files;
    var st' := ApplyPersist(c, st, m);
    assert st'.persisters == st.persisters[m.p := st'.persisters[m.p]];
  }

  lemma PersistKeepsPersisters(c: Config, st: State, m: Move)
    requires PersistersOk(st) && PersistEnabled(c, st, m)
    ensures PersistersOk(ApplyPersist(c, st, m))
  {
    var st' := ApplyPersist(c, st, m);
    assert st'.persisters == st.persisters[m.p := st'.persisters[m.p]];
    assert m.p < |st.persisters| && BoundsOk(st, st.persisters[m.p]);
    MoverKeepsBounds(c, st, m);
    PersistKeepsLock(c, st, m);
    hide BoundsOk, LockOk, ApplyPersist, PersistEnabled;
    forall q | 0 <= q < |st'.persisters|
      ensures BoundsOk(st', st'.persisters[q])
    {
      if q != m.p {
        OthersKeepBounds(c, st, m, q);
      }
    }
  }

  lemma OthersKeepBounds(c: Config, st: State, m: Move, q: nat)
    requires PersistersOk(st) && PersistEnabled(c, st, m) && q < |st.persisters| && q != m.p
    ensures BoundsOk(ApplyPersist(c, st, m), st.persisters[q])
  {
    var st' := ApplyPersist(c, st, m);
    assert BoundsOk(st, st.persisters[q]);
    if m.Write? && m.ok {
      assert IsCritical(st.persisters[m.p]);
      assert !IsCritical(st.persisters[q]);
    } else {
      hide IsListing, Bytes, FileName;
      BoundsLater(st, st', st.persisters[q]);
    }
  }

  lemma DrainKeepsPersisters(c: Config, st: State, m: Move)
    requires PersistersOk(st) && DrainEnabled(st, m)
    ensures PersistersOk(ApplyDrain(c, st, m))
  {
    var st' := ApplyDrain(c, st, m);
    forall p | 0 <= p < |st'.persisters|
      ensures BoundsOk(st', st'.persisters[p])
    {
      assert BoundsOk(st, st.persisters[p]);
      hide BoundsOk, IsListing;
      BoundsLater(st, st', st.persisters[p]);
    }
  }

  lemma DrainKeepsAccount(c: Config, st: State, m: Move)
    requires Accounted(c, st) && DrainerOk(c, st) && DrainEnabled(st, m)
    ensures Accounted(c, ApplyDrain(c, st, m)) && DrainerOk(c, ApplyDrain(c, st, m))
  {
    var d := st.drainer;
    var st' := ApplyDrain(c, st, m);
    if m.DrainSend? && !m.verdict.Transient? {
      var e := if m.verdict.Accepted? then Accept(d.item.id) else Reject(d.item.id);
      HistoryAppend(c, st.written, st.clock, st.history, e);
      assert forall id :: OnDisk(st, id) <==> OnDisk(st', id);
      assert st'.history[|st.history|] == e;
    } else if m.DrainRemove? && m.ok && d.names[d.k] in st.disk {
      var n := d.names[d.k];
      var why := if st.disk[n].id == d.item.id then d.why else Mistaken;
      DeleteKeeps(c, st, n, why);
      SameAccount(c, Delete(st, n, why), st');
    } else {
      SameAccount(c, st, st');
    }
  }

  lemma PersistKeepsDrainer(c: Config, st: State, m: Move)
    requires DrainerOk(c, st) && PersistEnabled(c, st, m)
    ensures DrainerOk(c, ApplyPersist(c, st, m))
  {
    var st' := ApplyPersist(c, st, m);
    assert st.written <= st'.written && st.history <= st'.history && st'.clock == st.clock && st'.drainer == st.drainer;
    if st.drainer.Removing? {
      JustifiedLater(c, st.written, st'.written, st.clock, st'.clock, st.history, st'.history,
                     Removed(st.drainer.item.id, st.drainer.why));
    }
  }

  // Time passes, a process crashes, or one starts.
  lemma ProcessKeepsInv(c: Config, st: State, m: Move)
    requires Inv(c, st) && Enabled(c, st, m) && (m.Tick? || m.Crash? || m.Restart?)
    ensures Inv(c, Apply(c, st, m))
  {
    var st' := Apply(c, st, m);
    SameAccount(c, st, st');
    assert DrainerOk(c, st') by {
      if st'.drainer.Removing? {
        JustifiedLater(c, st.written, st.written, st.clock, st'.clock, st.history, st.history,
                       Removed(st.drainer.item.id, st.drainer.why));
      }
    }
    hide Accounted, DrainerOk;
    forall p | 0 <= p < |st'.persisters|
      ensures BoundsOk(st', st'.persisters[p])
    {
      assert BoundsOk(st, st.persisters[p]);
      hide IsListing;
      if m.Crash? {
        assert st'.persisters[p] == Resting;
      } else {
        BoundsStay(st, st', st.persisters[p]);
      }
    }
  }

  lemma StepKeepsInv(c: Config, st: State, m: Move)
    requires Inv(c, st) && Enabled(c, st, m)
    ensures Inv(c, Apply(c, st, m))
  {
    if m.Tick? || m.Crash? || m.Restart? {
      ProcessKeepsInv(c, st, m);
    } else {
      assert Accounted(c, st) && DrainerOk(c, st) && PersistersOk(st);
      hide Accounted, DrainerOk, PersistersOk, ApplyPersist, ApplyDrain;
      if PersistEnabled(c, st, m) {
        PersistKeepsAccount(c, st, m);
        PersistKeepsDrainer(c, st, m);
        PersistKeepsPersisters(c, st, m);
      } else {
        DrainKeepsAccount(c, st, m);
        DrainKeepsPersisters(c, st, m);
      }
    }
  }

  lemma {:induction false} RunKeepsInv(c: Config, st: State, ms: seq<Move>)
    requires Inv(c, st) && IsRun(c, st, ms)
    ensures Inv(c, After(c, st, ms))
    decreases |ms|
  {
    if ms != [] {
      StepKeepsInv(c, st, ms[0]);
      RunKeepsInv(c, Apply(c, st, ms[0]), ms[1..]);
    }
  }

  lemma FirstInv(c: Config, st: State)
    requires IsInitial(st)
    ensures Inv(c, st)
  {
  }

  lemma {:induction false} WrittenGrows(c: Config, st: State, ms: seq<Move>)
    requires IsRun(c, st, ms)
    ensures st.written <= After(c, st, ms).written
    decreases |ms|
  {
    if ms != [] {
      assert st.written <= Apply(c, st, ms[0]).written;
      WrittenGrows(c, Apply(c, st, ms[0]), ms[1..]);
    }
  }

  ghost predicate LeftForCause(c: Config, st: State, id: nat) {
    exists k :: 0 <= k < |st.history| && st.history[k].Removed? && st.history[k].id == id
                && Justified(c, st.written, st.clock, st.history[..k], st.history[k])
  }

  // Across any number of processes, crashing anywhere, an envelope is on the disk
  // until it has left for a cause: it was accepted or rejected before that, was
  // corrupt or stale, was evicted while the bounds were exceeded, or another
  // envelope took its name. Accepted first and removed after, replay is at least
  // once; an envelope that has left is never back on the disk.
  lemma Durable(c: Config, st0: State, ms: seq<Move>)
    requires IsInitial(st0) && IsRun(c, st0, ms)
    ensures var st := After(c, st0, ms);
      forall id: nat :: id < |st.written| ==> (OnDisk(st, id) <==> !LeftForCause(c, st, id))
  {
    FirstInv(c, st0);
    RunKeepsInv(c, st0, ms);
    var st := After(c, st0, ms);
    forall id: nat | id < |st.written|
      ensures OnDisk(st, id) <==> !LeftForCause(c, st, id)
    {
      assert OnDisk(st, id) <==> !Gone(st.history, id);
    }
  }

  // ---------------------------------------------------------------- name clashes

  // Within a process names are unique; another process that starts in the
  // millisecond of an earlier file's name counts its files from one again.
  ghost predicate Behind(name: string, startMs: nat, seqNo: nat) {
    forall t: nat, q: nat :: name == FileName(t, q) && t >= startMs ==> q <= seqNo
  }

  ghost predicate Lost(e: Entry) {
    e.Removed? && (e.why.Overwritten? || e.why.Mistaken?)
  }

  ghost predicate NothingLost(st: State) {
    forall e :: e in st.history ==> !Lost(e)
  }

  // Every name on the disk is behind the names still to come, and the drain's
  // file, if it still exists, is the one it read.
  ghost predicate NamesDistinct(st: State) {
    && st.startMs <= st.clock
    && (forall n :: n in st.disk ==> Behind(n, st.startMs, st.seqNo))
    && (IsHolding(st.drainer) ==>
          var d := st.drainer;
          && d.k < |d.names| && Behind(d.names[d.k], st.startMs, st.seqNo)
          && (d.names[d.k] in st.disk ==> st.disk[d.names[d.k]] == d.item))
    && (st.drainer.Removing? ==> !Lost(Removed(0, st.drainer.why)))
    && NothingLost(st)
  }

  lemma FreshName(st: State)
    requires st.startMs <= st.clock
    ensures var name := FileName(st.clock, st.seqNo + 1);
      !Behind(name, st.startMs, st.seqNo) && Behind(name, st.startMs, st.seqNo + 1)
  {
    var name := FileName(st.clock, st.seqNo + 1);
    forall t: nat, q: nat | name == FileName(t, q)
      ensures q == st.seqNo + 1
    {
      FileNameInjective(t, q, st.clock, st.seqNo + 1);
    }
    assert name == FileName(st.clock, st.seqNo + 1) && st.clock >= st.startMs;
  }

  lemma BehindLater(name: string, startMs: nat, seqNo: nat)
    requires Behind(name, startMs, seqNo)
    ensures Behind(name, startMs, seqNo + 1)
  {
  }

  lemma StoreKeepsDistinct(st: State, file: File)
    requires NamesDistinct(st)
    ensures NamesDistinct(Store(st, file))
  {
    hide FileName;
    FreshName(st);
    var st' := Store(st, file);
    var name := FileName(st.clock, st.seqNo + 1);
    forall n | n in st'.disk
      ensures Behind(n, st'.startMs, st'.seqNo)
    {
      if n != name {
        BehindLater(n, st.startMs, st.seqNo);
      }
    }
    if IsHolding(st.drainer) {
      BehindLater(st.drainer.names[st.drainer.k], st.startMs, st.seqNo);
    }
  }

  lemma PersistKeepsDistinct(c: Config, st: State, m: Move)
    requires NamesDistinct(st) && PersistEnabled(c, st, m)
    ensures NamesDistinct(ApplyPersist(c, st, m))
  {
    hide FileName, Behind;
    if m.Write? && m.ok {
      StoreKeepsDistinct(st, st.persisters[m.p].file);
    } else if m.Write? {
      forall n | Behind(n, st.startMs, st.seqNo)
        ensures Behind(n, st.startMs, st.seqNo + 1)
      {
        BehindLater(n, st.startMs, st.seqNo);
      }
    }
  }

  lemma DrainKeepsDistinct(c: Config, st: State, m: Move)
    requires NamesDistinct(st) && DrainEnabled(st, m)
    ensures NamesDistinct(ApplyDrain(c, st, m))
  {
    hide FileName, Behind;
  }

  // Between processes nothing is in anybody's hand.
  ghost predicate Safe(st: State) {
    if st.alive then NamesDistinct(st) else NothingLost(st) && st.drainer.NotStarted?
  }

  // No file carries the name of a file the next process may write.
  ghost predicate NoClash(st: State) {
    forall n :: n in st.disk ==> Behind(n, st.clock, 0)
  }

  lemma StepKeepsSafe(c: Config, st: State, m: Move)
    requires Safe(st) && Enabled(c, st, m)
    requires m.Restart? ==> NoClash(st)
    ensures Safe(Apply(c, st, m))
  {
    match m
    case Tick(_) =>
    case Crash =>
    case Restart =>
    case _ =>
      if PersistEnabled(c, st, m) {
        PersistKeepsDistinct(c, st, m);
      } else {
        DrainKeepsDistinct(c, st, m);
      }
  }

  // Every process starts in a later millisecond than the files it finds.
  ghost predicate TimelyRun(c: Config, st: State, ms: seq<Move>)
    requires IsRun(c, st, ms)
    decreases |ms|
  {
    ms != [] ==> (ms[0].Restart? ==> NoClash(st)) && TimelyRun(c, Apply(c, st, ms[0]), ms[1..])
  }

  lemma {:induction false} TimelyRunKeepsSafe(c: Config, st: State, ms: seq<Move>)
    requires Safe(st) && IsRun(c, st, ms) && TimelyRun(c, st, ms)
    ensures Safe(After(c, st, ms))
    decreases |ms|
  {
    if ms != [] {
      StepKeepsSafe(c, st, ms[0]);
      TimelyRunKeepsSafe(c, Apply(c, st, ms[0]), ms[1..]);
    }
  }

  // Then no envelope is ever overwritten or removed in place of another.
  lemma TimelyProcessesLoseNothing(c: Config, st0: State, ms: seq<Move>)
    requires IsInitial(st0) && IsRun(c, st0, ms) && TimelyRun(c, st0, ms)
    ensures NothingLost(After(c, st0, ms))
  {
    TimelyRunKeepsSafe(c, st0, ms);
  }

  // ---------------------------------------------------------------- exactly then

  ghost predicate SameProcess(ms: seq<Move>) {
    forall m :: m in ms ==> !m.Crash? && !m.Restart?
  }

  lemma {:induction false} SameProcessIsTimely(c: Config, st: State, ms: seq<Move>)
    requires IsRun(c, st, ms) && SameProcess(ms)
    ensures TimelyRun(c, st, ms)
    decreases |ms|
  {
    if ms != [] {
      assert ms[0] in ms && forall m :: m in ms[1..] ==> m in ms;
      SameProcessIsTimely(c, Apply(c, st, ms[0]), ms[1..]);
    }
  }

  lemma RunCons(c: Config, st: State, m: Move, ms: seq<Move>)
    requires Enabled(c, st, m) && IsRun(c, Apply(c, st, m), ms)
    ensures IsRun(c, st, [m] + ms) && After(c, st, [m] + ms) == After(c, Apply(c, st, m), ms)
  {
    assert ([m] + ms)[0] == m && ([m] + ms)[1..] == ms;
  }

  // An idle process, with a worker to persist and the mutex free.
  ghost predicate CanPersist(st: State) {
    st.alive && st.lock == Free && |st.persisters| > 0 && st.persisters[0].Resting?
  }

  // The moves of one persist of a small envelope by worker 0.
  lemma PersistOnce(c: Config, st: State, ok: bool) returns (ms: seq<Move>)
    requires CanPersist(st)
    ensures IsRun(c, st, ms) && SameProcess(ms)
    ensures var st' := After(c, st, ms);
      if ok then exists file :: st'.history == Store(st, file).history
      else CanPersist(st') && st'.disk == st.disk && st'.clock == st.clock && st'.seqNo == st.seqNo + 1
  {
    var file := File(0, Envelope(ENVELOPE_VERSION, "/", st.clock, 0));
    var a, b, w := Begin(0, file), Acquire(0), Write(0, ok);
    var st1 := Apply(c, st, a);
    var st2 := Apply(c, st1, b);
    var st3 := Apply(c, st2, w);
    assert IsRun(c, st3, []);
    RunCons(c, st2, w, []);
    RunCons(c, st1, b, [w] + []);
    RunCons(c, st, a, [b] + ([w] + []));
    ms := [a] + ([b] + ([w] + []));
    assert After(c, st, ms) == st3;
    if ok {
      assert st3.history == Store(st, file).history;
    }
  }

  lemma {:induction false} RunJoin(c: Config, st: State, ms: seq<Move>, more: seq<Move>)
    requires IsRun(c, st, ms) && IsRun(c, After(c, st, ms), more)
    ensures IsRun(c, st, ms + more) && After(c, st, ms + more) == After(c, After(c, st, ms), more)
    decreases |ms|
  {
    if ms == [] {
      assert ms + more == more;
    } else {
      assert (ms + more)[0] == ms[0] && (ms + more)[1..] == ms[1..] + more;
      RunJoin(c, Apply(c, st, ms[0]), ms[1..], more);
    }
  }

  // A process that fails q-1 writes and then writes in millisecond t overwrites
  // the file of that name.
  lemma {:induction false} ClashHappens(c: Config, st: State, t: nat, q: nat) returns (ms: seq<Move>)
    requires CanPersist(st) && st.clock <= t && st.seqNo < q && FileName(t, q) in st.disk
    ensures IsRun(c, st, ms) && SameProcess(ms) && !NothingLost(After(c, st, ms))
    decreases q - st.seqNo
  {
    if st.seqNo + 1 < q {
      var once := PersistOnce(c, st, false);
      var rest := ClashHappens(c, After(c, st, once), t, q);
      RunJoin(c, st, once, rest);
      ms := once + rest;
    } else {
      var st1 := Apply(c, st, Tick(t));
      var once := PersistOnce(c, st1, true);
      RunCons(c, st, Tick(t), once);
      ms := [Tick(t)] + once;
      var file :| After(c, st1, once).history == Store(st1, file).history;
      var h := Store(st1, file).history;
      var e := Removed(st1.disk[FileName(t, q)].id, Overwritten);
      assert h == (st1.history + [e]) + [Wrote(|st1.written|)];
      assert h[|st1.history|] == e && Lost(e);
    }
  }

  // A new process can lose an envelope to a name clash exactly when some file it
  // finds has a name from its first millisecond or later.
  lemma RestartIsSafeExactlyWithoutClash(c: Config, st: State)
    requires !st.alive && st.lock == Free && st.drainer.NotStarted? && NothingLost(st)
    requires |st.persisters| > 0 && st.persisters[0].Resting?
    ensures var started := Apply(c, st, Restart);
      (exists ms :: IsRun(c, started, ms) && SameProcess(ms) && !NothingLost(After(c, started, ms))) <==> !NoClash(st)
  {
    var started := Apply(c, st, Restart);
    if NoClash(st) {
      StepKeepsSafe(c, st, Restart);
      forall ms | IsRun(c, started, ms) && SameProcess(ms)
        ensures NothingLost(After(c, started, ms))
      {
        SameProcessIsTimely(c, started, ms);
        TimelyRunKeepsSafe(c, started, ms);
      }
    } else {
      var n :| n in st.disk && !Behind(n, st.clock, 0);
      var t: nat, q: nat :| n == FileName(t, q) && t >= st.clock && q > 0;
      var ms := ClashHappens(c, started, t, q);
    }
  }
}
