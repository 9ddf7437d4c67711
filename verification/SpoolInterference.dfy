/**
 * When the newest envelope survives although the drain deletes files while the
 * bounds are enforced.
 */
module SpoolInterference {
  import opened SpoolNames
  import opened SpoolDir

  // ---------------------------------------------------------------- what happens to each file

  // The j-th listed file was there when it was measured.
  ghost predicate SeenAt(names: seq<string>, j: nat, before: Directory, gone: nat -> set<string>)
    requires j < |names|
  {
    names[j] in before && forall k: nat :: k <= j ==> names[j] !in gone(k)
  }

  // Since then, and before its turn to be removed, the drain has deleted it.
  ghost predicate VanishedAt(names: seq<string>, j: nat, gone: nat -> set<string>, gone': nat -> set<string>)
    requires j < |names|
  {
    || (exists k: nat :: j < k < |names| && names[j] in gone(k))
    || (exists k: nat :: k <= j && names[j] in gone'(k))
  }

  // The bytes of the first n files that were measured; those that the loop removes, if
  // it gets that far; and those that it cannot, because they have vanished.
  ghost function MeasuredBytes(names: seq<string>, n: nat, before: Directory, gone: nat -> set<string>): nat
    requires n <= |names|
  {
    if n == 0 then 0
    else MeasuredBytes(names, n - 1, before, gone)
         + (if SeenAt(names, n - 1, before, gone) then before[names[n - 1]].size else 0)
  }

  ghost function RemovableBytes(names: seq<string>, n: nat, before: Directory,
                                gone: nat -> set<string>, gone': nat -> set<string>): nat
    requires n <= |names|
  {
    if n == 0 then 0
    else RemovableBytes(names, n - 1, before, gone, gone')
         + (if SeenAt(names, n - 1, before, gone) && !VanishedAt(names, n - 1, gone, gone')
            then before[names[n - 1]].size else 0)
  }

  ghost function VanishedBytes(names: seq<string>, n: nat, before: Directory,
                               gone: nat -> set<string>, gone': nat -> set<string>): nat
    requires n <= |names|
  {
    if n == 0 then 0
    else VanishedBytes(names, n - 1, before, gone, gone')
         + (if SeenAt(names, n - 1, before, gone) && VanishedAt(names, n - 1, gone, gone')
            then before[names[n - 1]].size else 0)
  }

  lemma {:induction false} RemovableOrVanished(names: seq<string>, i: nat, n: nat, before: Directory,
                                               gone: nat -> set<string>, gone': nat -> set<string>)
    requires i <= n <= |names|
    ensures MeasuredBytes(names, n, before, gone)
         == RemovableBytes(names, n, before, gone, gone') + VanishedBytes(names, n, before, gone, gone')
    ensures RemovableBytes(names, i, before, gone, gone') <= RemovableBytes(names, n, before, gone, gone')
    decreases n
  {
    if n > 0 {
      RemovableOrVanished(names, if i < n then i else n - 1, n - 1, before, gone, gone');
    }
  }

  // ---------------------------------------------------------------- the stat loop

  ghost predicate StatsStand(names: seq<string>, j: nat, before: Directory, gone: nat -> set<string>, x: Sizes)
    requires j <= |names|
  {
    && (forall n :: n in x.dir <==> n in before && forall k: nat :: k < j ==> n !in gone(k))
    && (forall n :: n in x.dir ==> x.dir[n] == before[n])
    && (forall i :: 0 <= i < j && SeenAt(names, i, before, gone) ==>
          names[i] in x.sizes && x.sizes[names[i]] == before[names[i]].size)
    && x.total == MeasuredBytes(names, j, before, gone)
  }

  lemma StatsStep(names: seq<string>, j: nat, before: Directory, gone: nat -> set<string>, x: Sizes)
    requires Sorted(names) && j < |names| && StatsStand(names, j, before, gone, x)
    ensures StatsStand(names, j + 1, before, gone, StatOne(x, names[j], gone(j)))
  {
    NotAmongEarlier(names, j);
    hide Sorted, Less;
    var dir := x.dir - gone(j);
    forall n
      ensures n in dir <==> n in before && forall k: nat :: k < j + 1 ==> n !in gone(k)
    {
    }
    assert names[j] in dir <==> SeenAt(names, j, before, gone);
    assert forall i :: 0 <= i < j ==> names[i] in names[..j];
  }

  lemma {:induction false} StatsAre(names: seq<string>, j: nat, before: Directory, gone: nat -> set<string>, x: Sizes)
    requires Sorted(names) && j <= |names| && StatsStand(names, j, before, gone, x)
    ensures StatsStand(names, |names|, before, gone, Stats(names, j, x, gone))
    decreases |names| - j
  {
    if j < |names| {
      StatsStep(names, j, before, gone, x);
      hide StatsStand, Sorted, StatOne;
      StatsAre(names, j + 1, before, gone, StatOne(x, names[j], gone(j)));
    }
  }

  // ---------------------------------------------------------------- the removal loop

  // Before the i-th removal: which of the files still to be tried exist, and the total.
  ghost predicate RemovalStands(names: seq<string>, i: nat, before: Directory,
                                gone: nat -> set<string>, gone': nat -> set<string>,
                                sizes: map<string, nat>, total: int, dir: Directory)
    requires i <= |names|
  {
    && (forall j :: i <= j < |names| ==>
          (names[j] in dir <==>
             && names[j] in before
             && (forall k: nat :: k < |names| ==> names[j] !in gone(k))
             && (forall k: nat :: k < i ==> names[j] !in gone'(k))))
    && (forall j :: 0 <= j < |names| && SeenAt(names, j, before, gone) ==>
          names[j] in sizes && sizes[names[j]] == before[names[j]].size)
    && total == MeasuredBytes(names, |names|, before, gone) - RemovableBytes(names, i, before, gone, gone')
  }

  lemma StandsAtStart(names: seq<string>, before: Directory, gone: nat -> set<string>, gone': nat -> set<string>,
                      x: Sizes)
    requires StatsStand(names, |names|, before, gone, x) && forall n :: n in names ==> n in before
    ensures RemovalStands(names, 0, before, gone, gone', x.sizes, x.total, x.dir)
  {
    hide MeasuredBytes;
  }

  lemma RemovalStep(names: seq<string>, i: nat, before: Directory, gone: nat -> set<string>, gone': nat -> set<string>,
                    sizes: map<string, nat>, total: int, dir: Directory)
    requires Sorted(names) && i < |names| && RemovalStands(names, i, before, gone, gone', sizes, total, dir)
    ensures names[i] in dir - gone'(i) <==> SeenAt(names, i, before, gone) && !VanishedAt(names, i, gone, gone')
    ensures var left := dir - gone'(i);
      if names[i] in left
      then names[i] in sizes
           && RemovalStands(names, i + 1, before, gone, gone', sizes, total - sizes[names[i]], left - {names[i]})
      else RemovalStands(names, i + 1, before, gone, gone', sizes, total, left)
  {
    NoneEqual(names, i);
    hide Sorted, Less, MeasuredBytes;
    var left := dir - gone'(i);
    assert names[i] in left <==> SeenAt(names, i, before, gone) && !VanishedAt(names, i, gone, gone');
  }

  lemma {:induction false} LastSurvives(maxEntries: nat, maxBytes: nat, names: seq<string>, i: nat, before: Directory,
                                        gone: nat -> set<string>, gone': nat -> set<string>,
                                        sizes: map<string, nat>, total: int, dir: Directory)
    requires maxEntries >= 1 && Sorted(names) && i < |names|
    requires RemovalStands(names, i, before, gone, gone', sizes, total, dir)
    requires forall n :: n in names && n in dir ==> n in sizes
    requires var last := names[|names| - 1];
      last in before && forall k: nat :: last !in gone(k) && last !in gone'(k)
    ensures var last := names[|names| - 1];
      last in Evicted(maxEntries, maxBytes, names, i, sizes, total, dir, gone') <==>
      before[last].size + VanishedBytes(names, |names| - 1, before, gone, gone') <= maxBytes
    decreases |names| - i
  {
    var n := |names|;
    var last := names[n - 1];
    RemovableOrVanished(names, i, n - 1, before, gone, gone');
    assert SeenAt(names, n - 1, before, gone);
    assert MeasuredBytes(names, n, before, gone) == MeasuredBytes(names, n - 1, before, gone) + before[last].size;
    assert last in dir;
    if n - i > maxEntries || total > maxBytes {
      RemovalStep(names, i, before, gone, gone', sizes, total, dir);
      NoneEqual(names, i);
      hide RemovalStands, Sorted, SeenAt, VanishedAt, MeasuredBytes, RemovableBytes, VanishedBytes;
      var left := dir - gone'(i);
      if i < n - 1 {
        if names[i] in left {
          LastSurvives(maxEntries, maxBytes, names, i + 1, before, gone, gone', sizes, total - sizes[names[i]],
                       left - {names[i]});
        } else {
          LastSurvives(maxEntries, maxBytes, names, i + 1, before, gone, gone', sizes, total, left);
        }
      }
    }
  }

  // The newest envelope, if the drain does not delete it itself, survives exactly when
  // it fits together with the bytes that were measured and then vanished before their
  // turn, which the loop keeps counting.
  lemma NewestSurvivesExactlyWhen(maxEntries: nat, maxBytes: nat, names: seq<string>, before: Directory,
                                  gone: nat -> set<string>, gone': nat -> set<string>)
    requires maxEntries >= 1 && IsListing(names, before) && names != []
    requires var last := names[|names| - 1]; forall k: nat :: last !in gone(k) && last !in gone'(k)
    ensures var last := names[|names| - 1];
      last in Enforced(maxEntries, maxBytes, names, before, gone, gone') <==>
      before[last].size + VanishedBytes(names, |names| - 1, before, gone, gone') <= maxBytes
  {
    var x := Stats(names, 0, Sizes(before, map[], 0), gone);
    StatsMeasure(names, 0, Sizes(before, map[], 0), gone);
    assert names[|names| - 1] in names;
    assert forall n :: n in names ==> n in before;
    assert StatsStand(names, 0, before, gone, Sizes(before, map[], 0));
    hide RemovalStands, StatsStand, Sorted, Evicted, Stats, VanishedBytes, IsListing;
    StatsAre(names, 0, before, gone, Sizes(before, map[], 0));
    StandsAtStart(names, before, gone, gone', x);
    LastSurvives(maxEntries, maxBytes, names, 0, before, gone, gone', x.sizes, x.total, x.dir);
  }

  function NothingGone(k: nat): set<string> {
    {}
  }

  function FirstGone(k: nat): set<string> {
    if k == 0 then {FileName(1, 1)} else {}
  }

  function TwoNames(): seq<string> {
    [FileName(1, 1), FileName(1, 2)]
  }

  // Of two envelopes the drain deletes the older after it was measured; the newer one,
  // which fits by itself, is evicted.
  method NewestCanBeEvicted() returns (before: Directory, left: Directory)
    ensures IsListing(TwoNames(), before) && before[FileName(1, 2)].size <= 10
    ensures left == Enforced(500, 10, TwoNames(), before, NothingGone, FirstGone) && FileName(1, 2) !in left
  {
    var a, b := FileName(1, 1), FileName(1, 2);
    FileNameIsListed(1, 1);
    FileNameIsListed(1, 2);
    NameOrderIsCreationOrder(1, 1, 1, 2);
    LessIrreflexive(b);
    hide FileName, IsEnvelopeName;
    var contents := Envelope(ENVELOPE_VERSION, "/ingest/v1/errors", 1, 0);
    before := map[a := File(5, contents), b := File(8, contents)];
    var spool := new Spool(500, 10, before);
    var names := spool.EnforceBounds(true, NothingGone, FirstGone);
    var both := TwoNames();
    SameListing(names, both);
    left := spool.dir;
    NewestSurvivesExactlyWhen(500, 10, both, before, NothingGone, FirstGone);
    assert SeenAt(both, 0, before, NothingGone) && a in FirstGone(0);
    assert VanishedAt(both, 0, NothingGone, FirstGone);
    assert VanishedBytes(both, 1, before, NothingGone, FirstGone)
        == VanishedBytes(both, 0, before, NothingGone, FirstGone) + 5;
  }
}
