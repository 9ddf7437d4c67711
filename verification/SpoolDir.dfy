/**
 * The spool directory and the code that works on it: listing, enforcing the
 * bounds, persisting and draining. While a persist holds the mutex the drain may
 * still delete files; `gone(k)` are the names it deletes just before the k-th
 * disk access of the bounds loop.
 */
module SpoolDir {
  import opened SpoolNames

  datatype Contents =
    | Garbage                                                  // not a JSON envelope
    | Envelope(v: int, path: string, createdAt: int, body: nat)

  datatype File = File(size: nat, contents: Contents)

  type Directory = map<string, File>

  const ENVELOPE_VERSION := 1

  // ---------------------------------------------------------------- listings

  ghost predicate Sorted(names: seq<string>) {
    forall i, j :: 0 <= i < j < |names| ==> Less(names[i], names[j])
  }

  ghost predicate IsListing(names: seq<string>, dir: Directory) {
    && Sorted(names)
    && forall n :: n in names <==> n in dir && IsEnvelopeName(n)
  }

  function Bytes(names: seq<string>, dir: Directory): nat {
    if names == [] then 0
    else (if names[0] in dir then dir[names[0]].size else 0) + Bytes(names[1..], dir)
  }

  // The listed names whose files still exist.
  function Present(names: seq<string>, dir: Directory): seq<string> {
    if names == [] then []
    else (if names[0] in dir then [names[0]] else []) + Present(names[1..], dir)
  }

  ghost predicate Fits(maxEntries: nat, maxBytes: nat, names: seq<string>, dir: Directory) {
    |Present(names, dir)| <= maxEntries && Bytes(names, dir) <= maxBytes
  }

  lemma {:induction false} PresentBytes(names: seq<string>, dir: Directory)
    ensures Bytes(Present(names, dir), dir) == Bytes(names, dir) && |Present(names, dir)| <= |names|
  {
    if names != [] {
      PresentBytes(names[1..], dir);
      var rest := Present(names[1..], dir);
      if names[0] in dir {
        assert Present(names, dir) == [names[0]] + rest;
        assert ([names[0]] + rest)[1..] == rest;
      } else {
        assert Present(names, dir) == rest;
      }
    }
  }

  lemma {:induction false} PresentSorted(names: seq<string>, dir: Directory)
    requires Sorted(names)
    ensures forall n :: n in Present(names, dir) <==> n in names && n in dir
    ensures Sorted(Present(names, dir))
  {
    if names != [] {
      PresentSorted(names[1..], dir);
      var rest := Present(names[1..], dir);
      forall n | n in rest
        ensures Less(names[0], n)
      {
        assert n in names[1..];
        var k :| 0 <= k < |names[1..]| && names[1..][k] == n;
        assert names[k + 1] == n;
      }
      hide Bytes;
      assert forall n :: n in names <==> n == names[0] || n in names[1..];
    }
  }

  lemma {:induction false} PresentOfAll(names: seq<string>, dir: Directory)
    requires forall n :: n in names ==> n in dir
    ensures Present(names, dir) == names
  {
    if names != [] {
      PresentOfAll(names[1..], dir);
    }
  }

  lemma {:induction false} SameListing(a: seq<string>, b: seq<string>)
    requires Sorted(a) && Sorted(b) && forall n :: n in a <==> n in b
    ensures a == b
  {
    SubsetOfEmpty(a, b);
    SubsetOfEmpty(b, a);
    if a != [] {
      HeadIsLeast(a, b);
      HeadIsLeast(b, a);
      if a[0] != b[0] {
        LessTransitive(a[0], b[0], a[0]);
        LessIrreflexive(a[0]);
        assert false;
      }
      forall n
        ensures n in a[1..] <==> n in b[1..]
      {
        TailLacksHead(a, 0);
        TailLacksHead(b, 0);
        assert n in a <==> n == a[0] || n in a[1..];
        assert n in b <==> n == b[0] || n in b[1..];
      }
      SameListing(a[1..], b[1..]);
      assert a == [a[0]] + a[1..] && b == [b[0]] + b[1..];
    }
  }

  lemma SubsetOfEmpty(a: seq<string>, b: seq<string>)
    requires forall n :: n in a ==> n in b
    ensures a != [] ==> b != []
  {
    if a != [] {
      assert a[0] in b;
    }
  }

  lemma HeadIsLeast(a: seq<string>, b: seq<string>)
    requires Sorted(a) && a != [] && b != [] && b[0] in a
    ensures a[0] == b[0] || Less(a[0], b[0])
  {
  }

  lemma TailLacksHead(names: seq<string>, i: nat)
    requires Sorted(names) && i < |names|
    ensures names[i] !in names[i + 1..]
  {
    LessIrreflexive(names[i]);
  }

  lemma NotAmongEarlier(names: seq<string>, i: nat)
    requires Sorted(names) && i < |names|
    ensures names[i] !in names[..i]
  {
    LessIrreflexive(names[i]);
  }

  // The surviving part of a listing is the listing of the surviving directory, so
  // what is said about the one is said about the other.
  lemma SurvivorsAreListing(names: seq<string>, dir: Directory, dir': Directory)
    requires IsListing(names, dir) && dir'.Keys <= dir.Keys
    ensures IsListing(Present(names, dir'), dir')
    ensures forall other :: IsListing(other, dir') ==> other == Present(names, dir')
  {
    PresentSorted(names, dir');
    forall other | IsListing(other, dir')
      ensures other == Present(names, dir')
    {
      SameListing(other, Present(names, dir'));
    }
  }

  lemma {:induction false} BytesShrink(names: seq<string>, dir: Directory, dir': Directory)
    requires dir'.Keys <= dir.Keys && forall n :: n in dir' ==> dir'[n] == dir[n]
    ensures Bytes(names, dir') <= Bytes(names, dir)
  {
    if names != [] {
      BytesShrink(names[1..], dir, dir');
    }
  }

  lemma {:induction false} BytesSame(names: seq<string>, dir: Directory, dir': Directory)
    requires forall n :: n in names ==> (n in dir <==> n in dir')
    requires forall n :: n in names && n in dir ==> dir'[n].size == dir[n].size
    ensures Bytes(names, dir') == Bytes(names, dir)
  {
    if names != [] {
      BytesSame(names[1..], dir, dir');
    }
  }

  lemma {:induction false} BytesSnoc(names: seq<string>, n: string, dir: Directory)
    ensures Bytes(names + [n], dir) == Bytes(names, dir) + (if n in dir then dir[n].size else 0)
  {
    if names == [] {
      assert [n][1..] == [];
      assert names + [n] == [n];
    } else {
      assert (names + [n])[1..] == names[1..] + [n];
      BytesSnoc(names[1..], n, dir);
    }
  }

  lemma {:induction false} PresentNone(names: seq<string>, dir: Directory)
    requires forall n :: n in names ==> n !in dir
    ensures Present(names, dir) == [] && Bytes(names, dir) == 0
  {
    if names != [] {
      PresentNone(names[1..], dir);
    }
  }

  lemma {:induction false} PresentSplit(names: seq<string>, i: nat, dir: Directory)
    requires i <= |names|
    ensures Present(names, dir) == Present(names[..i], dir) + Present(names[i..], dir)
    ensures Bytes(names, dir) == Bytes(names[..i], dir) + Bytes(names[i..], dir)
  {
    if i > 0 {
      PresentSplit(names[1..], i - 1, dir);
      assert names[..i][1..] == names[1..][..i - 1];
    }
  }

  // ---------------------------------------------------------------- sorting

  function Insert(n: string, names: seq<string>): seq<string> {
    if names == [] then [n]
    else if Less(n, names[0]) then [n] + names
    else if n == names[0] then names
    else [names[0]] + Insert(n, names[1..])
  }

  lemma {:induction false} InsertProperties(n: string, names: seq<string>)
    requires Sorted(names)
    ensures Sorted(Insert(n, names))
    ensures forall x :: x in Insert(n, names) <==> x == n || x in names
  {
    if names != [] {
      LessTotal(n, names[0]);
      assert forall x :: x in names <==> x == names[0] || x in names[1..];
      if Less(n, names[0]) {
        forall j | 0 < j < |names|
          ensures Less(n, names[j])
        {
          LessTransitive(n, names[0], names[j]);
        }
      } else if n != names[0] {
        InsertProperties(n, names[1..]);
        var rest := Insert(n, names[1..]);
        forall k | 0 <= k < |rest|
          ensures Less(names[0], rest[k])
        {
          assert rest[k] in rest;
          if rest[k] != n {
            var j :| 0 <= j < |names[1..]| && names[1..][j] == rest[k];
            assert names[j + 1] == rest[k];
          }
        }
      }
    }
  }

  // ---------------------------------------------------------------- the bounds

  function Oldest(names: seq<string>, k: nat): set<string>
    requires k <= |names|
  {
    set n | n in names[..k]
  }

  // The k oldest envelopes must go, and no fewer, for the rest to fit.
  ghost predicate FirstThatFits(maxEntries: nat, maxBytes: nat, names: seq<string>, dir: Directory, k: nat) {
    && k <= |names|
    && Fits(maxEntries, maxBytes, names[k..], dir)
    && forall j :: 0 <= j < k ==> !Fits(maxEntries, maxBytes, names[j..], dir)
  }

  // The files kept are the longest newest-first suffix of the listing that fits.
  ghost predicate KeptExactly(maxEntries: nat, maxBytes: nat, names: seq<string>, before: Directory, after: Directory) {
    exists k: nat :: FirstThatFits(maxEntries, maxBytes, names, before, k) && after == before - Oldest(names, k)
  }

  lemma OneFits(maxEntries: nat, maxBytes: nat, name: string, dir: Directory)
    requires maxEntries >= 1 && name in dir && dir[name].size <= maxBytes
    ensures Fits(maxEntries, maxBytes, [name], dir)
  {
    var one: seq<string> := [name];
    assert one[1..] == [];
    assert Bytes(one, dir) == dir[name].size + Bytes([], dir);
    assert Present(one, dir) == [name] + Present([], dir);
  }

  // An envelope no larger than the byte cap, newest in the listing, is not evicted.
  lemma NewestSurvives(maxEntries: nat, maxBytes: nat, names: seq<string>, before: Directory, after: Directory)
    requires Sorted(names) && KeptExactly(maxEntries, maxBytes, names, before, after)
    requires names != [] && maxEntries >= 1
    requires var last := names[|names| - 1]; last in before && before[last].size <= maxBytes
    ensures var last := names[|names| - 1]; last in after && after[last] == before[last]
  {
    var k: nat :| FirstThatFits(maxEntries, maxBytes, names, before, k) && after == before - Oldest(names, k);
    var n := |names| - 1;
    OneFits(maxEntries, maxBytes, names[n], before);
    assert names[n..] == [names[n]];
    assert Fits(maxEntries, maxBytes, names[n..], before);
    assert k <= n;
    NotAmongEarlier(names, n);
    assert forall x :: x in names[..k] ==> x in names[..n];
  }

  // dir is what is left of before: no file was added or changed.
  ghost predicate Shrunk(before: Directory, dir: Directory) {
    dir.Keys <= before.Keys && forall n :: n in dir ==> dir[n] == before[n]
  }

  // total counts at least the listed files that exist, and sizes knows them all.
  ghost predicate Measured(names: seq<string>, dir: Directory, sizes: map<string, nat>, total: int) {
    && Bytes(names, dir) <= total
    && forall n :: n in names && n in dir ==> n in sizes && sizes[n] == dir[n].size
  }

  lemma MeasuredShrinks(names: seq<string>, dir: Directory, dir': Directory, sizes: map<string, nat>, total: int)
    requires Measured(names, dir, sizes, total) && Shrunk(dir, dir')
    ensures Measured(names, dir', sizes, total)
  {
    BytesShrink(names, dir, dir');
  }

  lemma MeasureOne(names: seq<string>, j: nat, dir: Directory, sizes: map<string, nat>, total: int)
    requires j < |names| && Sorted(names) && Measured(names[..j], dir, sizes, total)
    ensures
      if names[j] in dir
      then Measured(names[..j + 1], dir, sizes[names[j] := dir[names[j]].size], total + dir[names[j]].size)
      else Measured(names[..j + 1], dir, sizes, total)
    ensures Bytes(names[..j + 1], dir)
         == Bytes(names[..j], dir) + (if names[j] in dir then dir[names[j]].size else 0)
  {
    assert names[..j + 1] == names[..j] + [names[j]];
    BytesSnoc(names[..j], names[j], dir);
  }

  lemma MeasureMore(names: seq<string>, j: nat, before: Directory)
    requires j < |names|
    ensures Bytes(names[..j + 1], before)
         == Bytes(names[..j], before) + (if names[j] in before then before[names[j]].size else 0)
  {
    assert names[..j + 1] == names[..j] + [names[j]];
    BytesSnoc(names[..j], names[j], before);
  }

  lemma EvictOne(names: seq<string>, i: nat, dir: Directory, sizes: map<string, nat>, total: int)
    requires i < |names| && Sorted(names) && Measured(names[i..], dir, sizes, total)
    ensures names[i] in dir ==> names[i] in sizes && sizes[names[i]] == dir[names[i]].size
    ensures Bytes(names[i..], dir) <= total
    ensures var rest := dir - {names[i]};
      && Bytes(names[i..], dir) == (if names[i] in dir then dir[names[i]].size else 0) + Bytes(names[i + 1..], rest)
      && Measured(names[i + 1..], rest, sizes,
                  total - (if names[i] in dir then dir[names[i]].size else 0))
  {
    assert names[i..][1..] == names[i + 1..] && names[i..][0] == names[i];
    TailLacksHead(names, i);
    BytesSame(names[i + 1..], dir, dir - {names[i]});
    assert forall n :: n in names[i + 1..] ==> n in names[i..];
  }

  // The directory during the stat loop, with the sizes found so far and their sum.
  datatype Sizes = Sizes(dir: Directory, sizes: map<string, nat>, total: nat)

  // One round of it, just before which some files disappear.
  function StatOne(x: Sizes, name: string, gone: set<string>): Sizes {
    var dir := x.dir - gone;
    if name in dir then Sizes(dir, x.sizes[name := dir[name].size], x.total + dir[name].size) else x.(dir := dir)
  }

  // What the stat loop finds, from index j on, when gone(k) disappears before the k-th
  // file is looked at.
  function Stats(names: seq<string>, j: nat, x: Sizes, gone: nat -> set<string>): Sizes
    decreases |names| - j
  {
    if j >= |names| then x else Stats(names, j + 1, StatOne(x, names[j], gone(j)), gone)
  }

  lemma {:induction false} StatsMeasure(names: seq<string>, j: nat, x: Sizes, gone: nat -> set<string>)
    requires Sorted(names) && j <= |names| && Measured(names[..j], x.dir, x.sizes, x.total)
    ensures var y := Stats(names, j, x, gone);
      Shrunk(x.dir, y.dir) && Measured(names, y.dir, y.sizes, y.total)
    decreases |names| - j
  {
    if j == |names| {
      assert names[..j] == names;
    } else {
      MeasuredShrinks(names[..j], x.dir, x.dir - gone(j), x.sizes, x.total);
      MeasureOne(names, j, x.dir - gone(j), x.sizes, x.total);
      hide Measured, Sorted, Bytes;
      StatsMeasure(names, j + 1, StatOne(x, names[j], gone(j)), gone);
    }
  }

  ghost predicate NoneGone(gone: nat -> set<string>) {
    forall k: nat :: gone(k) == {}
  }

  ghost predicate SomeTime(n: string, gone: nat -> set<string>) {
    exists k: nat :: n in gone(k)
  }

  lemma {:induction false} StatsShrink(names: seq<string>, j: nat, x: Sizes, gone: nat -> set<string>)
    ensures var y := Stats(names, j, x, gone);
      && Shrunk(x.dir, y.dir)
      && (forall n :: n in x.dir && n !in y.dir ==> SomeTime(n, gone))
      && (NoneGone(gone) ==> y.dir == x.dir)
    decreases |names| - j
  {
    if j < |names| {
      StatsShrink(names, j + 1, StatOne(x, names[j], gone(j)), gone);
    }
  }

  lemma {:induction false} StatsTotal(names: seq<string>, j: nat, x: Sizes, gone: nat -> set<string>, before: Directory)
    requires j <= |names| && Shrunk(before, x.dir) && x.total <= Bytes(names[..j], before)
    ensures Stats(names, j, x, gone).total <= Bytes(names, before)
    ensures NoneGone(gone) && x.dir == before && x.total == Bytes(names[..j], before) ==>
      Stats(names, j, x, gone).total == Bytes(names, before)
    decreases |names| - j
  {
    if j == |names| {
      assert names[..j] == names;
    } else {
      MeasureMore(names, j, before);
      hide Bytes;
      StatsTotal(names, j + 1, StatOne(x, names[j], gone(j)), gone, before);
    }
  }

  // What enforceBoundsLocked makes of the listed directory: gone(k) disappears while
  // the files are measured, gone'(k) while they are removed.
  function Enforced(maxEntries: nat, maxBytes: nat, names: seq<string>, before: Directory,
                    gone: nat -> set<string>, gone': nat -> set<string>): Directory
    requires Sorted(names)
  {
    StatsMeasure(names, 0, Sizes(before, map[], 0), gone);
    var x := Stats(names, 0, Sizes(before, map[], 0), gone);
    Evicted(maxEntries, maxBytes, names, 0, x.sizes, x.total, x.dir, gone')
  }

  // What the removal loop leaves, from index i on, when gone(k) disappears before
  // the k-th removal.
  function Evicted(maxEntries: nat, maxBytes: nat, names: seq<string>, i: nat, sizes: map<string, nat>, total: int,
                   dir: Directory, gone: nat -> set<string>): Directory
    requires forall n :: n in names && n in dir ==> n in sizes
    decreases |names| - i
  {
    if i >= |names| || (|names| - i <= maxEntries && total <= maxBytes) then dir
    else
      var left := dir - gone(i);
      if names[i] in left
      then Evicted(maxEntries, maxBytes, names, i + 1, sizes, total - sizes[names[i]], left - {names[i]}, gone)
      else Evicted(maxEntries, maxBytes, names, i + 1, sizes, total, left, gone)
  }

  lemma {:induction false} EvictedShrinks(maxEntries: nat, maxBytes: nat, names: seq<string>, i: nat,
                                          sizes: map<string, nat>, total: int, dir: Directory, gone: nat -> set<string>)
    requires forall n :: n in names && n in dir ==> n in sizes
    ensures var left := Evicted(maxEntries, maxBytes, names, i, sizes, total, dir, gone);
      && Shrunk(dir, left)
      && forall n :: n in dir && n !in left ==> n in names || SomeTime(n, gone)
    decreases |names| - i
  {
    if i < |names| && (|names| - i > maxEntries || total > maxBytes) {
      var left := dir - gone(i);
      if names[i] in left {
        EvictedShrinks(maxEntries, maxBytes, names, i + 1, sizes, total - sizes[names[i]], left - {names[i]}, gone);
      } else {
        EvictedShrinks(maxEntries, maxBytes, names, i + 1, sizes, total, left, gone);
      }
    }
  }

  // A file that nobody else deleted goes only while the files from it on are too many,
  // or the bytes that were measured.
  lemma {:induction false} EvictedForCause(maxEntries: nat, maxBytes: nat, names: seq<string>, i: nat,
                                           sizes: map<string, nat>, total: int, dir: Directory,
                                           gone: nat -> set<string>, k: nat)
    requires forall n :: n in names && n in dir ==> n in sizes
    requires Sorted(names) && i <= k < |names| && names[k] in dir && forall q: nat :: names[k] !in gone(q)
    requires names[k] !in Evicted(maxEntries, maxBytes, names, i, sizes, total, dir, gone)
    ensures |names| - k > maxEntries || total > maxBytes
    decreases |names| - i
  {
    if |names| - i > maxEntries || total > maxBytes {
      var left := dir - gone(i);
      if i < k {
        assert names[i] != names[k] by {
          LessIrreflexive(names[i]);
        }
        if names[i] in left {
          EvictedForCause(maxEntries, maxBytes, names, i + 1, sizes, total - sizes[names[i]], left - {names[i]},
                          gone, k);
        } else {
          EvictedForCause(maxEntries, maxBytes, names, i + 1, sizes, total, left, gone, k);
        }
      }
    }
  }

  lemma RestFits(maxEntries: nat, maxBytes: nat, names: seq<string>, i: nat, dir: Directory, total: int)
    requires i <= |names| && (forall n :: n in names[..i] ==> n !in dir)
    requires Bytes(names[i..], dir) <= total
    requires (|names| - i <= maxEntries && total <= maxBytes) || i == |names|
    ensures Fits(maxEntries, maxBytes, names, dir)
  {
    PresentNone(names[..i], dir);
    PresentSplit(names, i, dir);
    PresentBytes(names[i..], dir);
    if i == |names| {
      assert names[i..] == [];
    }
  }

  // However the drain interferes, what is left of the listing fits both caps.
  lemma {:induction false} EvictedFits(maxEntries: nat, maxBytes: nat, names: seq<string>, i: nat,
                                       sizes: map<string, nat>, total: int, dir: Directory, gone: nat -> set<string>)
    requires i <= |names| && Sorted(names) && Measured(names[i..], dir, sizes, total)
    requires forall n :: n in names && n in dir ==> n in sizes
    requires forall n :: n in names[..i] ==> n !in dir
    ensures Fits(maxEntries, maxBytes, names, Evicted(maxEntries, maxBytes, names, i, sizes, total, dir, gone))
    decreases |names| - i
  {
    if i == |names| || (|names| - i <= maxEntries && total <= maxBytes) {
      RestFits(maxEntries, maxBytes, names, i, dir, total);
    } else {
      hide Bytes, Present, Fits, Sorted;
      var left := dir - gone(i);
      MeasuredShrinks(names[i..], dir, left, sizes, total);
      EvictOne(names, i, left, sizes, total);
      assert names[..i + 1] == names[..i] + [names[i]];
      if names[i] in left {
        EvictedFits(maxEntries, maxBytes, names, i + 1, sizes, total - sizes[names[i]], left - {names[i]}, gone);
      } else {
        assert left - {names[i]} == left;
        EvictedFits(maxEntries, maxBytes, names, i + 1, sizes, total, left, gone);
      }
    }
  }

  lemma SuffixFits(maxEntries: nat, maxBytes: nat, names: seq<string>, i: nat, dir: Directory)
    requires i <= |names| && forall n :: n in names ==> n in dir
    ensures Fits(maxEntries, maxBytes, names[i..], dir)
       <==> |names| - i <= maxEntries && Bytes(names[i..], dir) <= maxBytes
  {
    PresentOfAll(names[i..], dir);
  }

  // Removing the next file of the listing.
  lemma RemoveNext(names: seq<string>, i: nat, before: Directory)
    requires Sorted(names) && i < |names| && names[i] in before
    ensures names[i] !in Oldest(names, i)
    ensures before - Oldest(names, i) - {names[i]} == before - Oldest(names, i + 1)
    ensures Bytes(names[i..], before) == before[names[i]].size + Bytes(names[i + 1..], before)
  {
    NotAmongEarlier(names, i);
    hide Sorted, Less;
    assert names[..i + 1] == names[..i] + [names[i]];
    assert names[i..][1..] == names[i + 1..] && names[i..][0] == names[i];
  }

  // Undisturbed, the loop stops at the first suffix of the listing that fits.
  lemma {:induction false} EvictedExactly(maxEntries: nat, maxBytes: nat, names: seq<string>, i: nat,
                                          sizes: map<string, nat>, total: int,
                                          before: Directory, dir: Directory, gone: nat -> set<string>)
    requires i <= |names| && Sorted(names) && (forall k: nat :: gone(k) == {})
    requires forall n :: n in names ==> n in before && n in sizes && sizes[n] == before[n].size
    requires dir == before - Oldest(names, i)
    requires total == Bytes(names[i..], before)
    requires forall j :: 0 <= j < i ==> !Fits(maxEntries, maxBytes, names[j..], before)
    ensures KeptExactly(maxEntries, maxBytes, names, before,
                        Evicted(maxEntries, maxBytes, names, i, sizes, total, dir, gone))
    decreases |names| - i
  {
    SuffixFits(maxEntries, maxBytes, names, i, before);
    NothingFits(names, before);
    hide *;
    assert forall n :: n in names ==> n in before && n in sizes;
    if |names| - i <= maxEntries && total <= maxBytes {
      EvictedStops(maxEntries, maxBytes, names, i, sizes, total, dir, gone);
      KeptFrom(maxEntries, maxBytes, names, i, before);
    } else {
      assert names[i] in names;
      RemoveNext(names, i, before);
      EvictedNext(maxEntries, maxBytes, names, i, sizes, total, dir, gone);
      EvictedExactly(maxEntries, maxBytes, names, i + 1, sizes, total - sizes[names[i]],
                     before, dir - {names[i]}, gone);
    }
  }

  lemma EvictedStops(maxEntries: nat, maxBytes: nat, names: seq<string>, i: nat, sizes: map<string, nat>, total: int,
                     dir: Directory, gone: nat -> set<string>)
    requires forall n :: n in names && n in dir ==> n in sizes
    requires |names| - i <= maxEntries && total <= maxBytes
    ensures Evicted(maxEntries, maxBytes, names, i, sizes, total, dir, gone) == dir
  {
  }

  lemma EvictedNext(maxEntries: nat, maxBytes: nat, names: seq<string>, i: nat, sizes: map<string, nat>, total: int,
                    dir: Directory, gone: nat -> set<string>)
    requires forall n :: n in names && n in dir ==> n in sizes
    requires i < |names| && (|names| - i > maxEntries || total > maxBytes) && gone(i) == {} && names[i] in dir
    ensures Evicted(maxEntries, maxBytes, names, i, sizes, total, dir, gone)
         == Evicted(maxEntries, maxBytes, names, i + 1, sizes, total - sizes[names[i]], dir - {names[i]}, gone)
  {
    assert dir - gone(i) == dir;
  }

  lemma NothingFits(names: seq<string>, dir: Directory)
    ensures Bytes(names[|names|..], dir) == 0
  {
    assert names[|names|..] == [];
  }

  lemma KeptFrom(maxEntries: nat, maxBytes: nat, names: seq<string>, i: nat, before: Directory)
    requires i <= |names| && Fits(maxEntries, maxBytes, names[i..], before)
    requires forall j :: 0 <= j < i ==> !Fits(maxEntries, maxBytes, names[j..], before)
    ensures KeptExactly(maxEntries, maxBytes, names, before, before - Oldest(names, i))
  {
    assert FirstThatFits(maxEntries, maxBytes, names, before, i);
  }

  // Nothing appears, nothing changes, and only listed envelopes are evicted.
  lemma EnforcedShrinks(maxEntries: nat, maxBytes: nat, names: seq<string>, before: Directory,
                        gone: nat -> set<string>, gone': nat -> set<string>)
    requires Sorted(names)
    ensures var after := Enforced(maxEntries, maxBytes, names, before, gone, gone');
      && Shrunk(before, after)
      && forall n :: n in before && n !in after ==> n in names || SomeTime(n, gone) || SomeTime(n, gone')
  {
    var start := Sizes(before, map[], 0);
    StatsMeasure(names, 0, start, gone);
    StatsShrink(names, 0, start, gone);
    var x := Stats(names, 0, start, gone);
    EvictedShrinks(maxEntries, maxBytes, names, 0, x.sizes, x.total, x.dir, gone');
    hide Stats, Evicted, Measured, Sorted;
  }

  // Whatever the drain did meanwhile, what is left of the listing fits.
  lemma EnforcedFits(maxEntries: nat, maxBytes: nat, names: seq<string>, before: Directory,
                     gone: nat -> set<string>, gone': nat -> set<string>)
    requires Sorted(names)
    ensures Fits(maxEntries, maxBytes, names, Enforced(maxEntries, maxBytes, names, before, gone, gone'))
  {
    StatsMeasure(names, 0, Sizes(before, map[], 0), gone);
    var x := Stats(names, 0, Sizes(before, map[], 0), gone);
    assert names[0..] == names && names[..0] == [];
    EvictedFits(maxEntries, maxBytes, names, 0, x.sizes, x.total, x.dir, gone');
  }

  // A file that the drain did not delete goes only if the listed files from it on were
  // too many, or the bytes of the listed directory.
  lemma EnforcedForCause(maxEntries: nat, maxBytes: nat, names: seq<string>, before: Directory,
                         gone: nat -> set<string>, gone': nat -> set<string>, k: nat)
    requires Sorted(names) && k < |names| && names[k] in before
    requires !SomeTime(names[k], gone) && !SomeTime(names[k], gone')
    requires names[k] !in Enforced(maxEntries, maxBytes, names, before, gone, gone')
    ensures |names| - k > maxEntries || Bytes(names, before) > maxBytes
  {
    var start := Sizes(before, map[], 0);
    StatsMeasure(names, 0, start, gone);
    StatsShrink(names, 0, start, gone);
    StatsTotal(names, 0, start, gone, before);
    var x := Stats(names, 0, start, gone);
    hide Stats, Bytes, Evicted, Sorted;
    EvictedForCause(maxEntries, maxBytes, names, 0, x.sizes, x.total, x.dir, gone', k);
  }

  // Undisturbed, exactly the longest newest-first suffix that fits is kept.
  lemma EnforcedExactly(maxEntries: nat, maxBytes: nat, names: seq<string>, before: Directory,
                        gone: nat -> set<string>, gone': nat -> set<string>)
    requires Sorted(names) && NoneGone(gone) && NoneGone(gone') && forall n :: n in names ==> n in before
    ensures KeptExactly(maxEntries, maxBytes, names, before,
                        Enforced(maxEntries, maxBytes, names, before, gone, gone'))
  {
    var start := Sizes(before, map[], 0);
    StatsMeasure(names, 0, start, gone);
    StatsShrink(names, 0, start, gone);
    StatsTotal(names, 0, start, gone, before);
    var x := Stats(names, 0, start, gone);
    hide Stats, Bytes, Evicted, Sorted, KeptExactly;
    assert names[0..] == names;
    EvictedExactly(maxEntries, maxBytes, names, 0, x.sizes, x.total, before, before, gone');
  }

  predicate InWidth(ms: nat, q: nat) {
    ms < 10_000_000_000_000 && q < 10_000_000_000
  }

  ghost predicate Earlier(n: string, ms: nat, q: nat) {
    exists t: nat, k: nat :: n == FileName(t, k) && InWidth(t, k) && (t < ms || (t == ms && k <= q))
  }

  // Every envelope on the disk was named no later than the q-th of millisecond ms.
  ghost predicate NamedBefore(dir: Directory, ms: nat, q: nat) {
    forall n :: n in dir && IsEnvelopeName(n) ==> Earlier(n, ms, q)
  }

  // The next name is greater than all of them, and then the latest.
  lemma NewNameIsGreatest(dir: Directory, ms: nat, q: nat)
    requires NamedBefore(dir, ms, q) && InWidth(ms, q + 1)
    ensures forall n :: n in dir && IsEnvelopeName(n) ==> Less(n, FileName(ms, q + 1))
    ensures NamedBefore(dir, ms, q + 1)
    ensures forall dir': Directory :: dir'.Keys <= dir.Keys + {FileName(ms, q + 1)} ==> NamedBefore(dir', ms, q + 1)
  {
    var name := FileName(ms, q + 1);
    forall n | n in dir && IsEnvelopeName(n)
      ensures Less(n, name) && Earlier(n, ms, q + 1)
    {
      assert Earlier(n, ms, q);
      var t: nat, k: nat :| n == FileName(t, k) && InWidth(t, k) && (t < ms || (t == ms && k <= q));
      NameOrderIsCreationOrder(t, k, ms, q + 1);
    }
    assert Earlier(name, ms, q + 1);
  }

  // Time only passes.
  lemma NamedBeforeLater(dir: Directory, ms: nat, q: nat, ms': nat, q': nat)
    requires NamedBefore(dir, ms, q) && (ms < ms' || (ms == ms' && q <= q'))
    ensures NamedBefore(dir, ms', q')
  {
    forall n | n in dir && IsEnvelopeName(n)
      ensures Earlier(n, ms', q')
    {
      assert Earlier(n, ms, q);
      var t: nat, k: nat :| n == FileName(t, k) && InWidth(t, k) && (t < ms || (t == ms && k <= q));
    }
  }

  class Spool {
    const maxEntries: nat
    const maxBytes: nat
    var dir: Directory
    var seqNo: nat

    // newSpool replaces non-positive limits by positive defaults.
    constructor (maxEntries: nat, maxBytes: nat, dir: Directory)
      ensures this.maxEntries == maxEntries && this.maxBytes == maxBytes
      ensures this.dir == dir && seqNo == 0
    {
      this.maxEntries, this.maxBytes := maxEntries, maxBytes;
      this.dir, seqNo := dir, 0;
    }

    // os.ReadDir may fail; then nothing is listed.
    method ListEnvelopes(readable: bool) returns (names: seq<string>)
      ensures if readable then IsListing(names, dir) else names == []
    {
      names := [];
      if !readable {
        return;
      }
      var rest := dir.Keys;
      while rest != {}
        invariant rest <= dir.Keys && Sorted(names)
        invariant forall n :: n in names <==> n in dir.Keys - rest && IsEnvelopeName(n)
        decreases |rest|
      {
        var n :| n in rest;
        rest := rest - {n};
        if IsEnvelopeName(n) {
          InsertProperties(n, names);
          names := Insert(n, names);
        }
      }
    }

    // The drain deletes some files between two disk accesses of a bounds loop.
    method Interference(gone: set<string>)
      modifies this`dir
      ensures dir == old(dir) - gone && Shrunk(old(dir), dir)
      ensures gone == {} ==> dir == old(dir)
    {
      dir := dir - gone;
    }

    // The stat loop: the size of each listed file that still exists.
    method StatAll(names: seq<string>, gone: nat -> set<string>) returns (sizes: map<string, nat>, total: int)
      requires Sorted(names)
      modifies this`dir
      ensures Shrunk(old(dir), dir) && Measured(names, dir, sizes, total)
      ensures forall n :: n in old(dir) && n !in dir ==> SomeTime(n, gone)
      ensures NoneGone(gone) ==> dir == old(dir) && total == Bytes(names, dir)
      ensures total >= 0 && Sizes(dir, sizes, total) == Stats(names, 0, Sizes(old(dir), map[], 0), gone)
    {
      ghost var start := Sizes(dir, map[], 0);
      StatsMeasure(names, 0, start, gone);
      StatsShrink(names, 0, start, gone);
      StatsTotal(names, 0, start, gone, dir);
      hide Sorted, Bytes, Measured, Shrunk, SomeTime, NoneGone;
      sizes, total := map[], 0;
      var j := 0;
      while j < |names|
        invariant 0 <= j <= |names| && total >= 0
        invariant Stats(names, j, Sizes(dir, sizes, total), gone) == Stats(names, 0, start, gone)
        decreases |names| - j
      {
        Interference(gone(j));
        if names[j] in dir {
          sizes := sizes[names[j] := dir[names[j]].size];
          total := total + dir[names[j]].size;
        }
        j := j + 1;
      }
    }

    // The removal loop. The drain may have taken the victim; then nothing is
    // subtracted and total stays too large.
    method EvictOldest(names: seq<string>, sizes: map<string, nat>, total0: int, gone: nat -> set<string>)
      requires forall n :: n in names && n in dir ==> n in sizes
      modifies this`dir
      ensures dir == Evicted(maxEntries, maxBytes, names, 0, sizes, total0, old(dir), gone)
    {
      var total := total0;
      var i := 0;
      while |names| - i > maxEntries || total > maxBytes
        invariant 0 <= i <= |names| && forall n :: n in names && n in dir ==> n in sizes
        invariant Evicted(maxEntries, maxBytes, names, i, sizes, total, dir, gone)
               == Evicted(maxEntries, maxBytes, names, 0, sizes, total0, old(dir), gone)
        decreases |names| - i
      {
        if i >= |names| {
          break;
        }
        Interference(gone(i));
        var victim := names[i];
        if victim in dir {
          dir := dir - {victim};
          total := total - sizes[victim];
        }
        i := i + 1;
      }
    }

    method EnforceBounds(readable: bool, gone: nat -> set<string>, gone': nat -> set<string>)
      returns (names: seq<string>)
      modifies this`dir
      ensures if readable then IsListing(names, old(dir)) else names == []
      ensures Sorted(names) && dir == Enforced(maxEntries, maxBytes, names, old(dir), gone, gone')
      // Nothing appears, nothing changes, and only listed envelopes are evicted.
      ensures Shrunk(old(dir), dir)
      ensures forall n :: n in old(dir) && n !in dir ==> n in names || SomeTime(n, gone) || SomeTime(n, gone')
      // Whatever the drain did meanwhile, what is left of the listing fits.
      ensures Fits(maxEntries, maxBytes, names, dir)
      // Undisturbed, exactly the longest newest-first suffix that fits is kept.
      ensures NoneGone(gone) && NoneGone(gone') ==> KeptExactly(maxEntries, maxBytes, names, old(dir), dir)
      // A file that the drain did not delete goes only if the listed files from it on
      // were too many, or the bytes of the listed directory.
      ensures forall k :: 0 <= k < |names| && names[k] in old(dir) && names[k] !in dir
                          && !SomeTime(names[k], gone) && !SomeTime(names[k], gone') ==>
        |names| - k > maxEntries || Bytes(names, old(dir)) > maxBytes
    {
      names := ListEnvelopes(readable);
      assert (readable || names == []) && forall n :: n in names ==> n in dir;
      var sizes, total := StatAll(names, gone);
      EvictOldest(names, sizes, total, gone');
      hide Sorted, IsListing, SomeTime, NoneGone, Shrunk, Fits, KeptExactly, Bytes;
      EnforcedShrinks(maxEntries, maxBytes, names, old(dir), gone, gone');
      EnforcedFits(maxEntries, maxBytes, names, old(dir), gone, gone');
      forall k | 0 <= k < |names| && names[k] in old(dir) && names[k] !in dir
                 && !SomeTime(names[k], gone) && !SomeTime(names[k], gone')
        ensures |names| - k > maxEntries || Bytes(names, old(dir)) > maxBytes
      {
        EnforcedForCause(maxEntries, maxBytes, names, old(dir), gone, gone', k);
      }
      if NoneGone(gone) && NoneGone(gone') {
        EnforcedExactly(maxEntries, maxBytes, names, old(dir), gone, gone');
      }
    }

    // Write one envelope, then enforce the bounds. `written` tells whether the
    // temporary file could be written and renamed.
    method Persist(path: string, createdAt: int, body: nat, size: nat, ms: nat, written: bool,
                   readable: bool, gone: nat -> set<string>, gone': nat -> set<string>) returns (ok: bool, name: string)
      modifies this
      ensures ok <==> size <= maxBytes && written
      ensures !ok ==> dir == old(dir)
      ensures seqNo == old(seqNo) + (if size <= maxBytes then 1 else 0)
      ensures ok ==> name == FileName(ms, seqNo)
      ensures ok ==> Shrunk(old(dir)[name := File(size, Envelope(ENVELOPE_VERSION, path, createdAt, body))], dir)
      // Undisturbed, what stays is the longest newest-first suffix that fits.
      ensures ok && NoneGone(gone) && NoneGone(gone') ==>
        var full := old(dir)[name := File(size, Envelope(ENVELOPE_VERSION, path, createdAt, body))];
        exists names :: (if readable then IsListing(names, full) else names == [])
                        && KeptExactly(maxEntries, maxBytes, names, full, dir)
      ensures ok && readable ==> forall names :: IsListing(names, dir) ==>
        |names| <= maxEntries && Bytes(names, dir) <= maxBytes
      ensures ok && readable && maxEntries >= 1 && NoneGone(gone) && NoneGone(gone')
              && (forall n :: n in old(dir) && IsEnvelopeName(n) ==> Less(n, name)) ==>
        name in dir && dir[name] == File(size, Envelope(ENVELOPE_VERSION, path, createdAt, body))
      // If the envelopes on the disk were named by this code, earlier by the clock and
      // the sequence, then so they are afterwards, and the new one is the newest.
      ensures NamedBefore(old(dir), ms, old(seqNo)) && InWidth(ms, old(seqNo) + 1) ==>
        && NamedBefore(dir, ms, seqNo)
        && (ok && readable && maxEntries >= 1 && NoneGone(gone) && NoneGone(gone') ==>
              name in dir && dir[name] == File(size, Envelope(ENVELOPE_VERSION, path, createdAt, body)))
    {
      if NamedBefore(dir, ms, seqNo) && InWidth(ms, seqNo + 1) {
        NewNameIsGreatest(dir, ms, seqNo);
      }
      hide NamedBefore;
      ok, name := false, "";
      if size > maxBytes {
        return;
      }
      seqNo := seqNo + 1;
      name := FileName(ms, seqNo);
      if !written {
        return;
      }
      var file := File(size, Envelope(ENVELOPE_VERSION, path, createdAt, body));
      dir := dir[name := file];
      ghost var full := dir;
      FileNameIsListed(ms, seqNo);
      var names := EnforceBounds(readable, gone, gone');
      ok := true;
      hide KeptExactly, Sorted, Bytes, Present;
      if readable {
        SurvivorsAreListing(names, full, dir);
        PresentBytes(names, dir);
        if maxEntries >= 1 && NoneGone(gone) && NoneGone(gone')
           && (forall n :: n in old(dir) && IsEnvelopeName(n) ==> Less(n, name)) {
          GreatestIsLast(names, name);
          NewestSurvives(maxEntries, maxBytes, names, full, dir);
        }
      }
    }

    // One listed envelope of the drain: an unsendable one is removed, the others are
    // sent, and removed unless the failure may pass.
    method Replay(name: string, cutoff: int, verdict: Verdict) returns (wasSent: bool, accepted: bool)
      requires name in dir
      modifies this`dir
      ensures wasSent <==> Sendable(old(dir)[name].contents, cutoff)
      ensures accepted <==> wasSent && verdict.Accepted?
      ensures dir == if MustGo(old(dir)[name].contents, cutoff, verdict) then old(dir) - {name} else old(dir)
      // In other words: it stays exactly if it was sent and the failure may pass.
      ensures wasSent <==>
        var c := old(dir)[name].contents;
        c.Envelope? && c.v == 1 && c.path != "" && (c.createdAt <= 0 || c.createdAt >= cutoff)
      ensures dir == if wasSent && verdict == Transient then old(dir) else old(dir) - {name}
    {
      var contents := dir[name].contents;
      wasSent, accepted := false, false;
      if !contents.Envelope? || contents.v != ENVELOPE_VERSION || contents.path == "" {
        dir := dir - {name};
        return;
      }
      if contents.createdAt > 0 && contents.createdAt < cutoff {
        dir := dir - {name};
        return;
      }
      wasSent := true;
      if verdict.Accepted? {
        accepted := true;
        dir := dir - {name};
      } else if verdict.Rejected? {
        dir := dir - {name};
      }
    }

    // Replay, oldest first. The k-th envelope is skipped if it is gone; verdicts(k) is
    // the answer to sending it. The context may be cancelled before the k-th, and just
    // before it is read a persist may have evicted the files evicted(k).
    method Drain(readable: bool, cutoff: int, verdicts: nat -> Verdict, cancelled: nat -> bool,
                 evicted: nat -> set<string>) returns (names: seq<string>, sent: seq<string>, replayed: nat)
      modifies this`dir
      ensures if readable then IsListing(names, old(dir)) else names == []
      ensures Pass(dir, sent, replayed)
           == Drained(Pass(old(dir), [], 0), names, 0, cutoff, verdicts, cancelled, evicted)
      // An envelope of this version, not stale, whose send fails for now is kept as it
      // is, whatever happens to the others and whenever the drain is cancelled.
      ensures forall k :: 0 <= k < |names| && names[k] in old(dir) && (forall j: nat :: names[k] !in evicted(j)) ==>
        var c := old(dir)[names[k]].contents;
        (c.Envelope? && c.v == 1 && c.path != "" && (c.createdAt <= 0 || c.createdAt >= cutoff)
         && verdicts(k) == Transient) ==>
        names[k] in dir && dir[names[k]] == old(dir)[names[k]]
      // Uncancelled, it leaves no others of the listing.
      ensures (forall j: nat :: !cancelled(j)) ==> forall k :: 0 <= k < |names| && names[k] in dir ==>
        var c := dir[names[k]].contents;
        c.Envelope? && c.v == 1 && c.path != "" && (c.createdAt <= 0 || c.createdAt >= cutoff)
        && verdicts(k) == Transient
      // Cancelled, it neither sends nor removes anything more.
      ensures forall c: nat, k :: c <= k < |names| && cancelled(c) ==>
        && names[k] !in sent
        && (names[k] in old(dir) && (forall j: nat :: names[k] !in evicted(j)) ==>
              names[k] in dir && dir[names[k]] == old(dir)[names[k]])
    {
      ghost var before := dir;
      sent, replayed := [], 0;
      names := ListEnvelopes(readable);
      hide IsListing, Sorted, Sendable, MustGo;
      var k := 0;
      while k < |names|
        invariant 0 <= k <= |names|
        invariant Drained(Pass(dir, sent, replayed), names, k, cutoff, verdicts, cancelled, evicted)
               == Drained(Pass(old(dir), [], 0), names, 0, cutoff, verdicts, cancelled, evicted)
        decreases |names| - k
      {
        if cancelled(k) {
          break;
        }
        dir := dir - evicted(k);
        var name := names[k];
        if name in dir {
          var wasSent, accepted := Replay(name, cutoff, verdicts(k));
          if wasSent {
            sent := sent + [name];
          }
          if accepted {
            replayed := replayed + 1;
          }
        }
        k := k + 1;
      }
      DrainKeepsTransient(before, names, cutoff, verdicts, cancelled, evicted);
      DrainObeysCancel(before, names, cutoff, verdicts, cancelled, evicted);
    }
  }

  lemma GreatestIsLast(names: seq<string>, name: string)
    requires Sorted(names) && name in names && forall n :: n in names && n != name ==> Less(n, name)
    ensures names[|names| - 1] == name
  {
    var last := names[|names| - 1];
    if last != name {
      var k :| 0 <= k < |names| && names[k] == name;
      LessTransitive(last, name, last);
      LessIrreflexive(last);
      assert false;
    }
  }

  // ---------------------------------------------------------------- draining

  datatype Verdict = Accepted | Rejected | Transient

  predicate Sendable(c: Contents, cutoff: int) {
    && c.Envelope? && c.v == ENVELOPE_VERSION && c.path != ""
    && !(0 < c.createdAt < cutoff)
  }

  // Corrupt, of an unknown version, stale, accepted or permanently rejected.
  predicate MustGo(c: Contents, cutoff: int, v: Verdict) {
    !Sendable(c, cutoff) || v.Accepted? || v.Rejected?
  }

  // The directory during a drain, what has been sent, and the count of the accepted.
  datatype Pass = Pass(dir: Directory, sent: seq<string>, replayed: nat)

  function ReplayOne(x: Pass, name: string, cutoff: int, v: Verdict): Pass {
    if name !in x.dir then x
    else
      var c := x.dir[name].contents;
      Pass(if MustGo(c, cutoff, v) then x.dir - {name} else x.dir,
           if Sendable(c, cutoff) then x.sent + [name] else x.sent,
           if Sendable(c, cutoff) && v.Accepted? then x.replayed + 1 else x.replayed)
  }

  // What the drain makes of the listing, from index k on.
  function Drained(x: Pass, names: seq<string>, k: nat, cutoff: int, verdicts: nat -> Verdict,
                   cancelled: nat -> bool, evicted: nat -> set<string>): Pass
    decreases |names| - k
  {
    if k >= |names| || cancelled(k) then x
    else
      Drained(ReplayOne(x.(dir := x.dir - evicted(k)), names[k], cutoff, verdicts(k)), names, k + 1,
              cutoff, verdicts, cancelled, evicted)
  }

  // A file leaves only for a reason of its own, or by an eviction; a drain that is not
  // cancelled leaves none on the disk that has such a reason.
  lemma {:induction false} DrainRemovesForReason(x: Pass, names: seq<string>, k: nat, cutoff: int,
      verdicts: nat -> Verdict, cancelled: nat -> bool, evicted: nat -> set<string>)
    ensures var y := Drained(x, names, k, cutoff, verdicts, cancelled, evicted);
      && Shrunk(x.dir, y.dir)
      && (forall n :: n in x.dir && n !in y.dir ==>
            || (exists j: nat :: k <= j < |names| && names[j] == n && MustGo(x.dir[n].contents, cutoff, verdicts(j)))
            || (exists j: nat :: n in evicted(j)))
      && ((forall j: nat :: !cancelled(j)) ==>
            forall j: nat :: k <= j < |names| && names[j] in y.dir ==>
              !MustGo(x.dir[names[j]].contents, cutoff, verdicts(j)))
    decreases |names| - k
  {
    if k < |names| && !cancelled(k) {
      hide MustGo, Sendable;
      var x' := ReplayOne(x.(dir := x.dir - evicted(k)), names[k], cutoff, verdicts(k));
      assert Shrunk(x.dir, x'.dir);
      assert names[k] in x'.dir ==> !MustGo(x.dir[names[k]].contents, cutoff, verdicts(k));
      DrainRemovesForReason(x', names, k + 1, cutoff, verdicts, cancelled, evicted);
    }
  }

  // What must go, in full: all but an envelope of version one, with a path, not stale,
  // that could not be delivered for now.
  lemma MustGoMeans(cutoff: int)
    ensures forall c, v: Verdict :: MustGo(c, cutoff, v) <==>
        !(c.Envelope? && c.v == 1 && c.path != "" && (c.createdAt <= 0 || c.createdAt >= cutoff) && v == Transient)
  {
  }

  // Replay is at least once: what could not be delivered for now is kept; and a drain
  // that is not cancelled leaves nothing else of its listing.
  lemma DrainKeepsTransient(before: Directory, names: seq<string>, cutoff: int, verdicts: nat -> Verdict,
                            cancelled: nat -> bool, evicted: nat -> set<string>)
    requires Sorted(names)
    ensures var after := Drained(Pass(before, [], 0), names, 0, cutoff, verdicts, cancelled, evicted).dir;
      && (forall k :: 0 <= k < |names| && names[k] in before && (forall j: nat :: names[k] !in evicted(j)) ==>
            var c := before[names[k]].contents;
            (c.Envelope? && c.v == 1 && c.path != "" && (c.createdAt <= 0 || c.createdAt >= cutoff)
             && verdicts(k) == Transient) ==>
            names[k] in after && after[names[k]] == before[names[k]])
      && ((forall j: nat :: !cancelled(j)) ==> forall k :: 0 <= k < |names| && names[k] in after ==>
            var c := after[names[k]].contents;
            c.Envelope? && c.v == 1 && c.path != "" && (c.createdAt <= 0 || c.createdAt >= cutoff)
            && verdicts(k) == Transient)
  {
    DrainRemovesForReason(Pass(before, [], 0), names, 0, cutoff, verdicts, cancelled, evicted);
    MustGoMeans(cutoff);
    NamesDiffer(names);
    hide Sorted, Drained, MustGo;
  }

  lemma NamesDiffer(names: seq<string>)
    requires Sorted(names)
    ensures forall i, j :: 0 <= i < |names| && 0 <= j < |names| && names[i] == names[j] ==> i == j
  {
    forall i | 0 <= i < |names|
      ensures forall j :: i < j < |names| ==> names[i] != names[j]
    {
      NoneEqual(names, i);
    }
  }

  // A drain that was cancelled before file c leaves it and the later ones alone.
  lemma {:induction false} DrainStops(x: Pass, names: seq<string>, k: nat, cutoff: int, verdicts: nat -> Verdict,
                                      cancelled: nat -> bool, evicted: nat -> set<string>, c: nat)
    requires Sorted(names) && k <= c < |names| && cancelled(c)
    ensures var y := Drained(x, names, k, cutoff, verdicts, cancelled, evicted);
      forall j :: c <= j < |names| && names[j] !in x.sent ==>
        && names[j] !in y.sent
        && (names[j] in x.dir && (forall i: nat :: names[j] !in evicted(i)) ==>
              names[j] in y.dir && y.dir[names[j]] == x.dir[names[j]])
    decreases |names| - k
  {
    if k < c && !cancelled(k) {
      hide MustGo, Sendable;
      NoneEqual(names, k);
      hide Sorted;
      var x' := ReplayOne(x.(dir := x.dir - evicted(k)), names[k], cutoff, verdicts(k));
      DrainStops(x', names, k + 1, cutoff, verdicts, cancelled, evicted, c);
    }
  }

  lemma DrainObeysCancel(before: Directory, names: seq<string>, cutoff: int, verdicts: nat -> Verdict,
                         cancelled: nat -> bool, evicted: nat -> set<string>)
    requires Sorted(names)
    ensures var y := Drained(Pass(before, [], 0), names, 0, cutoff, verdicts, cancelled, evicted);
      forall c: nat, k :: c <= k < |names| && cancelled(c) ==>
        && names[k] !in y.sent
        && (names[k] in before && (forall j: nat :: names[k] !in evicted(j)) ==>
              names[k] in y.dir && y.dir[names[k]] == before[names[k]])
  {
    hide Sorted, Drained;
    forall c: nat, k | c <= k < |names| && cancelled(c)
      ensures var y := Drained(Pass(before, [], 0), names, 0, cutoff, verdicts, cancelled, evicted);
        && names[k] !in y.sent
        && (names[k] in before && (forall j: nat :: names[k] !in evicted(j)) ==>
              names[k] in y.dir && y.dir[names[k]] == before[names[k]])
    {
      DrainStops(Pass(before, [], 0), names, 0, cutoff, verdicts, cancelled, evicted, c);
    }
  }

  // Whatever happens meanwhile, only sendable envelopes are sent, oldest first, each
  // at most once.
  lemma {:induction false} DrainSendsInOrder(x: Pass, names: seq<string>, k: nat, cutoff: int,
      verdicts: nat -> Verdict, cancelled: nat -> bool, evicted: nat -> set<string>)
    requires Sorted(names) && k <= |names| && Sorted(x.sent)
    requires forall n :: n in x.sent ==> n in names[..k]
    ensures var y := Drained(x, names, k, cutoff, verdicts, cancelled, evicted);
      && Sorted(y.sent)
      && forall n :: n in y.sent ==>
           n in x.sent || (n in names && n in x.dir && Sendable(x.dir[n].contents, cutoff))
    decreases |names| - k
  {
    if k < |names| && !cancelled(k) {
      hide MustGo, Sendable, Less;
      var x' := ReplayOne(x.(dir := x.dir - evicted(k)), names[k], cutoff, verdicts(k));
      EarlierAreLess(names, k, x.sent);
      assert names[..k + 1] == names[..k] + [names[k]];
      DrainSendsInOrder(x', names, k + 1, cutoff, verdicts, cancelled, evicted);
    }
  }

  lemma EarlierAreLess(names: seq<string>, k: nat, some: seq<string>)
    requires Sorted(names) && k < |names| && Sorted(some)
    requires forall n :: n in some ==> n in names[..k]
    ensures Sorted(some + [names[k]])
  {
    forall i | 0 <= i < |some|
      ensures Less(some[i], names[k])
    {
      assert some[i] in names[..k];
    }
  }

  // The envelopes to be sent from index k on, and how many of them will be accepted.
  function Sends(names: seq<string>, k: nat, dir: Directory, cutoff: int): seq<string>
    decreases |names| - k
  {
    if k >= |names| then []
    else (if names[k] in dir && Sendable(dir[names[k]].contents, cutoff) then [names[k]] else [])
         + Sends(names, k + 1, dir, cutoff)
  }

  function Replays(names: seq<string>, k: nat, dir: Directory, cutoff: int, verdicts: nat -> Verdict): nat
    decreases |names| - k
  {
    if k >= |names| then 0
    else (if names[k] in dir && Sendable(dir[names[k]].contents, cutoff) && verdicts(k).Accepted? then 1 else 0)
         + Replays(names, k + 1, dir, cutoff, verdicts)
  }

  lemma {:induction false} OthersDoNotMatter(names: seq<string>, k: nat, dir: Directory, dir': Directory,
                                             cutoff: int, verdicts: nat -> Verdict)
    requires forall j :: k <= j < |names| ==> (names[j] in dir <==> names[j] in dir')
    requires forall j :: k <= j < |names| && names[j] in dir ==> dir[names[j]] == dir'[names[j]]
    ensures Sends(names, k, dir, cutoff) == Sends(names, k, dir', cutoff)
    ensures Replays(names, k, dir, cutoff, verdicts) == Replays(names, k, dir', cutoff, verdicts)
    decreases |names| - k
  {
    if k < |names| {
      OthersDoNotMatter(names, k + 1, dir, dir', cutoff, verdicts);
    }
  }

  lemma NoneEqual(names: seq<string>, k: nat)
    requires Sorted(names) && k < |names|
    ensures forall j :: k < j < |names| ==> names[j] != names[k]
  {
    LessIrreflexive(names[k]);
  }

  lemma SendsStep(x: Pass, names: seq<string>, k: nat, cutoff: int, verdicts: nat -> Verdict)
    requires Sorted(names) && k < |names|
    ensures var x' := ReplayOne(x, names[k], cutoff, verdicts(k));
      && x'.sent + Sends(names, k + 1, x'.dir, cutoff) == x.sent + Sends(names, k, x.dir, cutoff)
      && x'.replayed + Replays(names, k + 1, x'.dir, cutoff, verdicts)
         == x.replayed + Replays(names, k, x.dir, cutoff, verdicts)
  {
    NoneEqual(names, k);
    hide MustGo, Sendable, Less, Sorted;
    OthersDoNotMatter(names, k + 1, x.dir, ReplayOne(x, names[k], cutoff, verdicts(k)).dir, cutoff, verdicts);
  }

  // Undisturbed, the drain sends every sendable envelope of the listing, and counts
  // exactly the accepted ones.
  lemma {:induction false} DrainSendsEverything(x: Pass, names: seq<string>, k: nat, cutoff: int,
      verdicts: nat -> Verdict, cancelled: nat -> bool, evicted: nat -> set<string>)
    requires Sorted(names) && forall j: nat :: !cancelled(j) && evicted(j) == {}
    ensures var y := Drained(x, names, k, cutoff, verdicts, cancelled, evicted);
      && y.sent == x.sent + Sends(names, k, x.dir, cutoff)
      && y.replayed == x.replayed + Replays(names, k, x.dir, cutoff, verdicts)
    decreases |names| - k
  {
    if k < |names| {
      SendsStep(x, names, k, cutoff, verdicts);
      hide Sorted, ReplayOne, Sends, Replays;
      assert x.(dir := x.dir - evicted(k)) == x;
      var x' := ReplayOne(x, names[k], cutoff, verdicts(k));
      DrainSendsEverything(x', names, k + 1, cutoff, verdicts, cancelled, evicted);
    }
  }
}
