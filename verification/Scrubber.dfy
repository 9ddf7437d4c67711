/**
 * The recursive scrubber. Maps and slices live in a heap and may be shared or form
 * cycles; a slice is an address and a length, so two slices can start at the same
 * address. The scrubber of strings is a parameter.
 */
module Scrubber {
  import opened GoText

  const MAX_DEPTH := 16
  const REDACTED := "[REDACTED]"

  // ---------------------------------------------------------------- sensitive keys

  const DENYLIST := ["password", "passwd", "pwd", "secret", "client_secret", "token", "access_token",
                     "refresh_token", "x-auth-token", "api_key", "apikey", "x-api-key", "authorization",
                     "auth", "cookie", "set-cookie", "session", "sessionid", "sessiontoken", "jwt",
                     "credit_card", "cardnumber", "card_number", "cvv", "ssn", "private_key"]

  predicate Contains(s: string, term: string) {
    term <= s || (s != [] && Contains(s[1..], term))
  }

  predicate Sensitive(key: string) {
    exists term <- DENYLIST :: Contains(Lower(key), term)
  }

  // The term stands somewhere in the text.
  lemma {:induction false} ContainsMeans(s: string, term: string)
    ensures Contains(s, term) <==> exists i :: 0 <= i <= |s| && term <= s[i..]
  {
    if term <= s {
      assert s[0..] == s;
    } else if s != [] {
      ContainsMeans(s[1..], term);
      forall i | 0 <= i <= |s|
        ensures term <= s[i..] <==> i > 0 && term <= s[1..][i - 1..]
      {
        if i > 0 {
          assert s[i..] == s[1..][i - 1..];
        } else {
          assert s[0..] == s;
        }
      }
      if Contains(s[1..], term) {
        var i :| 0 <= i <= |s[1..]| && term <= s[1..][i..];
        assert term <= s[i + 1..];
      }
    }
  }

  // Eighteen of the denied terms decide; the other eight contain one of them.
  predicate Denied(lk: string) {
    || Contains(lk, "password") || Contains(lk, "passwd") || Contains(lk, "pwd") || Contains(lk, "secret")
    || Contains(lk, "token") || Contains(lk, "api_key") || Contains(lk, "apikey") || Contains(lk, "x-api-key")
    || Contains(lk, "auth") || Contains(lk, "cookie") || Contains(lk, "session") || Contains(lk, "jwt")
    || Contains(lk, "credit_card") || Contains(lk, "cardnumber") || Contains(lk, "card_number")
    || Contains(lk, "cvv") || Contains(lk, "ssn") || Contains(lk, "private_key")
  }

  lemma {:induction false} ContainsLonger(lk: string, a: string, term: string, b: string)
    ensures Contains(lk, a + term + b) ==> Contains(lk, term)
  {
    if a + term + b <= lk {
      var rest := lk[|a + term + b|..];
      assert lk == a + term + (b + rest);
      assert Contains(term, term);
      ContainsInside(a, term, b + rest, term);
    } else if lk != [] {
      ContainsLonger(lk[1..], a, term, b);
    }
  }

  lemma LongerTermsAreDenied(lk: string)
    ensures Contains(lk, "client_secret") ==> Contains(lk, "secret")
    ensures Contains(lk, "access_token") || Contains(lk, "refresh_token") || Contains(lk, "x-auth-token") ==>
      Contains(lk, "token")
    ensures Contains(lk, "authorization") ==> Contains(lk, "auth")
    ensures Contains(lk, "set-cookie") ==> Contains(lk, "cookie")
    ensures Contains(lk, "sessionid") || Contains(lk, "sessiontoken") ==> Contains(lk, "session")
  {
    hide Contains;
    ContainsLonger(lk, "client_", "secret", "");
    assert "client_" + "secret" + "" == "client_secret";
    ContainsLonger(lk, "access_", "token", "");
    assert "access_" + "token" + "" == "access_token";
    ContainsLonger(lk, "refresh_", "token", "");
    assert "refresh_" + "token" + "" == "refresh_token";
    ContainsLonger(lk, "x-auth-", "token", "");
    assert "x-auth-" + "token" + "" == "x-auth-token";
    ContainsLonger(lk, "", "auth", "orization");
    assert "" + "auth" + "orization" == "authorization";
    ContainsLonger(lk, "set-", "cookie", "");
    assert "set-" + "cookie" + "" == "set-cookie";
    ContainsLonger(lk, "", "session", "id");
    assert "" + "session" + "id" == "sessionid";
    ContainsLonger(lk, "", "session", "token");
    assert "" + "session" + "token" == "sessiontoken";
  }

  lemma TermIsDenied(lk: string, i: nat)
    requires i < |DENYLIST| && Contains(lk, DENYLIST[i])
    ensures Denied(lk)
  {
    LongerTermsAreDenied(lk);
    hide Contains;
  }

  // Where the deciding terms stand in the list.
  lemma TermsAreListed()
    ensures |DENYLIST| == 26
    ensures DENYLIST[0] == "password" && DENYLIST[1] == "passwd" && DENYLIST[2] == "pwd" && DENYLIST[3] == "secret"
    ensures DENYLIST[5] == "token" && DENYLIST[9] == "api_key" && DENYLIST[10] == "apikey"
    ensures DENYLIST[11] == "x-api-key" && DENYLIST[13] == "auth" && DENYLIST[14] == "cookie"
    ensures DENYLIST[16] == "session" && DENYLIST[19] == "jwt" && DENYLIST[20] == "credit_card"
    ensures DENYLIST[21] == "cardnumber" && DENYLIST[22] == "card_number" && DENYLIST[23] == "cvv"
    ensures DENYLIST[24] == "ssn" && DENYLIST[25] == "private_key"
  {
  }

  lemma SensitiveAt(key: string)
    ensures Sensitive(key) <==> exists i :: 0 <= i < |DENYLIST| && Contains(Lower(key), DENYLIST[i])
  {
  }

  lemma SensitiveMeans(key: string)
    ensures Sensitive(key) <==> Denied(Lower(key))
  {
    SensitiveAt(key);
    TermsAreListed();
    hide Contains, Lower, Sensitive;
    if Sensitive(key) {
      var i :| 0 <= i < |DENYLIST| && Contains(Lower(key), DENYLIST[i]);
      TermIsDenied(Lower(key), i);
    }
  }

  method IsSensitiveKey(key: string) returns (yes: bool)
    ensures yes <==> Sensitive(key)
    ensures yes <==> Denied(Lower(key))
  {
    SensitiveMeans(key);
    hide Denied, Contains;
    var lk := Lower(key);
    for i := 0 to |DENYLIST|
      invariant forall j :: 0 <= j < i ==> !Contains(lk, DENYLIST[j])
    {
      if Contains(lk, DENYLIST[i]) {
        return true;
      }
    }
    return false;
  }

  lemma {:induction false} ContainsInside(a: string, s: string, b: string, term: string)
    requires Contains(s, term)
    ensures Contains(a + s + b, term)
    decreases |a|, |s|
  {
    if a != [] {
      assert (a + s + b)[1..] == a[1..] + s + b;
      ContainsInside(a[1..], s, b, term);
    } else if term <= s {
      assert term <= a + s + b;
    } else {
      assert (a + s + b)[1..] == [] + s[1..] + b;
      ContainsInside([], s[1..], b, term);
    }
  }

  // A key that contains a sensitive key, in whatever case, is sensitive.
  lemma SensitiveInside(a: string, key: string, b: string, other: string)
    requires Sensitive(key) && Lower(other) == Lower(a + key + b)
    ensures Sensitive(other)
  {
    var term :| term in DENYLIST && Contains(Lower(key), term);
    LowerAppend(a + key, b);
    LowerAppend(a, key);
    ContainsInside(Lower(a), Lower(key), Lower(b), term);
  }

  // ---------------------------------------------------------------- values

  datatype Value =
    | MapRef(at: nat)
    | SliceRef(at: nat, len: nat)
    | StringMap(strings: map<string, string>)
    | Text(text: string)
    | Other(id: nat)

  // Address 0 is nil. An address that holds nothing reads as empty.
  datatype Heap = Heap(maps: map<nat, map<string, Value>>, arrays: map<nat, seq<Value>>)

  function Entries(h: Heap, at: nat): map<string, Value> {
    if at in h.maps then h.maps[at] else map[]
  }

  function Items(h: Heap, at: nat, len: nat): seq<Value> {
    if at in h.arrays && len <= |h.arrays[at]| then h.arrays[at][..len] else []
  }

  // A sanitized copy: freshly made, so a tree.
  datatype Tree =
    | MapOf(entries: map<string, Tree>)
    | SliceOf(items: seq<Tree>)
    | StringMapOf(strings: map<string, string>)
    | TextOf(text: string)
    | OtherOf(id: nat)

  const SENTINEL := TextOf(REDACTED)

  // ---------------------------------------------------------------- the scrubber

  function ScrubStrings(clean: string -> string, m: map<string, string>): map<string, string> {
    map k | k in m :: if Sensitive(k) then REDACTED else clean(m[k])
  }

  // The container at this address is being walked already.
  predicate Guarded(at: nat, seen: set<nat>) {
    at != 0 && at in seen
  }

  function Entered(at: nat, seen: set<nat>): set<nat> {
    if at != 0 then seen + {at} else seen
  }

  function Scrub(h: Heap, clean: string -> string, v: Value, depth: nat, seen: set<nat>): Tree
    decreases MAX_DEPTH - depth
  {
    if depth >= MAX_DEPTH then SENTINEL else
    match v
    case MapRef(at) =>
      if Guarded(at, seen) then SENTINEL
      else
        var entries := Entries(h, at);
        MapOf(map k | k in entries ::
                if Sensitive(k) then SENTINEL else Scrub(h, clean, entries[k], depth + 1, Entered(at, seen)))
    case SliceRef(at, len) =>
      if Guarded(at, seen) then SENTINEL
      else
        var items := Items(h, at, len);
        SliceOf(seq(|items|, i requires 0 <= i < |items| => Scrub(h, clean, items[i], depth + 1, Entered(at, seen))))
    case StringMap(strings) => StringMapOf(ScrubStrings(clean, strings))
    case Text(s) => TextOf(clean(s))
    case Other(id) => OtherOf(id)
  }

  // The walk itself: seen is one set, added to on the way down and restored on the
  // way up, and map keys come in any order.
  class Walk {
    const heap: Heap
    const clean: string -> string
    var seen: set<nat>

    constructor (heap: Heap, clean: string -> string)
      ensures this.heap == heap && this.clean == clean && seen == {}
    {
      this.heap, this.clean, this.seen := heap, clean, {};
    }

    method ScrubValue(v: Value, depth: nat) returns (t: Tree)
      modifies this
      ensures seen == old(seen)
      ensures t == Scrub(heap, clean, v, depth, old(seen))
      decreases MAX_DEPTH - depth, 1
    {
      if depth >= MAX_DEPTH {
        return SENTINEL;
      }
      match v {
        case MapRef(at) =>
          if at != 0 {
            if at in seen {
              return SENTINEL;
            }
            seen := seen + {at};
          }
          var out := ScrubEntries(Entries(heap, at), depth);
          if at != 0 {
            seen := seen - {at};
          }
          t := MapOf(out);
        case SliceRef(at, len) =>
          if at != 0 {
            if at in seen {
              return SENTINEL;
            }
            seen := seen + {at};
          }
          var out := ScrubItems(Items(heap, at, len), depth);
          if at != 0 {
            seen := seen - {at};
          }
          t := SliceOf(out);
        case StringMap(strings) =>
          t := StringMapOf(ScrubStrings(clean, strings));
        case Text(s) =>
          t := TextOf(clean(s));
        case Other(id) =>
          t := OtherOf(id);
      }
    }

    method ScrubEntries(entries: map<string, Value>, depth: nat) returns (out: map<string, Tree>)
      requires depth < MAX_DEPTH
      modifies this
      ensures seen == old(seen)
      ensures out == map k | k in entries ::
          if Sensitive(k) then SENTINEL else Scrub(heap, clean, entries[k], depth + 1, old(seen))
      decreases MAX_DEPTH - depth, 0
    {
      out := map[];
      var left := entries.Keys;
      while left != {}
        invariant left <= entries.Keys && out.Keys == entries.Keys - left
        invariant seen == old(seen)
        invariant forall k :: k in out ==>
            out[k] == if Sensitive(k) then SENTINEL else Scrub(heap, clean, entries[k], depth + 1, old(seen))
        decreases left
      {
        var k :| k in left;
        left := left - {k};
        var sensitive := IsSensitiveKey(k);
        if sensitive {
          out := out[k := SENTINEL];
          continue;
        }
        var child := ScrubValue(entries[k], depth + 1);
        out := out[k := child];
      }
    }

    method ScrubItems(items: seq<Value>, depth: nat) returns (out: seq<Tree>)
      requires depth < MAX_DEPTH
      modifies this
      ensures seen == old(seen)
      ensures |out| == |items|
      ensures forall i :: 0 <= i < |items| ==> out[i] == Scrub(heap, clean, items[i], depth + 1, old(seen))
      decreases MAX_DEPTH - depth, 0
    {
      out := [];
      for i := 0 to |items|
        invariant seen == old(seen)
        invariant |out| == i
        invariant forall j :: 0 <= j < i ==> out[j] == Scrub(heap, clean, items[j], depth + 1, old(seen))
      {
        var child := ScrubValue(items[i], depth + 1);
        out := out + [child];
      }
    }
  }

  // ---------------------------------------------------------------- what a copy holds

  // Containers nest at most this deep; what would stand deeper is the sentinel.
  predicate NestsAtMost(t: Tree, levels: nat) {
    if levels == 0 then t == SENTINEL else
    match t
    case MapOf(entries) => forall k <- entries :: NestsAtMost(entries[k], levels - 1)
    case SliceOf(items) => forall i :: 0 <= i < |items| ==> NestsAtMost(items[i], levels - 1)
    case _ => true
  }

  // Only the sentinel stands under sensitive keys, and every other string is clean.
  ghost predicate Sanitized(clean: string -> string, t: Tree) {
    match t
    case MapOf(entries) => forall k <- entries ::
      if Sensitive(k) then entries[k] == SENTINEL else Sanitized(clean, entries[k])
    case SliceOf(items) => forall i :: 0 <= i < |items| ==> Sanitized(clean, items[i])
    case StringMapOf(strings) => forall k <- strings ::
      if Sensitive(k) then strings[k] == REDACTED else exists s :: strings[k] == clean(s)
    case TextOf(x) => x == REDACTED || exists s :: x == clean(s)
    case OtherOf(_) => true
  }

  lemma {:induction false} CopyIsShallow(h: Heap, clean: string -> string, v: Value, depth: nat, seen: set<nat>)
    requires depth <= MAX_DEPTH
    ensures NestsAtMost(Scrub(h, clean, v, depth, seen), MAX_DEPTH - depth)
    decreases MAX_DEPTH - depth
  {
    hide Sensitive, Items, Entries, Entered;
    var t := Scrub(h, clean, v, depth, seen);
    if depth < MAX_DEPTH {
      if t.MapOf? {
        var entries := Entries(h, v.at);
        forall k | k in entries && !Sensitive(k)
          ensures NestsAtMost(t.entries[k], MAX_DEPTH - depth - 1)
        {
          CopyIsShallow(h, clean, entries[k], depth + 1, Entered(v.at, seen));
        }
      } else if t.SliceOf? {
        var items := Items(h, v.at, v.len);
        forall i | 0 <= i < |items|
          ensures NestsAtMost(t.items[i], MAX_DEPTH - depth - 1)
        {
          CopyIsShallow(h, clean, items[i], depth + 1, Entered(v.at, seen));
        }
      }
    }
  }

  lemma {:induction false} CopyIsSanitized(h: Heap, clean: string -> string, v: Value, depth: nat, seen: set<nat>)
    requires depth <= MAX_DEPTH
    ensures Sanitized(clean, Scrub(h, clean, v, depth, seen))
    decreases MAX_DEPTH - depth
  {
    hide Sensitive, Items, Entries, Entered;
    var t := Scrub(h, clean, v, depth, seen);
    if depth < MAX_DEPTH {
      if t.MapOf? {
        var entries := Entries(h, v.at);
        forall k | k in entries && !Sensitive(k)
          ensures Sanitized(clean, t.entries[k])
        {
          CopyIsSanitized(h, clean, entries[k], depth + 1, Entered(v.at, seen));
        }
      } else if t.SliceOf? {
        var items := Items(h, v.at, v.len);
        forall i | 0 <= i < |items|
          ensures Sanitized(clean, t.items[i])
        {
          CopyIsSanitized(h, clean, items[i], depth + 1, Entered(v.at, seen));
        }
      }
    }
  }

  // ---------------------------------------------------------------- places in the copy

  // One step into a container, and the places that such steps lead to.
  datatype Step = Key(k: string) | Index(i: nat)

  function Address(v: Value): nat {
    match v
    case MapRef(at) => at
    case SliceRef(at, _) => at
    case _ => 0
  }

  predicate HasChild(h: Heap, v: Value, s: Step) {
    match s
    case Key(k) => v.MapRef? && k in Entries(h, v.at)
    case Index(i) => v.SliceRef? && i < |Items(h, v.at, v.len)|
  }

  function Child(h: Heap, v: Value, s: Step): Value
    requires HasChild(h, v, s)
  {
    match s
    case Key(k) => Entries(h, v.at)[k]
    case Index(i) => Items(h, v.at, v.len)[i]
  }

  predicate Reaches(h: Heap, v: Value, path: seq<Step>)
    decreases |path|
  {
    path == [] || (HasChild(h, v, path[0]) && Reaches(h, Child(h, v, path[0]), path[1..]))
  }

  function At(h: Heap, v: Value, path: seq<Step>): Value
    requires Reaches(h, v, path)
    decreases |path|
  {
    if path == [] then v else At(h, Child(h, v, path[0]), path[1..])
  }

  predicate HasBranch(t: Tree, s: Step) {
    match s
    case Key(k) => t.MapOf? && k in t.entries
    case Index(i) => t.SliceOf? && i < |t.items|
  }

  function Branch(t: Tree, s: Step): Tree
    requires HasBranch(t, s)
  {
    match s
    case Key(k) => t.entries[k]
    case Index(i) => t.items[i]
  }

  predicate Holds(t: Tree, path: seq<Step>)
    decreases |path|
  {
    path == [] || (HasBranch(t, path[0]) && Holds(Branch(t, path[0]), path[1..]))
  }

  function Under(t: Tree, path: seq<Step>): Tree
    requires Holds(t, path)
    decreases |path|
  {
    if path == [] then t else Under(Branch(t, path[0]), path[1..])
  }

  // The path goes through a container at this address.
  predicate Through(h: Heap, v: Value, path: seq<Step>, at: nat)
    requires Reaches(h, v, path)
    decreases |path|
  {
    path != [] && (Address(v) == at || Through(h, Child(h, v, path[0]), path[1..], at))
  }

  predicate HiddenKey(s: Step) {
    s.Key? && Sensitive(s.k)
  }

  // The sentinel stands at the end of this path: it ends in a sensitive key, it is too
  // deep, or it leads back to a container that it goes through.
  predicate Stops(h: Heap, v: Value, path: seq<Step>, depth: nat, seen: set<nat>) {
    Reaches(h, v, path) &&
    var at := Address(At(h, v, path));
    || (path != [] && HiddenKey(path[|path| - 1]))
    || depth + |path| >= 16
    || (at != 0 && (at in seen || Through(h, v, path, at)))
  }

  // What stands in the copy for a value at which the walk does not stop.
  ghost predicate Copied(h: Heap, clean: string -> string, v: Value, t: Tree) {
    match v
    case MapRef(at) => t.MapOf? && t.entries.Keys == Entries(h, at).Keys
    case SliceRef(at, len) => t.SliceOf? && |t.items| == |Items(h, at, len)|
    case StringMap(strings) =>
      && t.StringMapOf? && t.strings.Keys == strings.Keys
      && forall k <- strings :: t.strings[k] == if Sensitive(k) then "[REDACTED]" else clean(strings[k])
    case Text(s) => t == TextOf(clean(s))
    case Other(id) => t == OtherOf(id)
  }

  ghost predicate Visible(h: Heap, v: Value, path: seq<Step>, depth: nat, seen: set<nat>) {
    Reaches(h, v, path) && forall j :: 0 <= j < |path| ==> !Stops(h, v, path[..j], depth, seen)
  }

  lemma {:induction false} StopsAfterStep(h: Heap, v: Value, s: Step, path: seq<Step>, depth: nat, seen: set<nat>)
    requires HasChild(h, v, s) && !HiddenKey(s)
    ensures Stops(h, v, [s] + path, depth, seen)
       <==> Stops(h, Child(h, v, s), path, depth + 1, Entered(Address(v), seen))
  {
    assert ([s] + path)[1..] == path;
    if path != [] {
      assert ([s] + path)[|path|] == path[|path| - 1];
    }
  }

  lemma VisibleAfterStep(h: Heap, v: Value, path: seq<Step>, depth: nat, seen: set<nat>)
    requires path != [] && HasChild(h, v, path[0]) && !HiddenKey(path[0]) && !Stops(h, v, [], depth, seen)
    ensures Visible(h, v, path, depth, seen)
       <==> Visible(h, Child(h, v, path[0]), path[1..], depth + 1, Entered(Address(v), seen))
  {
    var c, seen' := Child(h, v, path[0]), Entered(Address(v), seen);
    hide Stops, Child, HasChild, HiddenKey, Entered;
    assert path[..0] == [];
    forall j | 0 <= j < |path| - 1
      ensures Stops(h, v, path[..j + 1], depth, seen) <==> Stops(h, c, path[1..][..j], depth + 1, seen')
    {
      assert path[..j + 1] == [path[0]] + path[1..][..j];
      StopsAfterStep(h, v, path[0], path[1..][..j], depth, seen);
    }
    if Visible(h, c, path[1..], depth + 1, seen') {
      forall j | 0 <= j < |path|
        ensures !Stops(h, v, path[..j], depth, seen)
      {
        if j > 0 {
          assert !Stops(h, c, path[1..][..j - 1], depth + 1, seen');
        }
      }
    }
    if Visible(h, v, path, depth, seen) {
      forall j | 0 <= j < |path| - 1
        ensures !Stops(h, c, path[1..][..j], depth + 1, seen')
      {
        assert !Stops(h, v, path[..j + 1], depth, seen);
      }
    }
  }

  // A place at the end of a path is in the copy exactly if the value has it and the
  // walk does not stop on the way there; and it holds what it should.
  ghost predicate RightAt(h: Heap, clean: string -> string, v: Value, path: seq<Step>, depth: nat, seen: set<nat>,
                          t: Tree) {
    && (Holds(t, path) <==> Visible(h, v, path, depth, seen))
    && (Holds(t, path) ==>
          if Stops(h, v, path, depth, seen) then Under(t, path) == TextOf("[REDACTED]")
          else Copied(h, clean, At(h, v, path), Under(t, path)))
  }

  // One level of the copy.
  lemma CopyLevel(h: Heap, clean: string -> string, v: Value, depth: nat, seen: set<nat>)
    ensures var t := Scrub(h, clean, v, depth, seen);
      if Stops(h, v, [], depth, seen) then t == SENTINEL
      else
        && Copied(h, clean, v, t)
        && forall s: Step :: HasBranch(t, s) <==> HasChild(h, v, s)
  {
  }

  lemma CopyBranch(h: Heap, clean: string -> string, v: Value, s: Step, depth: nat, seen: set<nat>)
    requires HasChild(h, v, s) && !Stops(h, v, [], depth, seen)
    ensures var t := Scrub(h, clean, v, depth, seen);
      && HasBranch(t, s)
      && Branch(t, s) == if HiddenKey(s) then SENTINEL
                         else Scrub(h, clean, Child(h, v, s), depth + 1, Entered(Address(v), seen))
  {
  }

  lemma RightAfterStep(h: Heap, clean: string -> string, v: Value, path: seq<Step>, depth: nat, seen: set<nat>,
                       t: Tree)
    requires path != [] && HasChild(h, v, path[0]) && !HiddenKey(path[0]) && !Stops(h, v, [], depth, seen)
    requires HasBranch(t, path[0])
    requires RightAt(h, clean, Child(h, v, path[0]), path[1..], depth + 1, Entered(Address(v), seen),
                     Branch(t, path[0]))
    ensures RightAt(h, clean, v, path, depth, seen, t)
  {
    VisibleAfterStep(h, v, path, depth, seen);
    StopsAfterStep(h, v, path[0], path[1..], depth, seen);
    assert [path[0]] + path[1..] == path;
    hide Child, HasChild, HasBranch, Branch, Stops, Copied, HiddenKey, Entered, Visible;
    assert Holds(t, path) <==> Holds(Branch(t, path[0]), path[1..]);
    VisibleReaches(h, v, path, depth, seen);
  }

  lemma VisibleReaches(h: Heap, v: Value, path: seq<Step>, depth: nat, seen: set<nat>)
    ensures Visible(h, v, path, depth, seen) ==> Reaches(h, v, path)
  {
  }

  lemma RightAtKey(h: Heap, clean: string -> string, v: Value, path: seq<Step>, depth: nat, seen: set<nat>, t: Tree)
    requires path != [] && HasChild(h, v, path[0]) && HiddenKey(path[0]) && !Stops(h, v, [], depth, seen)
    requires HasBranch(t, path[0]) && Branch(t, path[0]) == SENTINEL
    ensures RightAt(h, clean, v, path, depth, seen, t)
  {
    StopsAtKey(h, v, path, depth, seen);
    NothingUnderSentinel(path[1..]);
    VisibleReaches(h, v, path, depth, seen);
    hide Child, HasChild, HasBranch, Branch, Stops, Copied, HiddenKey, Visible;
    assert Holds(t, path) <==> Holds(SENTINEL, path[1..]);
    assert path[1..] == [] <==> |path| == 1;
    if Holds(t, path) {
      assert Under(t, path) == Under(SENTINEL, path[1..]) == SENTINEL;
    }
  }

  lemma RightOutside(h: Heap, clean: string -> string, v: Value, path: seq<Step>, depth: nat, seen: set<nat>, t: Tree)
    requires path != [] && !HasBranch(t, path[0])
    requires Stops(h, v, [], depth, seen) || !HasChild(h, v, path[0])
    ensures RightAt(h, clean, v, path, depth, seen, t)
  {
    assert path[..0] == [];
  }

  lemma {:induction false} CopyFrom(h: Heap, clean: string -> string, v: Value, path: seq<Step>,
                                    depth: nat, seen: set<nat>)
    ensures RightAt(h, clean, v, path, depth, seen, Scrub(h, clean, v, depth, seen))
    decreases |path|
  {
    var t := Scrub(h, clean, v, depth, seen);
    CopyLevel(h, clean, v, depth, seen);
    if path == [] {
    } else if Stops(h, v, [], depth, seen) || !HasChild(h, v, path[0]) {
      RightOutside(h, clean, v, path, depth, seen, t);
    } else {
      CopyBranch(h, clean, v, path[0], depth, seen);
      hide Scrub, Child, HasChild, HasBranch, Branch, Stops, Copied, HiddenKey, Entered, RightAt;
      if HiddenKey(path[0]) {
        RightAtKey(h, clean, v, path, depth, seen, t);
      } else {
        CopyFrom(h, clean, Child(h, v, path[0]), path[1..], depth + 1, Entered(Address(v), seen));
        RightAfterStep(h, clean, v, path, depth, seen, t);
      }
    }
  }

  lemma NothingUnderSentinel(path: seq<Step>)
    ensures Holds(SENTINEL, path) <==> path == []
  {
  }

  lemma StopsAtKey(h: Heap, v: Value, path: seq<Step>, depth: nat, seen: set<nat>)
    requires path != [] && HasChild(h, v, path[0]) && HiddenKey(path[0]) && !Stops(h, v, [], depth, seen)
    ensures Visible(h, v, path, depth, seen) <==> |path| == 1
    ensures |path| == 1 ==> Stops(h, v, path, depth, seen)
  {
    assert path[..1] == [path[0]] && path[..0] == [];
    assert [path[0]][1..] == [];
    assert Stops(h, v, path[..1], depth, seen);
    if |path| == 1 {
      assert path[1..] == [];
    }
  }

  // Every place of the copy, and no other, is a place of the value that the walk gets
  // to; there stands the sentinel under a sensitive key, sixteen levels deep or where
  // a container is met inside itself, and nowhere else; keys, lengths and other values
  // are kept, and every text is that text scrubbed.
  lemma CopyMirrors(h: Heap, clean: string -> string, v: Value, path: seq<Step>)
    ensures RightAt(h, clean, v, path, 0, {}, Scrub(h, clean, v, 0, {}))
  {
    CopyFrom(h, clean, v, path, 0, {});
  }

  // ---------------------------------------------------------------- cycles

  // The walk meets a container that it is still inside of, at a place it looks at.
  predicate Revisits(h: Heap, v: Value, depth: nat, seen: set<nat>)
    decreases MAX_DEPTH - depth
  {
    depth < MAX_DEPTH &&
    match v
    case MapRef(at) =>
      || Guarded(at, seen)
      || (exists k <- Entries(h, at) ::
            !Sensitive(k) && Revisits(h, Entries(h, at)[k], depth + 1, Entered(at, seen)))
    case SliceRef(at, len) =>
      || Guarded(at, seen)
      || (exists i :: 0 <= i < |Items(h, at, len)| &&
            Revisits(h, Items(h, at, len)[i], depth + 1, Entered(at, seen)))
    case _ => false
  }

  // The same recursion without the cycle guard: the value read as a tree.
  function ScrubTree(h: Heap, clean: string -> string, v: Value, depth: nat): Tree
    decreases MAX_DEPTH - depth
  {
    if depth >= MAX_DEPTH then SENTINEL else
    match v
    case MapRef(at) =>
      var entries := Entries(h, at);
      MapOf(map k | k in entries :: if Sensitive(k) then SENTINEL else ScrubTree(h, clean, entries[k], depth + 1))
    case SliceRef(at, len) =>
      var items := Items(h, at, len);
      SliceOf(seq(|items|, i requires 0 <= i < |items| => ScrubTree(h, clean, items[i], depth + 1)))
    case StringMap(strings) => StringMapOf(ScrubStrings(clean, strings))
    case Text(s) => TextOf(clean(s))
    case Other(id) => OtherOf(id)
  }

  // The guard changes the result exactly when the walk would enter a container twice.
  lemma {:induction false} GuardIsInvisibleExactlyWhen(h: Heap, clean: string -> string, v: Value, depth: nat,
                                                      seen: set<nat>)
    ensures Scrub(h, clean, v, depth, seen) == ScrubTree(h, clean, v, depth) <==> !Revisits(h, v, depth, seen)
    decreases MAX_DEPTH - depth
  {
    if depth < MAX_DEPTH {
      match v
      case MapRef(at) =>
        if !Guarded(at, seen) {
          GuardInEntries(h, clean, at, depth, seen);
        }
      case SliceRef(at, len) =>
        if !Guarded(at, seen) {
          GuardInItems(h, clean, at, len, depth, seen);
        }
      case _ =>
    }
  }

  lemma {:induction false} GuardInEntries(h: Heap, clean: string -> string, at: nat, depth: nat, seen: set<nat>)
    requires depth < MAX_DEPTH && !Guarded(at, seen)
    ensures Scrub(h, clean, MapRef(at), depth, seen) == ScrubTree(h, clean, MapRef(at), depth)
       <==> !Revisits(h, MapRef(at), depth, seen)
    decreases MAX_DEPTH - depth, 0
  {
    var entries := Entries(h, at);
    var t, t' := Scrub(h, clean, MapRef(at), depth, seen), ScrubTree(h, clean, MapRef(at), depth);
    forall k | k in entries
      ensures t.entries[k] == t'.entries[k] <==>
          Sensitive(k) || !Revisits(h, entries[k], depth + 1, Entered(at, seen))
    {
      GuardIsInvisibleExactlyWhen(h, clean, entries[k], depth + 1, Entered(at, seen));
    }
    assert t.entries.Keys == t'.entries.Keys == entries.Keys;
    assert t == t' <==> forall k <- entries :: t.entries[k] == t'.entries[k];
  }

  lemma {:induction false} GuardInItems(h: Heap, clean: string -> string, at: nat, len: nat, depth: nat,
                                        seen: set<nat>)
    requires depth < MAX_DEPTH && !Guarded(at, seen)
    ensures Scrub(h, clean, SliceRef(at, len), depth, seen) == ScrubTree(h, clean, SliceRef(at, len), depth)
       <==> !Revisits(h, SliceRef(at, len), depth, seen)
    decreases MAX_DEPTH - depth, 0
  {
    var items := Items(h, at, len);
    var t, t' := Scrub(h, clean, SliceRef(at, len), depth, seen), ScrubTree(h, clean, SliceRef(at, len), depth);
    forall i | 0 <= i < |items|
      ensures t.items[i] == t'.items[i] <==> !Revisits(h, items[i], depth + 1, Entered(at, seen))
    {
      GuardIsInvisibleExactlyWhen(h, clean, items[i], depth + 1, Entered(at, seen));
    }
    assert |t.items| == |t'.items| == |items|;
    assert t == t' <==> forall i :: 0 <= i < |items| ==> t.items[i] == t'.items[i];
  }

  // ---------------------------------------------------------------- acyclic inputs

  // Every container ranks above the containers it holds; containers may be shared.
  ghost predicate Ranked(h: Heap, rank: nat -> nat) {
    && (forall at <- h.maps, k | k in h.maps[at] && Address(h.maps[at][k]) != 0 ::
          rank(Address(h.maps[at][k])) < rank(at))
    && (forall at <- h.arrays, i | 0 <= i < |h.arrays[at]| && Address(h.arrays[at][i]) != 0 ::
          rank(Address(h.arrays[at][i])) < rank(at))
  }

  lemma {:induction false} RankedNeverRevisits(h: Heap, rank: nat -> nat, v: Value, depth: nat, seen: set<nat>)
    requires Ranked(h, rank) && 0 !in h.maps && 0 !in h.arrays
    requires forall a <- seen :: Address(v) != 0 ==> rank(Address(v)) < rank(a)
    ensures !Revisits(h, v, depth, seen)
    decreases MAX_DEPTH - depth
  {
    if depth < MAX_DEPTH {
      match v
      case MapRef(at) =>
        forall k | k in Entries(h, at)
          ensures !Revisits(h, Entries(h, at)[k], depth + 1, Entered(at, seen))
        {
          RankedNeverRevisits(h, rank, Entries(h, at)[k], depth + 1, Entered(at, seen));
        }
      case SliceRef(at, len) =>
        forall i | 0 <= i < |Items(h, at, len)|
          ensures !Revisits(h, Items(h, at, len)[i], depth + 1, Entered(at, seen))
        {
          RankedNeverRevisits(h, rank, Items(h, at, len)[i], depth + 1, Entered(at, seen));
        }
      case _ =>
    }
  }

  // On inputs without cycles, shared containers or not, the result is that of the
  // plain recursion over the tree.
  lemma AcyclicIsTree(h: Heap, clean: string -> string, v: Value, rank: nat -> nat)
    requires Ranked(h, rank) && 0 !in h.maps && 0 !in h.arrays
    ensures Scrub(h, clean, v, 0, {}) == ScrubTree(h, clean, v, 0)
  {
    RankedNeverRevisits(h, rank, v, 0, {});
    GuardIsInvisibleExactlyWhen(h, clean, v, 0, {});
  }

  // A slice that holds a shorter slice of its own array is taken for a cycle, even
  // where following the references always ends.
  lemma SharedArrayTakenForCycle(clean: string -> string, id: nat)
    ensures var h := Heap(map[], map[7 := [Other(id), SliceRef(7, 1)]]);
      && ScrubTree(h, clean, SliceRef(7, 2), 0) == SliceOf([OtherOf(id), SliceOf([OtherOf(id)])])
      && Scrub(h, clean, SliceRef(7, 2), 0, {}) == SliceOf([OtherOf(id), SENTINEL])
  {
    var h := Heap(map[], map[7 := [Other(id), SliceRef(7, 1)]]);
    assert Items(h, 7, 1) == [Other(id)];
    assert ScrubTree(h, clean, SliceRef(7, 1), 1) == SliceOf([OtherOf(id)]);
  }

  // ---------------------------------------------------------------- scrubbing twice

  // The value reads as this tree.
  ghost predicate Reads(h: Heap, v: Value, t: Tree)
    decreases t
  {
    match t
    case MapOf(entries) =>
      && v.MapRef? && entries.Keys == Entries(h, v.at).Keys
      && (forall k <- entries :: Reads(h, Entries(h, v.at)[k], entries[k]))
    case SliceOf(items) =>
      && v.SliceRef? && |items| == |Items(h, v.at, v.len)|
      && (forall i :: 0 <= i < |items| ==> Reads(h, Items(h, v.at, v.len)[i], items[i]))
    case StringMapOf(strings) => v == StringMap(strings)
    case TextOf(x) => v == Text(x)
    case OtherOf(id) => v == Other(id)
  }

  ghost predicate FixesItsResults(clean: string -> string) {
    clean(REDACTED) == REDACTED && forall s :: clean(clean(s)) == clean(s)
  }

  lemma {:induction false} SanitizedIsFixed(h: Heap, clean: string -> string, v: Value, t: Tree, depth: nat)
    requires depth <= MAX_DEPTH && FixesItsResults(clean)
    requires Reads(h, v, t) && Sanitized(clean, t) && NestsAtMost(t, MAX_DEPTH - depth)
    ensures ScrubTree(h, clean, v, depth) == t
    decreases t
  {
    hide Sensitive, Items, Entries;
    if depth < MAX_DEPTH {
      var t' := ScrubTree(h, clean, v, depth);
      match t
      case MapOf(entries) =>
        forall k | k in entries
          ensures t'.entries[k] == entries[k]
        {
          if !Sensitive(k) {
            SanitizedIsFixed(h, clean, Entries(h, v.at)[k], entries[k], depth + 1);
          }
        }
        assert t'.entries == entries;
      case SliceOf(items) =>
        forall i | 0 <= i < |items|
          ensures t'.items[i] == items[i]
        {
          SanitizedIsFixed(h, clean, Items(h, v.at, v.len)[i], items[i], depth + 1);
        }
        assert t'.items == items;
      case StringMapOf(strings) =>
        assert t'.strings == strings;
      case _ =>
    }
  }

  // Scrubbing a copy of the result changes nothing exactly if the walk meets no
  // container of the copy inside itself, as with freshly made containers; given that
  // scrubbing a string twice changes nothing and the sentinel is left alone.
  lemma ScrubbingTwiceIsOnce(h: Heap, clean: string -> string, v: Value, h': Heap, v': Value)
    requires FixesItsResults(clean)
    requires Reads(h', v', Scrub(h, clean, v, 0, {}))
    ensures Scrub(h', clean, v', 0, {}) == Scrub(h, clean, v, 0, {}) <==> !Revisits(h', v', 0, {})
  {
    CopyIsShallow(h, clean, v, 0, {});
    CopyIsSanitized(h, clean, v, 0, {});
    SanitizedIsFixed(h', clean, v', Scrub(h, clean, v, 0, {}), 0);
    GuardIsInvisibleExactlyWhen(h', clean, v', 0, {});
  }
}
