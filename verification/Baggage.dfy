/**
 * W3C baggage: the SDK replaces its own members and keeps everybody else's (section 3
 * of W3C Baggage).
 */
module Baggage {
  import opened GoText

  const PREFIX := "allstak-"

  // ---------------------------------------------------------------- members

  // A member the SDK considers its own.
  predicate Owned(member: string) {
    PREFIX <= Lower(member)
  }

  // The members of a list that are not the SDK's own, trimmed, blank ones left out.
  function Vendor(pieces: seq<string>): seq<string> {
    if pieces == [] then []
    else
      var trimmed := TrimSpace(pieces[0]);
      if trimmed == "" || Owned(trimmed) then Vendor(pieces[1..]) else [trimmed] + Vendor(pieces[1..])
  }

  function VendorOf(baggage: string): seq<string> {
    Vendor(Split(baggage, ','))
  }

  // The SDK's own members, trimmed.
  function Own(pieces: seq<string>): seq<string> {
    if pieces == [] then []
    else
      var trimmed := TrimSpace(pieces[0]);
      if Owned(trimmed) then [trimmed] + Own(pieces[1..]) else Own(pieces[1..])
  }

  function OwnOf(baggage: string): seq<string> {
    Own(Split(baggage, ','))
  }

  datatype Ids = Ids(trace: string, request: string, span: string)

  function Member(name: string, id: string): seq<string> {
    if id == "" then [] else [PREFIX + name + "=" + id]
  }

  // The members that the SDK adds.
  function Added(ids: Ids): seq<string> {
    Member("trace_id", ids.trace) + Member("request_id", ids.request) + Member("span_id", ids.span)
  }

  // Which id stands under which name.
  lemma AddedAre(ids: Ids)
    ensures Added(ids) == (if ids.trace == "" then [] else ["allstak-trace_id=" + ids.trace])
                        + (if ids.request == "" then [] else ["allstak-request_id=" + ids.request])
                        + (if ids.span == "" then [] else ["allstak-span_id=" + ids.span])
  {
    assert PREFIX + "trace_id" + "=" == "allstak-trace_id=";
    assert PREFIX + "request_id" + "=" == "allstak-request_id=";
    assert PREFIX + "span_id" + "=" == "allstak-span_id=";
  }

  method AllStakBaggage(ids: Ids) returns (baggage: string)
    ensures baggage == Join(Added(ids), ',')
    ensures baggage == Join((if ids.trace == "" then [] else ["allstak-trace_id=" + ids.trace])
                          + (if ids.request == "" then [] else ["allstak-request_id=" + ids.request])
                          + (if ids.span == "" then [] else ["allstak-span_id=" + ids.span]), ',')
  {
    var parts := [];
    if ids.trace != "" {
      parts := parts + ["allstak-trace_id=" + ids.trace];
    }
    if ids.request != "" {
      parts := parts + ["allstak-request_id=" + ids.request];
    }
    if ids.span != "" {
      parts := parts + ["allstak-span_id=" + ids.span];
    }
    baggage := Join(parts, ',');
    AddedAre(ids);
    hide Added, Join;
    assert parts == Added(ids);
  }

  // The pieces of the SDK's own baggage, a comma inside an id splitting its member.
  function AddedPieces(ids: Ids): seq<string> {
    Pieces(Added(ids), ',')
  }

  function Merged(existing: string, ids: Ids): string {
    Join(VendorOf(existing) + AddedPieces(ids), ',')
  }

  lemma {:induction false} VendorAppend(a: seq<string>, b: seq<string>)
    ensures Vendor(a + b) == Vendor(a) + Vendor(b)
    ensures Own(a + b) == Own(a) + Own(b)
  {
    if a == [] {
      assert a + b == b;
    } else {
      assert (a + b)[1..] == a[1..] + b;
      VendorAppend(a[1..], b);
    }
  }

  method MergeBaggage(existing: string, ids: Ids) returns (baggage: string)
    ensures baggage == Merged(existing, ids)
  {
    var parts := [];
    var pieces := Split(existing, ',');
    for i := 0 to |pieces|
      invariant parts == Vendor(pieces[..i])
    {
      var trimmed := TrimSpace(pieces[i]);
      assert pieces[..i + 1] == pieces[..i] + [pieces[i]];
      VendorAppend(pieces[..i], [pieces[i]]);
      assert [pieces[i]][1..] == [];
      if trimmed == "" || Owned(trimmed) {
        continue;
      }
      parts := parts + [trimmed];
    }
    assert pieces[..|pieces|] == pieces;
    var own := AllStakBaggage(ids);
    if own != "" {
      parts := parts + Split(own, ',');
      AddedHasText(ids);
      SplitOfJoin(Added(ids), ',');
    } else {
      AddedHasText(ids);
      assert Vendor(pieces) + [] == Vendor(pieces);
    }
    baggage := Join(parts, ',');
  }

  lemma AddedHasText(ids: Ids)
    ensures Join(Added(ids), ',') == "" <==> Added(ids) == []
  {
    if Added(ids) != [] {
      assert Added(ids)[0] != "";
    }
  }

  // ---------------------------------------------------------------- reading the result back

  lemma {:induction false} VendorIsClean(pieces: seq<string>)
    requires Free(pieces, ',')
    ensures Free(Vendor(pieces), ',')
    ensures Vendor(Vendor(pieces)) == Vendor(pieces) && Own(Vendor(pieces)) == []
  {
    if pieces != [] {
      VendorIsClean(pieces[1..]);
      TrimIsTrimmed(pieces[0]);
      TrimKeeps(TrimSpace(pieces[0]));
    }
  }

  lemma {:induction false} PiecesAreFree(parts: seq<string>)
    ensures Free(Pieces(parts, ','), ',')
  {
    if parts != [] {
      SplitIsFree(parts[0], ',');
      PiecesAreFree(parts[1..]);
    }
  }

  // The merged baggage holds the vendor members as they were, in order, and the
  // members just added; nothing that the SDK had put there before.
  lemma MergeKeepsVendors(existing: string, ids: Ids)
    ensures VendorOf(Merged(existing, ids)) == VendorOf(existing) + Vendor(AddedPieces(ids))
    ensures OwnOf(Merged(existing, ids)) == Own(AddedPieces(ids))
  {
    var parts := VendorOf(existing) + AddedPieces(ids);
    SplitIsFree(existing, ',');
    VendorIsClean(Split(existing, ','));
    PiecesAreFree(Added(ids));
    VendorAppend(VendorOf(existing), AddedPieces(ids));
    if parts != [] {
      SplitUndoesJoin(parts, ',');
    } else {
      assert Split("", ',') == [""];
      assert Vendor([""]) == [] && Own([""]) == [];
    }
    assert [] + Own(AddedPieces(ids)) == Own(AddedPieces(ids));
  }

  // Which members are a vendor's: between any two commas, the text without spaces at its
  // ends, unless nothing is left or it begins with allstak- in whatever case.
  lemma VendorsAre(a: string, b: string, member: string)
    requires ',' !in member
    ensures VendorOf(a + "," + b) == VendorOf(a) + VendorOf(b)
    ensures var m := TrimSpace(member);
      VendorOf(member) == if m == "" || (|m| >= 8 && Lower(m[..8]) == "allstak-") then [] else [m]
  {
    SplitAtSeparator(a, b, ',');
    assert a + [','] + b == a + "," + b;
    VendorAppend(Split(a, ','), Split(b, ','));
    SplitUndoesJoin([member], ',');
    LowerAt(TrimSpace(member));
    var one: seq<string> := [member];
    assert one[1..] == [] && Split(member, ',') == one;
    OwnedMeans(TrimSpace(member));
    hide Owned;
    assert Vendor(one[1..]) == [];
  }

  lemma OwnedMeans(m: string)
    ensures Owned(m) <==> |m| >= 8 && Lower(m[..8]) == "allstak-"
  {
    LowerAt(m);
    if |m| >= 8 {
      assert m == m[..8] + m[8..];
      LowerAppend(m[..8], m[8..]);
      LowerAt(m[..8]);
      LowerAt(m[8..]);
    }
  }

  // ---------------------------------------------------------------- commas in ids

  // No piece of the id behind its first comma would be taken for a vendor's member.
  predicate Contained(id: string) {
    Vendor(Split(id, ',')[1..]) == []
  }

  predicate AllContained(ids: Ids) {
    Contained(ids.trace) && Contained(ids.request) && Contained(ids.span)
  }

  lemma {:induction false} LowerKeepsPrefix(s: string)
    requires PREFIX <= s
    ensures Owned(s)
  {
    assert s == PREFIX + s[|PREFIX|..];
    LowerAppend(PREFIX, s[|PREFIX|..]);
    assert Lower(PREFIX) == PREFIX by {
      LowerAt(PREFIX);
    }
  }

  lemma MemberIsOwned(name: string, value: string)
    ensures Owned(TrimSpace(PREFIX + name + "=" + value))
  {
    var front := PREFIX + name + "=";
    TrimRightKeepsFront(front, value);
    assert TrimLeft(front + value) == front + value;
    LowerKeepsPrefix(TrimSpace(front + value));
  }

  function TrimEach(parts: seq<string>): seq<string> {
    if parts == [] then [] else [TrimSpace(parts[0])] + TrimEach(parts[1..])
  }

  lemma {:induction false} TrimEachAppend(a: seq<string>, b: seq<string>)
    ensures TrimEach(a + b) == TrimEach(a) + TrimEach(b)
  {
    if a == [] {
      assert a + b == b;
    } else {
      assert (a + b)[1..] == a[1..] + b;
      TrimEachAppend(a[1..], b);
    }
  }

  lemma MemberPieces(name: string, id: string)
    requires ',' !in name
    ensures Vendor(Pieces(Member(name, id), ',')) == [] <==> Contained(id)
    ensures ',' !in id ==> Own(Pieces(Member(name, id), ',')) == TrimEach(Member(name, id))
  {
    var front := PREFIX + name + "=";
    SplitFront(front, id, ',');
    MemberIsOwned(name, Split(id, ',')[0]);
    var first, rest := [front + Split(id, ',')[0]], Split(id, ',')[1..];
    VendorAppend(first, rest);
    assert first[1..] == [];
    if id != "" {
      assert Member(name, id)[1..] == [];
      assert Pieces(Member(name, id), ',') == Split(front + id, ',') + [];
      assert Pieces(Member(name, id), ',') == first + rest;
    }
    if ',' !in id {
      SplitUndoesJoin([id], ',');
    }
  }

  lemma {:induction false} PiecesAppend(a: seq<string>, b: seq<string>)
    ensures Pieces(a + b, ',') == Pieces(a, ',') + Pieces(b, ',')
  {
    if a == [] {
      assert a + b == b;
    } else {
      assert (a + b)[1..] == a[1..] + b;
      PiecesAppend(a[1..], b);
    }
  }

  lemma AddedVendors(ids: Ids)
    ensures Vendor(AddedPieces(ids)) == [] <==> AllContained(ids)
  {
    var t, r, s := Member("trace_id", ids.trace), Member("request_id", ids.request), Member("span_id", ids.span);
    MemberPieces("trace_id", ids.trace);
    MemberPieces("request_id", ids.request);
    MemberPieces("span_id", ids.span);
    PiecesAppend(t + r, s);
    PiecesAppend(t, r);
    VendorAppend(Pieces(t + r, ','), Pieces(s, ','));
    VendorAppend(Pieces(t, ','), Pieces(r, ','));
  }

  // ---------------------------------------------------------------- merging twice

  lemma {:induction false} JoinLength(parts: seq<string>)
    ensures parts != [] ==> |Join(parts, ',')| == Total(parts) - 1
  {
    if |parts| > 1 {
      JoinLength(parts[1..]);
    }
  }

  function Total(parts: seq<string>): nat {
    if parts == [] then 0 else |parts[0]| + 1 + Total(parts[1..])
  }

  lemma {:induction false} TotalAppend(a: seq<string>, b: seq<string>)
    ensures Total(a + b) == Total(a) + Total(b)
  {
    if a == [] {
      assert a + b == b;
    } else {
      assert (a + b)[1..] == a[1..] + b;
      TotalAppend(a[1..], b);
    }
  }

  // Merging the same ids again changes nothing exactly when no id has, behind a comma,
  // text that reads as somebody else's member.
  lemma MergeIsIdempotentExactlyWhen(existing: string, ids: Ids)
    ensures Merged(Merged(existing, ids), ids) == Merged(existing, ids) <==> AllContained(ids)
  {
    MergeKeepsVendors(existing, ids);
    AddedVendors(ids);
    var v, stray, own := VendorOf(existing), Vendor(AddedPieces(ids)), AddedPieces(ids);
    if stray == [] {
      assert v + [] == v;
    } else {
      JoinLength(v + own);
      JoinLength(v + stray + own);
      TotalAppend(v, own);
      TotalAppend(v + stray, own);
      TotalAppend(v, stray);
      assert own != [];
    }
  }

  lemma PlainIsContained(id: string)
    requires ',' !in id
    ensures Contained(id)
  {
    SplitUndoesJoin([id], ',');
  }

  // What the SDK promises, for ids without commas: vendor members survive in order,
  // older members of its own vanish, each new one is there once, and merging again
  // changes nothing.
  lemma MergeOfPlainIds(existing: string, ids: Ids)
    requires ',' !in ids.trace && ',' !in ids.request && ',' !in ids.span
    ensures var baggage := Merged(existing, ids);
      && VendorOf(baggage) == VendorOf(existing)
      && OwnOf(baggage) == TrimEach(Added(ids))
      && Merged(baggage, ids) == baggage
  {
    MergeKeepsVendors(existing, ids);
    PlainIsContained(ids.trace);
    PlainIsContained(ids.request);
    PlainIsContained(ids.span);
    AddedVendors(ids);
    MergeIsIdempotentExactlyWhen(existing, ids);
    OwnOfAdded(ids);
    assert VendorOf(existing) + [] == VendorOf(existing);
  }

  lemma OwnOfAdded(ids: Ids)
    requires ',' !in ids.trace && ',' !in ids.request && ',' !in ids.span
    ensures Own(AddedPieces(ids)) == TrimEach(Added(ids))
  {
    var t, r, s := Member("trace_id", ids.trace), Member("request_id", ids.request), Member("span_id", ids.span);
    MemberPieces("trace_id", ids.trace);
    MemberPieces("request_id", ids.request);
    MemberPieces("span_id", ids.span);
    hide Member, Own, Vendor, Pieces, TrimEach;
    PiecesAppend(t + r, s);
    PiecesAppend(t, r);
    VendorAppend(Pieces(t + r, ','), Pieces(s, ','));
    VendorAppend(Pieces(t, ','), Pieces(r, ','));
    TrimEachAppend(t + r, s);
    TrimEachAppend(t, r);
  }

  lemma PiecesOfOne(part: string)
    ensures Pieces([part], ',') == Split(part, ',')
  {
    assert Split(part, ',') + [] == Split(part, ',');
  }

  // With a comma in the request id, what follows the comma turns into one more
  // vendor member at every merge.
  lemma CommaAddsAMember(existing: string, a: string, b: string)
    requires ',' !in a && ',' !in b && b != "" && Trimmed(b) && !Owned(b)
    ensures var ids := Ids("", a + [','] + b, "");
      && VendorOf(Merged(existing, ids)) == VendorOf(existing) + [b]
      && VendorOf(Merged(Merged(existing, ids), ids)) == VendorOf(existing) + [b] + [b]
  {
    var ids := Ids("", a + [','] + b, "");
    var front := PREFIX + "request_id" + "=";
    assert front + ids.request == front + a + [','] + b;
    assert Added(ids) == [front + a + [','] + b];
    PiecesOfOne(front + a + [','] + b);
    MemberIsOwned("request_id", a);
    TrimKeeps(b);
    hide Owned, Member, Split, Join, Pieces;
    SplitAtSeparator(front + a, b, ',');
    SplitUndoesJoin([front + a], ',');
    SplitUndoesJoin([b], ',');
    assert AddedPieces(ids) == [front + a, b];
    assert Vendor([b]) == [b] && Vendor([front + a, b]) == Vendor([b]);
    MergeKeepsVendors(existing, ids);
    MergeKeepsVendors(Merged(existing, ids), ids);
  }
}
