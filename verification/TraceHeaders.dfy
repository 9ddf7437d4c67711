/**
 * The correlation headers of a request: stamped by the caller, read by the service
 * that receives it.
 */
module TraceHeaders {
  import opened GoText
  import opened TraceContext
  import Baggage

  // Header names, in the form that http.Header gives them.
  datatype Name =
    | Traceparent
    | W3CBaggage
    | AllStakBaggage
    | AllStakTraceId
    | TraceId
    | AllStakSpanId
    | SpanId
    | AllStakRequestId
    | RequestId
    | Named(name: string)

  type Fields = map<Name, string>

  function Get(fields: Fields, name: Name): string {
    if name in fields then fields[name] else ""
  }

  // ---------------------------------------------------------------- stamping

  // What is written: a normalized trace id, the request id, a normalized span id or none.
  predicate OnTheWire(wire: Baggage.Ids) {
    && WellFormed(wire.trace, TRACE_LENGTH)
    && (wire.span == "" || WellFormed(wire.span, SPAN_LENGTH))
  }

  // The bytes that new ids are made of, two trace ids and two span ids.
  datatype Random = Random(trace: seq<Byte>, span: seq<Byte>)

  predicate Enough(random: Random) {
    2 * |random.trace| == TRACE_LENGTH && 2 * |random.span| == SPAN_LENGTH
  }

  function Wire(ids: Baggage.Ids, random: Random): (wire: Baggage.Ids)
    requires Enough(random)
    ensures OnTheWire(wire) && (wire.span == "" <==> ids.span == "") && wire.request == ids.request
  {
    NormalizedIsWellFormed(ids.trace, TRACE_LENGTH, random.trace);
    NormalizedIsWellFormed(ids.span, SPAN_LENGTH, random.span);
    Baggage.Ids(NormalizeID(ids.trace, TRACE_LENGTH, random.trace), ids.request,
                if ids.span == "" then "" else NormalizeID(ids.span, SPAN_LENGTH, random.span))
  }

  function WithIds(fields: Fields, wire: Baggage.Ids, sampled: bool): Fields {
    var traced := fields[AllStakTraceId := wire.trace];
    var requested := if wire.request == "" then traced else traced[AllStakRequestId := wire.request];
    if wire.span == "" then requested
    else requested[AllStakSpanId := wire.span][Traceparent := HeaderOf(wire.trace, wire.span, sampled)]
  }

  function Stamped(fields: Fields, wire: Baggage.Ids, sampled: bool): Fields {
    WithIds(fields, wire, sampled)
      [W3CBaggage := Baggage.Merged(Get(fields, W3CBaggage), wire)]
      [AllStakBaggage := Join(Baggage.Added(wire), ',')]
  }

  // Every field of the stamped request.
  lemma StampedFields(fields: Fields, wire: Baggage.Ids, sampled: bool, name: Name)
    ensures Get(Stamped(fields, wire, sampled), name) ==
      match name
      case AllStakTraceId => wire.trace
      case AllStakRequestId => if wire.request == "" then Get(fields, AllStakRequestId) else wire.request
      case AllStakSpanId => if wire.span == "" then Get(fields, AllStakSpanId) else wire.span
      case Traceparent =>
        if wire.span == "" then Get(fields, Traceparent)
        else "00-" + wire.trace + "-" + wire.span + (if sampled then "-01" else "-00")
      case W3CBaggage => Baggage.Merged(Get(fields, W3CBaggage), wire)
      case AllStakBaggage => Join(Baggage.Added(wire), ',')
      case _ => Get(fields, name)
  {
    hide Join, Baggage.Merged, Baggage.Added;
    assert HeaderOf(wire.trace, wire.span, sampled)
        == "00-" + wire.trace + "-" + wire.span + (if sampled then "-01" else "-00");
    hide HeaderOf;
  }

  class Headers {
    var fields: Fields

    constructor ()
      ensures fields == map[]
    {
      fields := map[];
    }

    method Set(name: Name, value: string)
      modifies this
      ensures fields == old(fields)[name := value]
    {
      fields := fields[name := value];
    }

    // The ids are normalized here and once more where traceparent is written; the
    // second time changes nothing, so both places carry the same ids.
    method SetTraceRequestHeaders(ids: Baggage.Ids, sampled: bool, random: Random, random': Random)
      requires Enough(random) && Enough(random')
      modifies this
      ensures fields == Stamped(old(fields), Wire(ids, random), sampled)
    {
      hide Flags, Join, NormalizeID;
      var trace := NormalizeID(ids.trace, TRACE_LENGTH, random.trace);
      var span := "";
      if ids.span != "" {
        span := NormalizeID(ids.span, SPAN_LENGTH, random.span);
      }
      ghost var wire := Wire(ids, random);
      Set(AllStakTraceId, trace);
      if ids.request != "" {
        Set(AllStakRequestId, ids.request);
      }
      if span != "" {
        Set(AllStakSpanId, span);
        NormalizeIsIdempotent(ids.trace, TRACE_LENGTH, random.trace, random'.trace);
        NormalizeIsIdempotent(ids.span, SPAN_LENGTH, random.span, random'.span);
        Set(Traceparent, FormatTraceparent(trace, span, sampled, random'.trace, random'.span));
      }
      assert Get(fields, W3CBaggage) == Get(old(fields), W3CBaggage);
      var merged := Baggage.MergeBaggage(Get(fields, W3CBaggage), Baggage.Ids(trace, ids.request, span));
      Set(W3CBaggage, merged);
      var own := Baggage.AllStakBaggage(Baggage.Ids(trace, ids.request, span));
      Set(AllStakBaggage, own);
    }
  }

  // ---------------------------------------------------------------- receiving

  // The first of these headers that is not blank.
  function FirstHeader(fields: Fields, names: seq<Name>): string {
    if names == [] then ""
    else if TrimSpace(Get(fields, names[0])) != "" then TrimSpace(Get(fields, names[0]))
    else FirstHeader(fields, names[1..])
  }

  // The first of these headers that is a valid id.
  function FirstValid(fields: Fields, names: seq<Name>, length: nat): string {
    if names == [] then ""
    else
      var value := Lower(TrimSpace(Get(fields, names[0])));
      if IsValid(value, length) then value else FirstValid(fields, names[1..], length)
  }

  // TraceHeadersFromRequest, given the random bytes of the ids it may have to make up.
  function Received(fields: Fields, random: seq<Byte>, random': seq<Byte>): Baggage.Ids {
    var parsed := TraceIDFrom(Get(fields, Traceparent));
    var trace := if parsed != "" then parsed else FirstValid(fields, [AllStakTraceId, TraceId], TRACE_LENGTH);
    var parent := ParentSpanIDFrom(Get(fields, Traceparent));
    var span :=
      if parent == "" && trace != "" then FirstValid(fields, [AllStakSpanId, SpanId], SPAN_LENGTH) else parent;
    var request := FirstHeader(fields, [RequestId, AllStakRequestId]);
    Baggage.Ids(if trace == "" then NewID(random) else trace,
                if request == "" then NewID(random') else request,
                span)
  }

  // Where the ids of a request are looked for: traceparent first, then the SDK's own
  // header, then the common one; the other way round for the request id.
  lemma ReceivedFrom(fields: Fields, random: seq<Byte>, random': seq<Byte>)
    ensures var got := Received(fields, random, random');
      var parsed, parent := TraceIDFrom(Get(fields, Traceparent)), ParentSpanIDFrom(Get(fields, Traceparent));
      var own, common := Lower(TrimSpace(Get(fields, AllStakTraceId))), Lower(TrimSpace(Get(fields, TraceId)));
      var span, span' := Lower(TrimSpace(Get(fields, AllStakSpanId))), Lower(TrimSpace(Get(fields, SpanId)));
      var request, request' := TrimSpace(Get(fields, RequestId)), TrimSpace(Get(fields, AllStakRequestId));
      && (parsed != "" ==> got.trace == parsed)
      && (parsed == "" && IsValid(own, 32) ==> got.trace == own)
      && (parsed == "" && !IsValid(own, 32) && IsValid(common, 32) ==> got.trace == common)
      && (parsed == "" && !IsValid(own, 32) && !IsValid(common, 32) ==>
            got.trace == NewID(random) && got.span == parent)
      && (parent != "" ==> got.span == parent)
      && (parsed != "" || IsValid(own, 32) || IsValid(common, 32) ==>
            parent == "" ==> got.span == if IsValid(span, 16) then span else if IsValid(span', 16) then span' else "")
      && got.request == if request != "" then request else if request' != "" then request' else NewID(random')
  {
    hide TraceIDFrom, ParentSpanIDFrom, TrimSpace, Lower, NewID, IsHex, AllZeros;
    assert [AllStakTraceId, TraceId][1..] == [TraceId] && [TraceId][1..] == [];
    assert [AllStakSpanId, SpanId][1..] == [SpanId] && [SpanId][1..] == [];
    assert [RequestId, AllStakRequestId][1..] == [AllStakRequestId] && [AllStakRequestId][1..] == [];
    var own, common := Lower(TrimSpace(Get(fields, AllStakTraceId))), Lower(TrimSpace(Get(fields, TraceId)));
    assert FirstValid(fields, [TraceId], 32) == if IsValid(common, 32) then common else "";
    assert FirstValid(fields, [AllStakTraceId, TraceId], 32)
        == if IsValid(own, 32) then own else FirstValid(fields, [TraceId], 32);
    var span, span' := Lower(TrimSpace(Get(fields, AllStakSpanId))), Lower(TrimSpace(Get(fields, SpanId)));
    assert FirstValid(fields, [SpanId], 16) == if IsValid(span', 16) then span' else "";
    assert FirstValid(fields, [AllStakSpanId, SpanId], 16)
        == if IsValid(span, 16) then span else FirstValid(fields, [SpanId], 16);
    var request' := TrimSpace(Get(fields, AllStakRequestId));
    assert FirstHeader(fields, [AllStakRequestId]) == request';
  }

  lemma WellFormedIsFound(fields: Fields, name: Name, other: Name, length: nat)
    requires WellFormed(Get(fields, name), length)
    ensures FirstValid(fields, [name, other], length) == Get(fields, name)
  {
    WellFormedReadsAsIs(Get(fields, name), length);
  }

  // With a span id, the receiving service always continues the caller's trace under the
  // caller's span, whatever headers the request had before.
  lemma SpanPropagates(fields: Fields, wire: Baggage.Ids, sampled: bool, random: seq<Byte>, random': seq<Byte>)
    requires OnTheWire(wire) && wire.span != ""
    ensures var got := Received(Stamped(fields, wire, sampled), random, random');
      got.trace == wire.trace && got.span == wire.span
  {
    HeaderReadsBack(wire.trace, wire.span, sampled);
  }

  // Without one no traceparent is written, and the caller's trace is continued exactly
  // when the request carried no valid traceparent of another trace.
  lemma TracePropagatesExactlyWhen(fields: Fields, wire: Baggage.Ids, sampled: bool,
                                   random: seq<Byte>, random': seq<Byte>)
    requires OnTheWire(wire) && wire.span == ""
    ensures Received(Stamped(fields, wire, sampled), random, random').trace == wire.trace
       <==> TraceIDFrom(Get(fields, Traceparent)) in {"", wire.trace}
  {
    var after := Stamped(fields, wire, sampled);
    assert Get(after, Traceparent) == Get(fields, Traceparent);
    WellFormedIsFound(after, AllStakTraceId, TraceId, TRACE_LENGTH);
  }

  // The request id arrives unless an X-Request-Id header was there already.
  lemma RequestPropagates(fields: Fields, wire: Baggage.Ids, sampled: bool, random: seq<Byte>, random': seq<Byte>)
    requires TrimSpace(wire.request) != ""
    ensures Received(Stamped(fields, wire, sampled), random, random').request
         == if TrimSpace(Get(fields, RequestId)) != "" then TrimSpace(Get(fields, RequestId))
            else TrimSpace(wire.request)
  {
    var after := Stamped(fields, wire, sampled);
    assert wire.request != "";
    hide TrimSpace, Split, Flags, Lower, Join;
    assert Get(after, RequestId) == Get(fields, RequestId);
    assert Get(after, AllStakRequestId) == wire.request;
    assert [RequestId, AllStakRequestId][1..] == [AllStakRequestId];
    assert FirstHeader(after, [AllStakRequestId]) == TrimSpace(wire.request);
  }

  // ---------------------------------------------------------------- stamping twice

  lemma WireIsContained(wire: Baggage.Ids)
    requires OnTheWire(wire)
    ensures Baggage.Contained(wire.trace) && Baggage.Contained(wire.span)
  {
    Baggage.PlainIsContained(wire.trace);
    Baggage.PlainIsContained(wire.span);
  }

  lemma IdsAlreadyThere(fields: Fields, wire: Baggage.Ids, sampled: bool)
    ensures var once := Stamped(fields, wire, sampled); WithIds(once, wire, sampled) == once
  {
    hide Join, HeaderOf, Baggage.Merged, Baggage.Added;
    var once := Stamped(fields, wire, sampled);
    assert once[AllStakTraceId] == wire.trace;
    assert once[AllStakTraceId := wire.trace] == once;
  }

  // Stamping a request that carries these ids already changes nothing exactly when the
  // request id hides no member behind a comma.
  lemma StampingTwiceExactlyWhen(fields: Fields, wire: Baggage.Ids, sampled: bool)
    requires OnTheWire(wire)
    ensures Stamped(Stamped(fields, wire, sampled), wire, sampled) == Stamped(fields, wire, sampled)
       <==> Baggage.Contained(wire.request)
  {
    WireIsContained(wire);
    Baggage.MergeIsIdempotentExactlyWhen(Get(fields, W3CBaggage), wire);
    hide Join, HeaderOf, WithIds, Baggage.Merged, Baggage.Contained, Baggage.Added;
    IdsAlreadyThere(fields, wire, sampled);
    var once := Stamped(fields, wire, sampled);
    var merged := Baggage.Merged(Get(fields, W3CBaggage), wire);
    var twice := once[W3CBaggage := Baggage.Merged(merged, wire)];
    assert once[W3CBaggage] == merged && twice[W3CBaggage] == Baggage.Merged(merged, wire);
    assert Stamped(once, wire, sampled) == twice;
  }

  // Random bytes are drawn for none of these ids.
  predicate NoneBlank(ids: Baggage.Ids) {
    && IsValid(Candidate(ids.trace, TRACE_LENGTH), TRACE_LENGTH)
    && (ids.span == "" || IsValid(Candidate(ids.span, SPAN_LENGTH), SPAN_LENGTH))
  }

  // The same for the ids a caller passes: calling twice changes nothing exactly when
  // they come out as the same normalized ids, as they always do unless one is blank,
  // and the request id hides no member.
  lemma StampingAgainExactlyWhen(fields: Fields, ids: Baggage.Ids, sampled: bool, random: Random, random': Random)
    requires Enough(random) && Enough(random')
    ensures var once := Stamped(fields, Wire(ids, random), sampled);
      Stamped(once, Wire(ids, random'), sampled) == once
      <==> Wire(ids, random') == Wire(ids, random) && Baggage.Contained(ids.request)
    ensures NoneBlank(ids) ==> Wire(ids, random') == Wire(ids, random)
  {
    var wire, wire' := Wire(ids, random), Wire(ids, random');
    StampingTwiceExactlyWhen(fields, wire, sampled);
    StampShows(fields, wire, sampled);
    StampShows(Stamped(fields, wire, sampled), wire', sampled);
    hide Wire, Stamped, Baggage.Contained;
    SameWire(ids, random, random');
  }

  lemma StampShows(fields: Fields, wire: Baggage.Ids, sampled: bool)
    ensures var after := Stamped(fields, wire, sampled);
      && AllStakTraceId in after && after[AllStakTraceId] == wire.trace
      && (wire.span != "" ==> AllStakSpanId in after && after[AllStakSpanId] == wire.span)
  {
    hide Join, HeaderOf, Baggage.Merged, Baggage.Added;
  }

  lemma SameWire(ids: Baggage.Ids, random: Random, random': Random)
    requires Enough(random) && Enough(random')
    ensures NoneBlank(ids) ==> Wire(ids, random') == Wire(ids, random)
  {
  }
}
