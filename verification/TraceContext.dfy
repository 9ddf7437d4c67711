/**
 * W3C traceparent headers: ids are normalized, written and read back (section 3.2.2
 * of W3C Trace Context). Random bytes are inputs.
 */
module TraceContext {
  import opened GoText

  const TRACE_LENGTH := 32
  const SPAN_LENGTH := 16

  // ---------------------------------------------------------------- hexadecimal text

  predicate IsHexDigit(c: char) {
    IsDigit(c) || 'a' <= c <= 'f' || 'A' <= c <= 'F'
  }

  predicate IsHex(s: string) {
    s != [] && forall c <- s :: IsHexDigit(c)
  }

  predicate AllZeros(s: string) {
    s != [] && forall c <- s :: c == '0'
  }

  // isValidTraceID and isValidSpanID
  predicate IsValid(id: string, length: nat) {
    |id| == length && IsHex(id) && !AllZeros(id)
  }

  predicate LowerHex(s: string) {
    forall c <- s :: IsDigit(c) || 'a' <= c <= 'f'
  }

  // What the standard asks of an id: lower case, not zero.
  predicate WellFormed(id: string, length: nat) {
    IsValid(id, length) && LowerHex(id)
  }

  function HexOnly(value: string): string {
    HexDigits(Lower(value))
  }

  function HexDigits(s: string): string {
    if s == [] then []
    else if IsHexDigit(s[0]) then [s[0]] + HexDigits(s[1..])
    else HexDigits(s[1..])
  }

  lemma {:induction false} HexDigitsAppend(a: string, c: char)
    ensures HexDigits(a + [c]) == HexDigits(a) + (if IsHexDigit(c) then [c] else [])
  {
    if a == [] {
      assert a + [c] == [c] && [c][1..] == [];
    } else {
      assert (a + [c])[1..] == a[1..] + [c];
      HexDigitsAppend(a[1..], c);
    }
  }

  lemma {:induction false} HexDigitsJoin(a: string, b: string)
    ensures HexDigits(a + b) == HexDigits(a) + HexDigits(b)
  {
    if a == [] {
      assert a + b == b;
    } else {
      assert (a + b)[1..] == a[1..] + b;
      HexDigitsJoin(a[1..], b);
    }
  }

  // Rune by rune: digits and the letters a to f stay, A to F become lower case, all else
  // goes.
  lemma HexOnlyReads(s: string, c: char)
    ensures HexOnly("") == ""
    ensures HexOnly(s + [c]) == HexOnly(s) +
      (if '0' <= c <= '9' || 'a' <= c <= 'f' then [c]
       else if 'A' <= c <= 'F' then [(c as int + 32) as char] else "")
  {
    var one: string := [c];
    assert one[1..] == [];
    LowerAppend(s, one);
    assert Lower(one) == [LowerRune(c)];
    HexDigitsAppend(Lower(s), LowerRune(c));
  }

  // So dashes, as in the form of a UUID, do not matter.
  lemma DashesDoNotMatter(a: string, b: string)
    ensures HexOnly(a + "-" + b) == HexOnly(a + b)
  {
    LowerAppend(a + "-", b);
    LowerAppend(a, "-");
    LowerAppend(a, b);
    HexDigitsJoin(Lower(a) + Lower("-"), Lower(b));
    HexDigitsJoin(Lower(a), Lower("-"));
    HexDigitsJoin(Lower(a), Lower(b));
    assert HexDigits(Lower("-")) == "";
  }

  method CollectHex(value: string) returns (b: string)
    ensures b == HexOnly(value)
  {
    b := "";
    var lower := Lower(value);
    for i := 0 to |lower|
      invariant b == HexDigits(lower[..i])
    {
      assert lower[..i + 1] == lower[..i] + [lower[i]];
      HexDigitsAppend(lower[..i], lower[i]);
      if IsHexDigit(lower[i]) {
        b := b + [lower[i]];
      }
    }
    assert lower[..|lower|] == lower;
  }

  lemma {:induction false} HexDigitsAreLower(s: string)
    ensures LowerHex(HexDigits(Lower(s)))
  {
    if s != [] {
      HexDigitsAreLower(s[1..]);
    }
  }

  lemma {:induction false} LowerHexIsKept(s: string)
    requires LowerHex(s)
    ensures HexOnly(s) == s && Lower(s) == s
  {
    if s != [] {
      LowerHexIsKept(s[1..]);
      assert s[0] in s;
      assert Lower(s)[1..] == Lower(s[1..]);
    }
  }

  // ---------------------------------------------------------------- ids

  type Byte = b: int | 0 <= b < 256

  const HEX := "0123456789abcdef"

  // hex.EncodeToString
  function Encode(bytes: seq<Byte>): string {
    if bytes == [] then [] else [HEX[bytes[0] / 16], HEX[bytes[0] % 16]] + Encode(bytes[1..])
  }

  // NewTraceID and NewSpanID, given the random bytes.
  function NewID(bytes: seq<Byte>): string {
    var id := Encode(bytes);
    if AllZeros(id) then "1" + id[1..] else id
  }

  function HexValue(c: char): int {
    if '0' <= c <= '9' then c as int - '0' as int else c as int - 'a' as int + 10
  }

  lemma DigitOf(d: nat)
    requires d < 16
    ensures IsHexDigit(HEX[d]) && HexValue(HEX[d]) == d && (HEX[d] == '0' <==> d == 0)
  {
  }

  lemma {:induction false} EncodeIsLowerHex(bytes: seq<Byte>)
    ensures |Encode(bytes)| == 2 * |bytes| && LowerHex(Encode(bytes))
  {
    if bytes != [] {
      DigitOf(bytes[0] / 16);
      DigitOf(bytes[0] % 16);
      hide HEX, IsHexDigit;
      EncodeIsLowerHex(bytes[1..]);
    }
  }

  lemma NewIDIsWellFormed(bytes: seq<Byte>)
    requires bytes != []
    ensures WellFormed(NewID(bytes), 2 * |bytes|)
  {
    EncodeIsLowerHex(bytes);
    var id := Encode(bytes);
    if AllZeros(id) {
      var id' := "1" + id[1..];
      assert id'[0] == '1' && id'[0] in id';
    }
  }

  lemma {:induction false} EncodeReads(bytes: seq<Byte>)
    ensures |Encode(bytes)| == 2 * |bytes|
    ensures forall i :: 0 <= i < |bytes| ==>
      16 * HexValue(Encode(bytes)[2 * i]) + HexValue(Encode(bytes)[2 * i + 1]) == bytes[i]
  {
    if bytes != [] {
      DigitOf(bytes[0] / 16);
      DigitOf(bytes[0] % 16);
      EncodeReads(bytes[1..]);
      hide HEX, HexValue, IsHexDigit;
      var rest := Encode(bytes[1..]);
      assert Encode(bytes)[2..] == rest;
      forall i | 1 <= i < |bytes|
        ensures 16 * HexValue(Encode(bytes)[2 * i]) + HexValue(Encode(bytes)[2 * i + 1]) == bytes[i]
      {
        assert Encode(bytes)[2 * i] == rest[2 * (i - 1)] && Encode(bytes)[2 * i + 1] == rest[2 * (i - 1) + 1];
        assert bytes[i] == bytes[1..][i - 1];
      }
    }
  }

  ghost predicate AllAre<T>(s: seq<T>, z: T) {
    forall y <- s :: y == z
  }

  lemma {:induction false} EncodeZeros(bytes: seq<Byte>)
    ensures AllAre(Encode(bytes), '0') <==> AllAre(bytes, 0)
  {
    if bytes != [] {
      var high, low, rest := HEX[bytes[0] / 16], HEX[bytes[0] % 16], Encode(bytes[1..]);
      DigitOf(bytes[0] / 16);
      DigitOf(bytes[0] % 16);
      EncodeZeros(bytes[1..]);
      assert Encode(bytes) == [high] + ([low] + rest) && bytes == [bytes[0]] + bytes[1..];
      hide *;
      AllTheSame(high, [low] + rest, '0');
      AllTheSame(low, rest, '0');
      AllTheSame(bytes[0], bytes[1..], 0);
      assert (bytes[0] == 0) == (high == '0' && low == '0');
    }
  }

  lemma AllTheSame<T>(x: T, rest: seq<T>, z: T)
    ensures AllAre([x] + rest, z) <==> x == z && AllAre(rest, z)
  {
    var all := [x] + rest;
    assert x in all && forall y :: y in all <==> y == x || y in rest;
  }

  // Two digits of a new id are one random byte, so no randomness is lost; only an id of
  // nothing but zeros is changed, in its first digit.
  lemma NewIDReads(bytes: seq<Byte>)
    requires bytes != []
    ensures |NewID(bytes)| == 2 * |bytes|
    ensures forall i :: 0 <= i < |bytes| ==>
      16 * HexValue(NewID(bytes)[2 * i]) + HexValue(NewID(bytes)[2 * i + 1])
      == if i == 0 && (forall b <- bytes :: b == 0) then 16 else bytes[i]
  {
    EncodeReads(bytes);
    EncodeZeros(bytes);
    var id := Encode(bytes);
    assert HexValue('1') == 1 && HexValue(id[1]) == bytes[0] - 16 * HexValue(id[0]) && HexValue('0') == 0;
    if AllZeros(id) {
      assert bytes[0] in bytes && id[0] in id && id[1] in id;
      assert forall k :: 1 <= k < |id| ==> ("1" + id[1..])[k] == id[k];
    }
    hide Encode, HexValue, IsHexDigit;
  }

  function Zeros(n: nat): string {
    seq(n, i => '0')
  }

  // The first hexadecimal digits of the id, filled up with zeros.
  function Candidate(id: string, length: nat): string {
    var hex := HexOnly(id);
    if |hex| >= length then hex[..length]
    else if |hex| > 0 then hex + Zeros(length - |hex|)
    else ""
  }

  // normalizeTraceID and normalizeSpanID; random is what a new id would be made of.
  function NormalizeID(id: string, length: nat, random: seq<Byte>): string {
    var candidate := Candidate(id, length);
    if IsValid(candidate, length) then candidate else NewID(random)
  }

  // The digits come first, and zeros after them.
  lemma CandidateIs(id: string, length: nat)
    requires HexOnly(id) != ""
    ensures var candidate, hex := Candidate(id, length), HexOnly(id);
      && |candidate| == length
      && forall i :: 0 <= i < length ==> candidate[i] == if i < |hex| then hex[i] else '0'
  {
  }

  // Only digits and the letters a to f, and not all zeros.
  lemma WellFormedMeans(id: string, length: nat)
    requires length > 0
    ensures WellFormed(id, length) <==>
      && |id| == length && (forall c <- id :: '0' <= c <= '9' || 'a' <= c <= 'f') && exists c <- id :: c != '0'
  {
  }

  lemma NormalizedIsWellFormed(id: string, length: nat, random: seq<Byte>)
    requires random != [] && 2 * |random| == length
    ensures WellFormed(NormalizeID(id, length, random), length)
  {
    NewIDIsWellFormed(random);
    HexDigitsAreLower(id);
  }

  // Exactly the well-formed ids are left as they are, whatever the random bytes; so
  // normalizing is idempotent.
  lemma NormalizeKeepsExactlyWellFormed(id: string, length: nat, random: seq<Byte>)
    requires random != [] && 2 * |random| == length
    ensures NormalizeID(id, length, random) == id <==> WellFormed(id, length)
  {
    NormalizedIsWellFormed(id, length, random);
    if WellFormed(id, length) {
      LowerHexIsKept(id);
      assert id[..length] == id;
    }
  }

  lemma NormalizeIsIdempotent(id: string, length: nat, random: seq<Byte>, random': seq<Byte>)
    requires random != [] && 2 * |random| == length == 2 * |random'|
    ensures NormalizeID(NormalizeID(id, length, random), length, random') == NormalizeID(id, length, random)
  {
    NormalizedIsWellFormed(id, length, random);
    NormalizeKeepsExactlyWellFormed(NormalizeID(id, length, random), length, random');
  }

  // An id is replaced by a random one exactly when none of its first hexadecimal
  // digits, as many as fit, is other than zero.
  lemma RandomExactlyWhenBlank(id: string, length: nat)
    requires length > 0
    ensures IsValid(Candidate(id, length), length) <==>
        exists i :: 0 <= i < length && i < |HexOnly(id)| && HexOnly(id)[i] != '0'
  {
    HexDigitsAreLower(id);
    var hex, candidate := HexOnly(id), Candidate(id, length);
    if i :| 0 <= i < length && i < |hex| && hex[i] != '0' {
      assert candidate[i] == hex[i] && candidate[i] in candidate;
      assert |candidate| == length && LowerHex(candidate);
    } else {
      forall c <- candidate
        ensures c == '0'
      {
        var i :| 0 <= i < |candidate| && candidate[i] == c;
      }
    }
  }

  // ---------------------------------------------------------------- traceparent

  function Flags(sampled: bool): string {
    if sampled then "01" else "00"
  }

  function HeaderOf(trace: string, span: string, sampled: bool): string {
    "00-" + trace + "-" + span + "-" + Flags(sampled)
  }

  function FormatTraceparent(traceID: string, spanID: string, sampled: bool,
                             random: seq<Byte>, random': seq<Byte>): string {
    HeaderOf(NormalizeID(traceID, TRACE_LENGTH, random), NormalizeID(spanID, SPAN_LENGTH, random'), sampled)
  }

  // Field k of a header of version 00, if it is a valid id.
  function FieldOf(header: string, k: nat, length: nat): string {
    var parts := Split(TrimSpace(header), '-');
    if |parts| == 4 && parts[0] == "00" && IsHex(parts[3]) && |parts[3]| == 2 && k < 4
       && IsValid(Lower(parts[k]), length)
    then Lower(parts[k])
    else ""
  }

  function TraceIDFrom(header: string): string {
    FieldOf(header, 1, TRACE_LENGTH)
  }

  function ParentSpanIDFrom(header: string): string {
    FieldOf(header, 2, SPAN_LENGTH)
  }

  lemma {:induction false} LowerOfHex(s: string)
    requires forall c <- Lower(s) :: IsHexDigit(c)
    ensures LowerHex(Lower(s))
  {
    if s != [] {
      assert forall c <- Lower(s[1..]) :: c in Lower(s);
      LowerOfHex(s[1..]);
      assert Lower(s)[0] == LowerRune(s[0]);
    }
  }

  // Whatever the header, the parser yields a well-formed id or none.
  lemma ParsedIsWellFormed(header: string)
    ensures TraceIDFrom(header) == "" || WellFormed(TraceIDFrom(header), TRACE_LENGTH)
    ensures ParentSpanIDFrom(header) == "" || WellFormed(ParentSpanIDFrom(header), SPAN_LENGTH)
  {
    var parts := Split(TrimSpace(header), '-');
    if TraceIDFrom(header) != "" {
      LowerOfHex(parts[1]);
    }
    if ParentSpanIDFrom(header) != "" {
      LowerOfHex(parts[2]);
    }
  }

  // A header of four fields gives its second field in lower case if the version is 00,
  // the flags are two hexadecimal digits and the field is 32 of them, not all zero; and
  // else nothing. The third field, of 16, likewise.
  lemma FieldsAreRead(a: string, b: string, c: string, d: string)
    requires '-' !in a && '-' !in b && '-' !in c && '-' !in d
    requires Trimmed(Join([a, b, c, d], '-'))
    ensures var header := Join([a, b, c, d], '-');
      var known := a == "00" && |d| == 2 && forall x <- d :: HexRune(x);
      && TraceIDFrom(header) == (if known && IsIdText(b, 32) then Lower(b) else "")
      && ParentSpanIDFrom(header) == (if known && IsIdText(c, 16) then Lower(c) else "")
  {
    var parts := [a, b, c, d];
    TrimKeeps(Join(parts, '-'));
    SplitUndoesJoin(parts, '-');
    hide Split, Join, TrimSpace;
    LowerOfIdText(b, 32);
    LowerOfIdText(c, 16);
    assert Split(TrimSpace(Join(parts, '-')), '-') == parts;
  }

  predicate HexRune(c: char) {
    '0' <= c <= '9' || 'a' <= c <= 'f' || 'A' <= c <= 'F'
  }

  predicate IsIdText(s: string, length: nat) {
    |s| == length && (forall x <- s :: HexRune(x)) && exists x <- s :: x != '0'
  }

  lemma LowerOfIdText(s: string, length: nat)
    requires length > 0
    ensures IsValid(Lower(s), length) <==> IsIdText(s, length)
  {
    LowerAt(s);
    var l := Lower(s);
    assert forall i :: 0 <= i < |s| ==> (IsHexDigit(l[i]) <==> HexRune(s[i])) && (l[i] == '0' <==> s[i] == '0');
    if IsIdText(s, length) {
      var x :| x in s && x != '0';
      var i :| 0 <= i < |s| && s[i] == x;
      assert l[i] in l && l[i] != '0';
    }
    if IsValid(l, length) {
      var x :| x in l && x != '0';
      var i :| 0 <= i < |l| && l[i] == x;
      assert s[i] in s && s[i] != '0';
      forall y <- s
        ensures HexRune(y)
      {
        var j :| 0 <= j < |s| && s[j] == y;
        assert l[j] in l;
      }
    }
  }

  lemma WellFormedReadsAsIs(id: string, length: nat)
    requires WellFormed(id, length)
    ensures TrimSpace(id) == id && Lower(id) == id
  {
    LowerHexIsKept(id);
    if id != [] {
      assert id[0] in id && id[|id| - 1] in id;
    }
    TrimKeeps(id);
  }

  lemma WellFormedIsFree(id: string, length: nat)
    requires WellFormed(id, length)
    ensures '-' !in id
  {
  }

  lemma HeaderParts(trace: string, span: string, sampled: bool)
    requires WellFormed(trace, TRACE_LENGTH) && WellFormed(span, SPAN_LENGTH)
    ensures Split(TrimSpace(HeaderOf(trace, span, sampled)), '-') == ["00", trace, span, Flags(sampled)]
  {
    var parts := ["00", trace, span, Flags(sampled)];
    var header := HeaderOf(trace, span, sampled);
    WellFormedIsFree(trace, TRACE_LENGTH);
    WellFormedIsFree(span, SPAN_LENGTH);
    assert Join(parts, '-') == header by {
      assert parts[1..] == [trace, span, Flags(sampled)];
      assert parts[1..][1..] == [span, Flags(sampled)];
      assert parts[1..][1..][1..] == [Flags(sampled)];
      assert Join([span, Flags(sampled)], '-') == span + "-" + Flags(sampled);
      assert Join([trace, span, Flags(sampled)], '-') == trace + "-" + (span + "-" + Flags(sampled));
      assert "00" + ['-'] == "00-";
    }
    TrimKeeps(header);
    SplitUndoesJoin(parts, '-');
  }

  // A header built of well-formed ids reads back as those ids.
  lemma HeaderReadsBack(trace: string, span: string, sampled: bool)
    requires WellFormed(trace, TRACE_LENGTH) && WellFormed(span, SPAN_LENGTH)
    ensures TraceIDFrom(HeaderOf(trace, span, sampled)) == trace
    ensures ParentSpanIDFrom(HeaderOf(trace, span, sampled)) == span
  {
    LowerHexIsKept(trace);
    LowerHexIsKept(span);
    hide HeaderOf, Split, TrimSpace, Lower, LowerHex;
    HeaderParts(trace, span, sampled);
  }

  // Reading a header back gives exactly the normalized ids it was made of.
  lemma TraceparentRoundTrip(traceID: string, spanID: string, sampled: bool,
                             random: seq<Byte>, random': seq<Byte>)
    requires 2 * |random| == TRACE_LENGTH && 2 * |random'| == SPAN_LENGTH
    ensures var header := FormatTraceparent(traceID, spanID, sampled, random, random');
      && TraceIDFrom(header) == NormalizeID(traceID, TRACE_LENGTH, random)
      && ParentSpanIDFrom(header) == NormalizeID(spanID, SPAN_LENGTH, random')
      && |TraceIDFrom(header)| == 32 && |ParentSpanIDFrom(header)| == 16
      && header == "00-" + TraceIDFrom(header) + "-" + ParentSpanIDFrom(header) + (if sampled then "-01" else "-00")
  {
    NormalizedIsWellFormed(traceID, TRACE_LENGTH, random);
    NormalizedIsWellFormed(spanID, SPAN_LENGTH, random');
    hide NormalizeID, IsHex, AllZeros, LowerHex;
    var trace, span := NormalizeID(traceID, TRACE_LENGTH, random), NormalizeID(spanID, SPAN_LENGTH, random');
    assert HeaderOf(trace, span, sampled) == "00-" + trace + "-" + span + (if sampled then "-01" else "-00");
    hide HeaderOf;
    HeaderReadsBack(trace, span, sampled);
  }
}
