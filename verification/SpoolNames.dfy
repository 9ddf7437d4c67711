/**
 * The file names of the offline spool. Names are compared byte by byte; the
 * zero-padded millisecond and sequence number make that the order of creation.
 */
module SpoolNames {

  const PREFIX := "evt-"
  const EXT := ".json"

  // ---------------------------------------------------------------- byte order

  predicate Less(a: string, b: string) {
    if b == [] then false
    else if a == [] then true
    else a[0] < b[0] || (a[0] == b[0] && Less(a[1..], b[1..]))
  }

  lemma {:induction false} LessIrreflexive(a: string)
    ensures !Less(a, a)
  {
    if a != [] {
      LessIrreflexive(a[1..]);
    }
  }

  lemma {:induction false} LessTransitive(a: string, b: string, c: string)
    requires Less(a, b) && Less(b, c)
    ensures Less(a, c)
  {
    if a != [] && a[0] == b[0] == c[0] {
      LessTransitive(a[1..], b[1..], c[1..]);
    }
  }

  lemma {:induction false} LessTotal(a: string, b: string)
    ensures a == b || Less(a, b) || Less(b, a)
  {
    if a != [] && b != [] && a[0] == b[0] {
      LessTotal(a[1..], b[1..]);
      assert a == [a[0]] + a[1..] && b == [b[0]] + b[1..];
    }
  }

  // Equal-length heads decide the order before the tails do.
  lemma {:induction false} LessConcat(a: string, b: string, x: string, y: string)
    requires |a| == |b|
    ensures Less(a + x, b + y) <==> Less(a, b) || (a == b && Less(x, y))
  {
    if a == [] {
      assert a + x == x && b + y == y;
      if Less(a, b) { assert false; }
    } else {
      assert (a + x)[1..] == a[1..] + x && (b + y)[1..] == b[1..] + y;
      LessConcat(a[1..], b[1..], x, y);
      assert a == [a[0]] + a[1..] && b == [b[0]] + b[1..];
    }
  }

  // ---------------------------------------------------------------- decimal numbers

  function Digit(d: nat): char
    requires d < 10
  {
    '0' + d as char
  }

  function Decimal(n: nat): string {
    if n < 10 then [Digit(n)] else Decimal(n / 10) + [Digit(n % 10)]
  }

  function Zeros(k: nat): string {
    if k == 0 then [] else Zeros(k - 1) + ['0']
  }

  // fmt's %0<width>d: at least `width` digits, more when the number needs them.
  function Pad(n: nat, width: nat): string {
    var d := Decimal(n);
    if |d| >= width then d else Zeros(width - |d|) + d
  }

  function Pow10(k: nat): nat {
    if k == 0 then 1 else 10 * Pow10(k - 1)
  }

  predicate Digits(s: string) {
    forall i :: 0 <= i < |s| ==> '0' <= s[i] <= '9'
  }

  function Value(s: string): nat
    requires Digits(s)
  {
    if s == [] then 0 else 10 * Value(s[..|s| - 1]) + (s[|s| - 1] as nat - '0' as nat)
  }

  lemma {:induction false} DecimalProperties(n: nat)
    ensures Digits(Decimal(n)) && Value(Decimal(n)) == n && |Decimal(n)| >= 1
  {
    if n < 10 {
      assert Decimal(n)[..0] == [];
    } else {
      DecimalProperties(n / 10);
      assert Decimal(n)[..|Decimal(n)| - 1] == Decimal(n / 10);
    }
  }

  lemma {:induction false} DecimalLength(n: nat, width: nat)
    requires n < Pow10(width) && width >= 1
    ensures |Decimal(n)| <= width
  {
    if n >= 10 {
      assert width > 1 by {
        if width == 1 {
          assert false;
        }
      }
      DecimalLength(n / 10, width - 1);
    }
  }

  lemma {:induction false} ZerosAreZero(k: nat)
    ensures |Zeros(k)| == k && Digits(Zeros(k)) && Value(Zeros(k)) == 0
  {
    if k > 0 {
      ZerosAreZero(k - 1);
      assert Zeros(k)[..k - 1] == Zeros(k - 1);
    }
  }

  lemma {:induction false} LeadingZeros(k: nat, d: string)
    requires Digits(d)
    ensures |Zeros(k)| == k && Digits(Zeros(k) + d) && Value(Zeros(k) + d) == Value(d)
  {
    ZerosAreZero(k);
    if d == [] {
      assert Zeros(k) + d == Zeros(k);
    } else {
      var longer := Zeros(k) + d;
      LeadingZeros(k, d[..|d| - 1]);
      assert longer[..|longer| - 1] == Zeros(k) + d[..|d| - 1];
      assert longer[|longer| - 1] == d[|d| - 1];
    }
  }

  lemma PadProperties(n: nat, width: nat)
    ensures Digits(Pad(n, width)) && Value(Pad(n, width)) == n
    ensures width >= 1 && n < Pow10(width) ==> |Pad(n, width)| == width
  {
    DecimalProperties(n);
    var d := Decimal(n);
    if |d| < width {
      LeadingZeros(width - |d|, d);
    }
    if width >= 1 && n < Pow10(width) {
      DecimalLength(n, width);
    }
  }

  lemma {:induction false} ValueBound(s: string)
    requires Digits(s)
    ensures Value(s) < Pow10(|s|)
  {
    if s != [] {
      ValueBound(s[..|s| - 1]);
    }
  }

  // Digit strings of one length are ordered like their values.
  lemma {:induction false} SameLengthOrder(a: string, b: string)
    requires Digits(a) && Digits(b) && |a| == |b|
    ensures Less(a, b) <==> Value(a) < Value(b)
    ensures a == b <==> Value(a) == Value(b)
  {
    if a != [] {
      var n := |a| - 1;
      SameLengthOrder(a[..n], b[..n]);
      assert a == a[..n] + [a[n]] && b == b[..n] + [b[n]];
      LastDigitOrder(a[..n], b[..n], a[n], b[n]);
    }
  }

  lemma ValueOfLast(s: string, c: char)
    requires Digits(s) && '0' <= c <= '9'
    ensures Digits(s + [c]) && Value(s + [c]) == 10 * Value(s) + (c as nat - '0' as nat)
  {
    assert (s + [c])[..|s|] == s;
  }

  lemma OneCharacterOrder(x: char, y: char)
    ensures Less([x], [y]) <==> x < y
  {
    assert [x][1..] == [] && [y][1..] == [];
  }

  lemma LastDigitOrder(a: string, b: string, x: char, y: char)
    requires Digits(a) && Digits(b) && |a| == |b| && '0' <= x <= '9' && '0' <= y <= '9'
    requires Less(a, b) <==> Value(a) < Value(b)
    requires a == b <==> Value(a) == Value(b)
    ensures Digits(a + [x]) && Digits(b + [y])
    ensures Less(a + [x], b + [y]) <==> Value(a + [x]) < Value(b + [y])
    ensures a + [x] == b + [y] <==> Value(a + [x]) == Value(b + [y])
  {
    ValueOfLast(a, x);
    ValueOfLast(b, y);
    LessConcat(a, b, [x], [y]);
    OneCharacterOrder(x, y);
    hide Less, Value;
    if a + [x] == b + [y] {
      assert (a + [x])[..|a|] == (b + [y])[..|b|];
    }
  }

  // ---------------------------------------------------------------- file names

  function Assemble(m: string, s: string): string {
    PREFIX + (m + ("-" + (s + EXT)))
  }

  // Sprintf("%s%013d-%010d%s")
  function FileName(ms: nat, q: nat): string {
    Assemble(Pad(ms, 13), Pad(q, 10))
  }

  predicate IsEnvelopeName(name: string) {
    && |name| >= |PREFIX| && name[..|PREFIX|] == PREFIX
    && |name| >= |EXT| && name[|name| - |EXT|..] == EXT
  }

  lemma FileNameIsListed(ms: nat, q: nat)
    ensures IsEnvelopeName(FileName(ms, q))
  {
    hide Pad;
    AssembledIsListed(Pad(ms, 13), Pad(q, 10));
  }

  lemma AssembledIsListed(m: string, s: string)
    ensures IsEnvelopeName(Assemble(m, s))
  {
    StartsAndEnds(PREFIX, m, "-", s, EXT);
  }

  lemma StartsAndEnds(start: string, a: string, b: string, c: string, end: string)
    ensures var t := start + (a + (b + (c + end)));
      |t| >= |start| && |t| >= |end| && t[..|start|] == start && t[|t| - |end|..] == end
  {
    assert start + (a + (b + (c + end))) == (start + (a + (b + c))) + end;
  }

  lemma FixedWidth()
    ensures Pow10(13) == 10_000_000_000_000 && Pow10(10) == 10_000_000_000
  {
    assert Pow10(4) == 10_000;
    assert Pow10(8) == 100_000_000;
    assert Pow10(10) == 10_000_000_000;
  }

  // The parts of a name: evt-, thirteen digits for the milliseconds, a dash, ten for the
  // sequence number, and .json.
  lemma NameParts(ms: nat, q: nat)
    requires ms < 10_000_000_000_000 && q < 10_000_000_000
    ensures var n := FileName(ms, q);
      && |n| == 33 && n[..4] == "evt-" && n[17..18] == "-" && n[28..] == ".json"
      && Digits(n[4..17]) && Value(n[4..17]) == ms && Digits(n[18..28]) && Value(n[18..28]) == q
  {
    FixedWidth();
    PadProperties(ms, 13);
    PadProperties(q, 10);
    hide Pad, Digits, Value;
    PartsOf("evt-", Pad(ms, 13), "-", Pad(q, 10), ".json");
  }

  lemma PartsOf(a: string, b: string, c: string, d: string, e: string)
    requires |a| == 4 && |b| == 13 && |c| == 1 && |d| == 10 && |e| == 5
    ensures var t := a + (b + (c + (d + e)));
      |t| == 33 && t[..4] == a && t[4..17] == b && t[17..18] == c && t[18..28] == d && t[28..] == e
  {
  }

  lemma AssembleOrder(m: string, m': string, s: string, s': string)
    requires |m| == |m'| && |s| == |s'|
    ensures Less(Assemble(m, s), Assemble(m', s')) <==> Less(m, m') || (m == m' && Less(s, s'))
  {
    LessIrreflexive(PREFIX);
    LessIrreflexive("-");
    LessIrreflexive(EXT);
    hide Less;
    LessConcat(PREFIX, PREFIX, m + ("-" + (s + EXT)), m' + ("-" + (s' + EXT)));
    LessConcat(m, m', "-" + (s + EXT), "-" + (s' + EXT));
    LessConcat("-", "-", s + EXT, s' + EXT);
    LessConcat(s, s', EXT, EXT);
  }

  // Up to the year 2286 and ten digits of sequence, the order of the names is the
  // order of creation: by millisecond, then by sequence number.
  lemma NameOrderIsCreationOrder(ms: nat, q: nat, ms': nat, q': nat)
    requires ms < 10_000_000_000_000 && ms' < 10_000_000_000_000
    requires q < 10_000_000_000 && q' < 10_000_000_000
    ensures Less(FileName(ms, q), FileName(ms', q')) <==> ms < ms' || (ms == ms' && q < q')
  {
    FixedWidth();
    PadProperties(ms, 13);
    PadProperties(ms', 13);
    PadProperties(q, 10);
    PadProperties(q', 10);
    hide Pad, Less, Value, Digits, Assemble;
    SameLengthOrder(Pad(ms, 13), Pad(ms', 13));
    SameLengthOrder(Pad(q, 10), Pad(q', 10));
    AssembleOrder(Pad(ms, 13), Pad(ms', 13), Pad(q, 10), Pad(q', 10));
  }

  lemma LeadingDigitDecides(x: string, y: string, s: string)
    ensures Less(Assemble("1" + x, s), Assemble("9" + y, s))
  {
    var rest := "-" + (s + EXT);
    LessIrreflexive(PREFIX);
    assert Less("1", "9");
    hide Less;
    assert ("1" + x) + rest == "1" + (x + rest) && ("9" + y) + rest == "9" + (y + rest);
    LessConcat(PREFIX, PREFIX, ("1" + x) + rest, ("9" + y) + rest);
    LessConcat("1", "9", x + rest, y + rest);
  }

  lemma {:induction false} AroundPowerOfTen(k: nat)
    requires k >= 1
    ensures Pow10(k) >= 10
    ensures |Decimal(Pow10(k))| == k + 1 && Decimal(Pow10(k))[0] == '1'
    ensures |Decimal(Pow10(k) - 1)| == k && Decimal(Pow10(k) - 1)[0] == '9'
  {
    if k > 1 {
      AroundPowerOfTen(k - 1);
      assert Pow10(k) / 10 == Pow10(k - 1) && (Pow10(k) - 1) / 10 == Pow10(k - 1) - 1;
    } else {
      assert Pow10(1) == 10 * Pow10(0) == 10;
      assert Decimal(10) == Decimal(1) + [Digit(0)];
    }
  }

  // The width is what keeps the order: the first name with a longer millisecond
  // sorts before the last one that fits.
  lemma NameOrderFailsBeyondWidth(q: nat)
    ensures Less(FileName(10_000_000_000_000, q), FileName(9_999_999_999_999, q))
  {
    FixedWidth();
    AroundPowerOfTen(13);
    var big, last := Pad(10_000_000_000_000, 13), Pad(9_999_999_999_999, 13);
    hide Less, Assemble, Pad;
    assert big == "1" + big[1..] && last == "9" + last[1..];
    LeadingDigitDecides(big[1..], last[1..], Pad(q, 10));
  }

  // No two (millisecond, sequence) pairs share a name, whatever their size.
  lemma FileNameInjective(ms: nat, q: nat, ms': nat, q': nat)
    requires FileName(ms, q) == FileName(ms', q')
    ensures ms == ms' && q == q'
  {
    PadProperties(ms, 13);
    PadProperties(ms', 13);
    PadProperties(q, 10);
    PadProperties(q', 10);
    hide Pad, Value;
    AssembleInjective(Pad(ms, 13), Pad(ms', 13), Pad(q, 10), Pad(q', 10));
  }

  lemma AssembleInjective(m: string, m': string, s: string, s': string)
    requires Digits(m) && Digits(m') && Assemble(m, s) == Assemble(m', s')
    ensures m == m' && s == s'
  {
    var x, x' := m + ("-" + (s + EXT)), m' + ("-" + (s' + EXT));
    assert (PREFIX + x)[|PREFIX|..] == x && (PREFIX + x')[|PREFIX|..] == x';
    SplitAtDash(m, m', s + EXT, s' + EXT);
    assert |s| == |s'| && (s + EXT)[..|s|] == s && (s' + EXT)[..|s'|] == s';
  }

  lemma SplitAtDash(m: string, m': string, x: string, y: string)
    requires Digits(m) && Digits(m') && m + ("-" + x) == m' + ("-" + y)
    ensures m == m' && x == y
  {
    var l, r := m + ("-" + x), m' + ("-" + y);
    assert l[|m|] == '-' && r[|m'|] == '-';
    assert forall i :: 0 <= i < |m| ==> l[i] == m[i];
    assert forall i :: 0 <= i < |m'| ==> r[i] == m'[i];
    assert l[..|m|] == m && r[..|m'|] == m';
    assert l[|m| + 1..] == x && r[|m'| + 1..] == y;
  }
}
