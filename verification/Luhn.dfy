/**
 * The Luhn check that decides whether a run of digits is redacted as a card number
 * (Annex B of ISO/IEC 7812-1).
 */
module Luhn {
  import opened GoText

  type Digit = d: int | 0 <= d <= 9

  const MIN_DIGITS := 13

  // The digits of a text, everything else ignored.
  function Digits(s: string): seq<Digit> {
    if s == [] then []
    else
      var front := Digits(s[..|s| - 1]);
      var c := s[|s| - 1];
      if IsDigit(c) then front + [c as int - '0' as int] else front
  }

  // The sum of the decimal digits of 2 * d.
  function Twice(d: Digit): Digit {
    if 2 * d > 9 then 2 * d - 9 else 2 * d
  }

  // What a digit contributes, p places from the right: every second one is doubled.
  function Weigh(d: Digit, p: nat): Digit {
    if p % 2 == 1 then Twice(d) else d
  }

  // The checksum of the digits, p more of them standing to their right.
  function Checksum(ds: seq<Digit>, p: nat): nat {
    if ds == [] then 0 else Weigh(ds[0], p + |ds| - 1) + Checksum(ds[1..], p)
  }

  predicate Valid(ds: seq<Digit>) {
    |ds| >= MIN_DIGITS && Checksum(ds, 0) % 10 == 0
  }

  // ---------------------------------------------------------------- place by place

  // The sum over the n rightmost places, the rightmost being place 0: at odd places the
  // two decimal digits of twice the digit, at even places the digit.
  function PlaceSum(ds: seq<Digit>, n: nat): nat
    requires n <= |ds|
  {
    if n == 0 then 0
    else
      var d: int := ds[|ds| - n];
      PlaceSum(ds, n - 1) + (if (n - 1) % 2 == 1 then 2 * d / 10 + 2 * d % 10 else d)
  }

  lemma TwiceIsDigitSum(d: Digit)
    ensures Twice(d) == 2 * d / 10 + 2 * d % 10
  {
  }

  lemma {:induction false} PlaceSumShifts(ds: seq<Digit>, n: nat)
    requires ds != [] && n <= |ds| - 1
    ensures PlaceSum(ds[1..], n) == PlaceSum(ds, n)
  {
    if n > 0 {
      PlaceSumShifts(ds, n - 1);
      assert ds[1..][|ds| - 1 - n] == ds[|ds| - n];
    }
  }

  lemma {:induction false} ChecksumIsPlaceSum(ds: seq<Digit>)
    ensures Checksum(ds, 0) == PlaceSum(ds, |ds|)
  {
    if ds != [] {
      ChecksumIsPlaceSum(ds[1..]);
      PlaceSumShifts(ds, |ds| - 1);
      TwiceIsDigitSum(ds[0]);
    }
  }

  // The digits of a text, read from its end.
  lemma DigitsRead(s: string, c: char)
    ensures Digits("") == []
    ensures '0' <= c <= '9' ==> Digits(s + [c]) == Digits(s) + [c as int - '0' as int]
    ensures c < '0' || c > '9' ==> Digits(s + [c]) == Digits(s)
  {
    assert (s + [c])[..|s|] == s;
  }

  // ---------------------------------------------------------------- the loop

  lemma {:induction false} LastDigit(ds: seq<Digit>, d: Digit, p: nat)
    ensures Checksum(ds + [d], p) == Checksum(ds, p + 1) + Weigh(d, p)
  {
    if ds == [] {
      assert (ds + [d])[1..] == [];
    } else {
      assert (ds + [d])[1..] == ds[1..] + [d];
      LastDigit(ds[1..], d, p);
    }
  }

  lemma {:induction false} SameParity(ds: seq<Digit>, p: nat, q: nat)
    requires p % 2 == q % 2
    ensures Checksum(ds, p) == Checksum(ds, q)
  {
    if ds != [] {
      SameParity(ds[1..], p, q);
    }
  }

  method LuhnValid(s: string) returns (ok: bool)
    ensures ok <==> Valid(Digits(s))
    ensures ok <==> |Digits(s)| >= 13 && PlaceSum(Digits(s), |Digits(s)|) % 10 == 0
  {
    ChecksumIsPlaceSum(Digits(s));
    var sum, alt, digits := 0, false, 0;
    var i := |s| - 1;
    assert s[..|s|] == s;
    while i >= 0
      invariant -1 <= i < |s|
      invariant digits + |Digits(s[..i + 1])| == |Digits(s)|
      invariant sum + Checksum(Digits(s[..i + 1]), if alt then 1 else 0) == Checksum(Digits(s), 0)
      decreases i
    {
      var ch := s[i];
      assert s[..i + 1][..i] == s[..i];
      if !IsDigit(ch) {
        i := i - 1;
        continue;
      }
      var d := ch as int - '0' as int;
      digits := digits + 1;
      LastDigit(Digits(s[..i]), d, if alt then 1 else 0);
      if alt {
        SameParity(Digits(s[..i]), 2, 0);
        d := d * 2;
        if d > 9 {
          d := d - 9;
        }
      }
      sum := sum + d;
      alt := !alt;
      i := i - 1;
    }
    if digits < MIN_DIGITS {
      return false;
    }
    return sum % 10 == 0;
  }

  // ---------------------------------------------------------------- separators

  lemma {:induction false} DigitsAppend(a: string, b: string)
    ensures Digits(a + b) == Digits(a) + Digits(b)
  {
    if b == [] {
      assert a + b == a;
    } else {
      assert (a + b)[..|a + b| - 1] == a + b[..|b| - 1];
      DigitsAppend(a, b[..|b| - 1]);
    }
  }

  lemma {:induction false} NoDigits(s: string)
    requires forall c <- s :: !IsDigit(c)
    ensures Digits(s) == []
  {
    if s != [] {
      NoDigits(s[..|s| - 1]);
    }
  }

  // Characters other than digits may be added or removed anywhere.
  lemma SeparatorsDoNotMatter(a: string, sep: string, b: string)
    requires forall c <- sep :: !IsDigit(c)
    ensures Valid(Digits(a + sep + b)) <==> Valid(Digits(a + b))
  {
    DigitsAppend(a + sep, b);
    DigitsAppend(a, sep);
    DigitsAppend(a, b);
    NoDigits(sep);
    assert Digits(a) + [] == Digits(a);
  }

  // ---------------------------------------------------------------- errors detected

  lemma {:induction false} ChangeOne(ds: seq<Digit>, k: nat, d: Digit, p: nat)
    requires k < |ds|
    ensures Checksum(ds[k := d], p) - Checksum(ds, p)
         == Weigh(d, p + |ds| - 1 - k) - Weigh(ds[k], p + |ds| - 1 - k)
  {
    if k == 0 {
      assert ds[k := d][1..] == ds[1..];
    } else {
      assert ds[k := d][1..] == ds[1..][k - 1 := d];
      ChangeOne(ds[1..], k - 1, d, p);
    }
  }

  // Two checksums at most a digit apart agree modulo ten only if they are equal.
  lemma SmallDifference(a: int, b: int)
    requires a % 10 == 0 && -9 <= b - a <= 9
    ensures b % 10 == 0 <==> a == b
  {
  }

  // Any single wrong digit is detected.
  lemma SingleErrorDetected(ds: seq<Digit>, k: nat, d: Digit)
    requires Valid(ds) && k < |ds| && d != ds[k]
    ensures !Valid(ds[k := d])
  {
    ChangeOne(ds, k, d, 0);
    SmallDifference(Checksum(ds, 0), Checksum(ds[k := d], 0));
  }

  // The same at the level of the text in which the digit stands.
  lemma WrongCharacterDetected(a: string, c: char, d: char, b: string)
    requires IsDigit(c) && IsDigit(d) && c != d
    requires Valid(Digits(a + [c] + b))
    ensures !Valid(Digits(a + [d] + b))
  {
    DigitsAppend(a + [c], b);
    DigitsAppend(a + [d], b);
    var ds, k := Digits(a + [c] + b), |Digits(a)|;
    assert (a + [c])[..|a|] == a && (a + [d])[..|a|] == a;
    assert Digits(a + [d] + b) == ds[k := d as int - '0' as int];
    SingleErrorDetected(ds, k, d as int - '0' as int);
  }

  function Swapped(ds: seq<Digit>, k: nat): seq<Digit>
    requires k + 1 < |ds|
  {
    ds[k := ds[k + 1]][k + 1 := ds[k]]
  }

  // What exchanging a with its right neighbour b, p places from the right, adds.
  function SwapEffect(a: Digit, b: Digit, p: nat): int {
    Weigh(b, p + 1) - Weigh(a, p + 1) + Weigh(a, p) - Weigh(b, p)
  }

  lemma SwapChanges(ds: seq<Digit>, k: nat)
    requires k + 1 < |ds|
    ensures Checksum(Swapped(ds, k), 0) == Checksum(ds, 0) + SwapEffect(ds[k], ds[k + 1], |ds| - 2 - k)
  {
    hide Weigh, Checksum;
    var half := ds[k := ds[k + 1]];
    ChangeOne(ds, k, ds[k + 1], 0);
    ChangeOne(half, k + 1, ds[k], 0);
    assert |half| == |ds| && half[k + 1] == ds[k + 1] && |ds| - 1 - k == |ds| - 2 - k + 1;
  }

  lemma SwapVanishes(a: Digit, b: Digit, p: nat)
    ensures SwapEffect(a, b, p) % 10 == 0 <==> a == b || (a == 0 && b == 9) || (a == 9 && b == 0)
  {
    assert (p + 1) % 2 == 1 - p % 2;
    var x, y := Twice(a) - a, Twice(b) - b;
    assert SwapEffect(a, b, p) == if p % 2 == 1 then x - y else y - x;
    assert -4 <= x <= 4 && -4 <= y <= 4;
  }

  // Exchanging two neighbours is detected, except for equal digits and for 0 with 9.
  lemma SwapDetectedExactlyWhen(ds: seq<Digit>, k: nat)
    requires Valid(ds) && k + 1 < |ds|
    ensures Valid(Swapped(ds, k)) <==>
        ds[k] == ds[k + 1] || (ds[k] == 0 && ds[k + 1] == 9) || (ds[k] == 9 && ds[k + 1] == 0)
  {
    hide Weigh, Checksum, SwapEffect;
    SwapChanges(ds, k);
    SwapVanishes(ds[k], ds[k + 1], |ds| - 2 - k);
    var c, e := Checksum(ds, 0), SwapEffect(ds[k], ds[k + 1], |ds| - 2 - k);
    assert (c + e) % 10 == 0 <==> e % 10 == 0;
  }

  // ---------------------------------------------------------------- check digit

  function CheckDigit(payload: seq<Digit>): Digit {
    (10 - Checksum(payload, 1) % 10) % 10
  }

  lemma TenComplement(r: nat, d: Digit)
    requires r < 10
    ensures (r + d) % 10 == 0 <==> d == (10 - r) % 10
  {
  }

  lemma SumModuloTen(c: nat, d: Digit)
    ensures (c + d) % 10 == (c % 10 + d) % 10
  {
  }

  // Exactly one last digit makes a number of at least thirteen digits valid.
  lemma CheckDigitIsUnique(payload: seq<Digit>, d: Digit)
    requires |payload| >= MIN_DIGITS - 1
    ensures Valid(payload + [d]) <==> d == CheckDigit(payload)
  {
    LastDigit(payload, d, 0);
    hide Checksum;
    SumModuloTen(Checksum(payload, 1), d);
    TenComplement(Checksum(payload, 1) % 10, d);
  }
}
