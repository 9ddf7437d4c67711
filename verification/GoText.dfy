/**
 * The parts of Go's strings and unicode packages that the SDK's text code uses.
 */
module GoText {

  predicate IsDigit(c: char) {
    '0' <= c <= '9'
  }

  // unicode.IsSpace
  predicate IsSpace(r: int) {
    || 9 <= r <= 13 || r == 0x20 || r == 0x85 || r == 0xA0 || r == 0x1680
    || 0x2000 <= r <= 0x200A || r == 0x2028 || r == 0x2029 || r == 0x202F || r == 0x205F || r == 0x3000
  }

  // Within ASCII the spaces are tab, line feed, vertical tab, form feed, carriage return
  // and the space; of the rest of Latin-1, next line and the no-break space.
  lemma SpacesAre(c: char)
    ensures c as int < 0x80 ==> (IsSpace(c as int) <==> c == ' ' || '\t' <= c <= '\r')
    ensures 0x80 <= c as int < 0x100 ==> (IsSpace(c as int) <==> c as int == 0x85 || c as int == 0xA0)
  {
  }

  // ---------------------------------------------------------------- lower case

  // The lower case of a rune, as far as a comparison with ASCII text can tell: outside
  // ASCII only the Kelvin sign and the dotted capital I have a lower case inside ASCII.
  function LowerRune(c: char): char {
    if 'A' <= c <= 'Z' then (c as int + 32) as char
    else if c as int == 0x212A then 'k'
    else if c as int == 0x130 then 'i'
    else c
  }

  // A capital becomes the letter at the same place of the alphabet; the rest of ASCII stays.
  lemma LowersAre(c: char)
    ensures 'A' <= c <= 'Z' ==> LowerRune(c) as int - 'a' as int == c as int - 'A' as int
    ensures c as int < 0x80 && !('A' <= c <= 'Z') ==> LowerRune(c) == c
  {
  }

  // strings.ToLower
  function Lower(s: string): string {
    if s == [] then [] else [LowerRune(s[0])] + Lower(s[1..])
  }

  lemma {:induction false} LowerAppend(a: string, b: string)
    ensures Lower(a + b) == Lower(a) + Lower(b)
  {
    if a == [] {
      assert a + b == b;
    } else {
      assert (a + b)[1..] == a[1..] + b;
      LowerAppend(a[1..], b);
    }
  }

  lemma {:induction false} LowerAt(s: string)
    ensures |Lower(s)| == |s| && forall i :: 0 <= i < |s| ==> Lower(s)[i] == LowerRune(s[i])
  {
    if s != [] {
      LowerAt(s[1..]);
    }
  }

  // ---------------------------------------------------------------- trimming

  function TrimLeft(s: string): string {
    if s != [] && IsSpace(s[0] as int) then TrimLeft(s[1..]) else s
  }

  function TrimRight(s: string): string {
    if s != [] && IsSpace(s[|s| - 1] as int) then TrimRight(s[..|s| - 1]) else s
  }

  // strings.TrimSpace
  function TrimSpace(s: string): string {
    TrimRight(TrimLeft(s))
  }

  predicate Trimmed(s: string) {
    s == [] || (!IsSpace(s[0] as int) && !IsSpace(s[|s| - 1] as int))
  }

  lemma {:induction false} TrimLeftPart(s: string)
    ensures |TrimLeft(s)| <= |s| && TrimLeft(s) == s[|s| - |TrimLeft(s)|..]
    ensures TrimLeft(s) != [] ==> !IsSpace(TrimLeft(s)[0] as int)
  {
    if s != [] && IsSpace(s[0] as int) {
      TrimLeftPart(s[1..]);
    }
  }

  lemma {:induction false} TrimRightPart(s: string)
    ensures |TrimRight(s)| <= |s| && TrimRight(s) == s[..|TrimRight(s)|]
    ensures TrimRight(s) != [] ==> !IsSpace(TrimRight(s)[|TrimRight(s)| - 1] as int)
  {
    if s != [] && IsSpace(s[|s| - 1] as int) {
      TrimRightPart(s[..|s| - 1]);
    }
  }

  // What is left is trimmed and is a part of the text.
  lemma TrimIsTrimmed(s: string)
    ensures Trimmed(TrimSpace(s))
    ensures forall c <- TrimSpace(s) :: c in s
    ensures |TrimSpace(s)| <= |s|
  {
    TrimLeftPart(s);
    TrimRightPart(TrimLeft(s));
  }

  // Trimming cuts spaces off both ends, and nothing else.
  lemma {:induction false} TrimLeftCuts(s: string) returns (a: string)
    ensures s == a + TrimLeft(s) && forall c <- a :: IsSpace(c as int)
  {
    if s != [] && IsSpace(s[0] as int) {
      var rest := TrimLeftCuts(s[1..]);
      a := [s[0]] + rest;
    } else {
      a := [];
    }
  }

  lemma {:induction false} TrimRightCuts(s: string) returns (b: string)
    ensures s == TrimRight(s) + b && forall c <- b :: IsSpace(c as int)
  {
    if s != [] && IsSpace(s[|s| - 1] as int) {
      var rest := TrimRightCuts(s[..|s| - 1]);
      b := rest + [s[|s| - 1]];
    } else {
      b := [];
    }
  }

  lemma TrimSpaceCuts(s: string) returns (a: string, b: string)
    ensures s == a + TrimSpace(s) + b && Trimmed(TrimSpace(s))
    ensures forall c <- a + b :: IsSpace(c as int)
  {
    a := TrimLeftCuts(s);
    b := TrimRightCuts(TrimLeft(s));
    TrimIsTrimmed(s);
  }

  lemma TrimKeeps(s: string)
    requires Trimmed(s)
    ensures TrimSpace(s) == s
  {
  }

  lemma {:induction false} TrimRightKeepsFront(a: string, b: string)
    requires a != [] && !IsSpace(a[|a| - 1] as int)
    ensures a <= TrimRight(a + b)
  {
    if b == [] {
      assert a + b == a;
    } else {
      assert (a + b)[..|a + b| - 1] == a + b[..|b| - 1];
      TrimRightKeepsFront(a, b[..|b| - 1]);
    }
  }

  // ---------------------------------------------------------------- split and join

  // strings.Split with a separator of one rune
  function Split(s: string, sep: char): (parts: seq<string>)
    ensures parts != []
  {
    if s == [] then [""]
    else
      var rest := Split(s[1..], sep);
      if s[0] == sep then [""] + rest else [[s[0]] + rest[0]] + rest[1..]
  }

  // strings.Join
  function Join(parts: seq<string>, sep: char): string {
    if parts == [] then ""
    else if |parts| == 1 then parts[0]
    else parts[0] + [sep] + Join(parts[1..], sep)
  }

  predicate Free(parts: seq<string>, sep: char) {
    forall p <- parts :: sep !in p
  }

  lemma {:induction false} SplitIsFree(s: string, sep: char)
    ensures Free(Split(s, sep), sep)
    ensures forall p <- Split(s, sep), c <- p :: c in s
  {
    if s != [] {
      SplitIsFree(s[1..], sep);
      var rest := Split(s[1..], sep);
      forall p <- Split(s, sep)
        ensures sep !in p && forall c <- p :: c in s
      {
        if p !in rest {
          assert p == "" || p == [s[0]] + rest[0];
        }
      }
    }
  }

  lemma {:induction false} JoinOfSplit(s: string, sep: char)
    ensures Join(Split(s, sep), sep) == s
  {
    if s != [] {
      JoinOfSplit(s[1..], sep);
      var rest := Split(s[1..], sep);
      if s[0] == sep {
        assert ([""] + rest)[1..] == rest;
      } else {
        assert ([[s[0]] + rest[0]] + rest[1..])[1..] == rest[1..];
      }
    }
  }

  // The text in front of the first separator, if it has none itself, joins the first piece.
  lemma {:induction false} SplitFront(a: string, b: string, sep: char)
    requires sep !in a
    ensures Split(a + b, sep) == [a + Split(b, sep)[0]] + Split(b, sep)[1..]
  {
    if a == [] {
      assert a + b == b && a + Split(b, sep)[0] == Split(b, sep)[0];
    } else {
      assert (a + b)[1..] == a[1..] + b;
      SplitFront(a[1..], b, sep);
      assert [a[0]] + (a[1..] + Split(b, sep)[0]) == a + Split(b, sep)[0];
    }
  }

  lemma {:induction false} SplitAtSeparator(a: string, b: string, sep: char)
    ensures Split(a + [sep] + b, sep) == Split(a, sep) + Split(b, sep)
  {
    if a == [] {
      assert (a + [sep] + b)[1..] == b;
    } else {
      assert (a + [sep] + b)[1..] == a[1..] + [sep] + b;
      SplitAtSeparator(a[1..], b, sep);
    }
  }

  // The pieces of a joined text are the pieces of its parts.
  function Pieces(parts: seq<string>, sep: char): seq<string> {
    if parts == [] then [] else Split(parts[0], sep) + Pieces(parts[1..], sep)
  }

  lemma {:induction false} SplitOfJoin(parts: seq<string>, sep: char)
    requires parts != []
    ensures Split(Join(parts, sep), sep) == Pieces(parts, sep)
  {
    if |parts| > 1 {
      SplitAtSeparator(parts[0], Join(parts[1..], sep), sep);
      SplitOfJoin(parts[1..], sep);
    }
  }

  lemma {:induction false} PiecesOfFree(parts: seq<string>, sep: char)
    requires Free(parts, sep)
    ensures Pieces(parts, sep) == parts
  {
    if parts != [] {
      SplitFront(parts[0], "", sep);
      assert parts[0] + "" == parts[0];
      PiecesOfFree(parts[1..], sep);
    }
  }

  lemma SplitUndoesJoin(parts: seq<string>, sep: char)
    requires parts != [] && Free(parts, sep)
    ensures Split(Join(parts, sep), sep) == parts
  {
    SplitOfJoin(parts, sep);
    PiecesOfFree(parts, sep);
  }
}
