/**
 * NormalizeSQL. The scanner of the program looks one rune ahead; here it is proved
 * equal to a transducer that reads one rune at a time and never looks ahead, and
 * the theorems are proved of the transducer.
 */
module SqlNormalize {
  import opened GoText

  // ---------------------------------------------------------------- runes

  // The last byte of the UTF-8 encoding of r.
  function LastByte(r: char): int {
    if r as int < 0x80 then r as int else 0x80 + r as int % 64
  }

  predicate IsBoundary(b: int) {
    IsSpace(b) || b in {'(' as int, ',' as int, '=' as int, '<' as int, '>' as int, '+' as int, '-' as int,
                        '*' as int, '/' as int}
  }

  // A digit written now would start a number rather than continue a name.
  predicate AtBoundary(out: string) {
    out == [] || IsBoundary(LastByte(out[|out| - 1]))
  }

  // strings.TrimRight(out, " ")
  function TrimSpaces(out: string): string {
    if out != [] && out[|out| - 1] == ' ' then TrimSpaces(out[..|out| - 1]) else out
  }

  // ---------------------------------------------------------------- the transducer

  // Dash and Slash: a '-' or '/' that may open a comment has been read but not
  // written. StringEnd: a quote inside a string that may be the first of two.
  datatype Mode =
    | Code | Dash | Slash | Number
    | InString | StringEnd
    | InIdentifier
    | LineComment | BlockComment | BlockStar

  datatype Scan = Scan(mode: Mode, space: bool, out: string)

  const START := Scan(Code, true, [])

  // Write a pending '-' or '/'.
  function Settle(s: Scan): Scan {
    match s.mode
    case Dash => Scan(Code, false, s.out + ['-'])
    case Slash => Scan(Code, false, s.out + ['/'])
    case _ => s
  }

  // One rune at a code position.
  function FeedCode(space: bool, out: string, r: char): Scan {
    if r == '-' then Scan(Dash, space, out)
    else if r == '/' then Scan(Slash, space, out)
    else if r == '\'' then Scan(InString, false, out + ['?'])
    else if r == '"' then Scan(InIdentifier, false, out + [r])
    else if IsDigit(r) && AtBoundary(out) then Scan(Number, false, out + ['?'])
    else if IsSpace(r as int) then (if space then Scan(Code, true, out) else Scan(Code, true, out + [' ']))
    else Scan(Code, false, out + [r])
  }

  function Feed(s: Scan, r: char): Scan {
    match s.mode
    case Code => FeedCode(s.space, s.out, r)
    case Dash => if r == '-' then Scan(LineComment, s.space, s.out) else FeedCode(false, s.out + ['-'], r)
    case Slash => if r == '*' then Scan(BlockComment, s.space, s.out) else FeedCode(false, s.out + ['/'], r)
    case Number => if IsDigit(r) || r == '.' then s else FeedCode(s.space, s.out, r)
    case InString => if r == '\'' then s.(mode := StringEnd) else s
    case StringEnd => if r == '\'' then s.(mode := InString) else FeedCode(s.space, s.out, r)
    case InIdentifier =>
      if r == '"' then Scan(Code, false, s.out + [r]) else s.(out := s.out + [r])
    case LineComment => if r == '\n' then s.(mode := Code) else s
    case BlockComment => if r == '*' then s.(mode := BlockStar) else s
    case BlockStar => if r == '/' then s.(mode := Code) else if r == '*' then s else s.(mode := BlockComment)
  }

  function Run(s: Scan, sql: string): Scan
    decreases sql
  {
    if sql == [] then s else Run(Feed(s, sql[0]), sql[1..])
  }

  function Finish(s: Scan): string {
    TrimSpaces(Settle(s).out)
  }

  function Normalize(sql: string): string {
    Finish(Run(START, sql))
  }

  lemma {:induction false} RunAppend(s: Scan, a: string, b: string)
    ensures Run(s, a + b) == Run(Run(s, a), b)
    decreases a
  {
    if a == [] {
      assert a + b == b;
    } else {
      assert (a + b)[0] == a[0] && (a + b)[1..] == a[1..] + b;
      RunAppend(Feed(s, a[0]), a[1..], b);
    }
  }

  lemma RunOne(s: Scan, a: string, r: char)
    ensures Run(s, a + [r]) == Feed(Run(s, a), r)
  {
    RunAppend(s, a, [r]);
    assert [r][1..] == [];
  }

  // ---------------------------------------------------------------- the code

  // Two scans that treat the next rune alike, and end alike if there is none.
  lemma SameFromHere(s: Scan, s': Scan, rest: string)
    requires Finish(s) == Finish(s')
    requires rest != [] ==> Feed(s, rest[0]) == Feed(s', rest[0])
    ensures Finish(Run(s, rest)) == Finish(Run(s', rest))
  {
  }

  function ModeOf(inSingle: bool, inDouble: bool, inLineComment: bool, inBlockComment: bool): Mode {
    if inLineComment then LineComment else if inBlockComment then BlockComment
    else if inSingle then InString else if inDouble then InIdentifier else Code
  }

  // A star inside a block comment that does not close it changes nothing.
  lemma StarAlone(space: bool, out: string, rest: string)
    requires rest != [] ==> rest[0] != '/'
    ensures Finish(Run(Scan(BlockStar, space, out), rest)) == Finish(Run(Scan(BlockComment, space, out), rest))
  {
    SameFromHere(Scan(BlockStar, space, out), Scan(BlockComment, space, out), rest);
  }

  lemma PendingSettles(s: Scan, rest: string)
    requires s.mode == Dash || s.mode == Slash
    requires rest != [] ==> rest[0] != (if s.mode == Dash then '-' else '*')
    ensures Finish(Run(s, rest)) == Finish(Run(Settle(s), rest))
  {
    SameFromHere(s, Settle(s), rest);
  }

  lemma StringEnds(space: bool, out: string, rest: string)
    requires rest != [] ==> rest[0] != '\''
    ensures Finish(Run(Scan(StringEnd, space, out), rest)) == Finish(Run(Scan(Code, space, out), rest))
  {
    SameFromHere(Scan(StringEnd, space, out), Scan(Code, space, out), rest);
  }

  lemma NumberEnds(space: bool, out: string, rest: string)
    requires rest != [] ==> !IsDigit(rest[0]) && rest[0] != '.'
    ensures Finish(Run(Scan(Number, space, out), rest)) == Finish(Run(Scan(Code, space, out), rest))
  {
    SameFromHere(Scan(Number, space, out), Scan(Code, space, out), rest);
  }

  // What is still to be normalized from index i on, the scanner being in state s.
  function Rest(s: Scan, runes: string, i: nat): string
    requires i <= |runes|
  {
    Finish(Run(s, runes[i..]))
  }

  lemma Advance(s: Scan, runes: string, i: nat)
    requires i < |runes|
    ensures Rest(s, runes, i) == Rest(Feed(s, runes[i]), runes, i + 1)
    ensures i + 1 < |runes| ==> Rest(s, runes, i) == Rest(Feed(Feed(s, runes[i]), runes[i + 1]), runes, i + 2)
  {
    assert runes[i..][1..] == runes[i + 1..];
    if i + 1 < |runes| {
      assert runes[i + 1..][1..] == runes[i + 2..];
    }
  }

  method NormalizeSQL(runes: string) returns (out: string)
    ensures out == Normalize(runes)
  {
    var b: string := "";
    var inSingle, inDouble, inLineComment, inBlockComment := false, false, false, false;
    var lastWasSpace := true;
    var i := 0;
    assert runes[0..] == runes;
    while i < |runes|
      invariant 0 <= i <= |runes|
      invariant !(inSingle && inDouble) && (inLineComment || inBlockComment ==> !inSingle && !inDouble)
      invariant !(inLineComment && inBlockComment)
      invariant Rest(Scan(ModeOf(inSingle, inDouble, inLineComment, inBlockComment), lastWasSpace, b), runes, i)
             == Normalize(runes)
      decreases |runes| - i
    {
      var r := runes[i];
      ghost var s := Scan(ModeOf(inSingle, inDouble, inLineComment, inBlockComment), lastWasSpace, b);
      Advance(s, runes, i);
      hide Run, Finish, IsSpace, IsBoundary;
      if inLineComment {
        if r == '\n' {
          inLineComment := false;
        }
        i := i + 1;
        continue;
      }
      if inBlockComment {
        if r == '*' && i + 1 < |runes| && runes[i + 1] == '/' {
          inBlockComment := false;
          i := i + 1;
        } else if r == '*' {
          StarAlone(lastWasSpace, b, runes[i + 1..]);
        }
        i := i + 1;
        continue;
      }
      if !inSingle && !inDouble {
        if r == '-' && i + 1 < |runes| && runes[i + 1] == '-' {
          inLineComment := true;
          i := i + 2;
          continue;
        }
        if r == '/' && i + 1 < |runes| && runes[i + 1] == '*' {
          inBlockComment := true;
          i := i + 2;
          continue;
        }
        if r == '-' || r == '/' {
          PendingSettles(Feed(s, r), runes[i + 1..]);
        }
      }
      if r == '\'' && !inDouble {
        if inSingle {
          if i + 1 < |runes| && runes[i + 1] == '\'' {
            i := i + 2;
            continue;
          }
          inSingle := false;
          StringEnds(lastWasSpace, b, runes[i + 1..]);
        } else {
          inSingle := true;
          b := b + "?";
          lastWasSpace := false;
        }
        i := i + 1;
        continue;
      }
      if inSingle {
        i := i + 1;
        continue;
      }
      if r == '"' {
        inDouble := !inDouble;
        b := b + [r];
        lastWasSpace := false;
        i := i + 1;
        continue;
      }
      if inDouble {
        b := b + [r];
        i := i + 1;
        continue;
      }
      if IsDigit(r) && AtBoundary(b) {
        i := ConsumeNumber(runes, i, b);
        b := b + "?";
        lastWasSpace := false;
        continue;
      }
      if IsSpace(r as int) {
        if !lastWasSpace {
          b := b + " ";
          lastWasSpace := true;
        }
        i := i + 1;
        continue;
      }
      b := b + [r];
      lastWasSpace := false;
      i := i + 1;
    }
    out := TrimSpaces(b);
    assert runes[i..] == [];
  }

  // The inner loop: skip the digits and dots that start at index i.
  method ConsumeNumber(runes: string, i: nat, ghost b: string) returns (j: nat)
    requires i < |runes| && IsDigit(runes[i])
    ensures i < j <= |runes|
    ensures Rest(Scan(Number, false, b + "?"), runes, i + 1) == Rest(Scan(Code, false, b + "?"), runes, j)
  {
    j := i;
    while j < |runes| && (IsDigit(runes[j]) || runes[j] == '.')
      invariant i <= j <= |runes|
      invariant j > i ==>
        Rest(Scan(Number, false, b + "?"), runes, i + 1) == Rest(Scan(Number, false, b + "?"), runes, j)
      decreases |runes| - j
    {
      Advance(Scan(Number, false, b + "?"), runes, j);
      j := j + 1;
    }
    NumberEnds(false, b + "?", runes[j..]);
  }
}
