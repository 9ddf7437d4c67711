/**
 * What NormalizeSQL is for: statements that differ only in their literals
 * normalize to the same text, and normalizing twice changes nothing unless the
 * first output happens to open a comment.
 */
module SqlTheorems {
  import opened GoText
  import opened SqlNormalize

  // ---------------------------------------------------------------- comments

  predicate InComment(m: Mode) {
    m == LineComment || m == BlockComment || m == BlockStar
  }

  // The scanner is inside a comment after some prefix of the statement.
  predicate EntersComment(sql: string) {
    sql != [] && (InComment(Run(START, sql).mode) || EntersComment(sql[..|sql| - 1]))
  }

  lemma EntersAppend(a: string, r: char)
    ensures EntersComment(a + [r]) <==> EntersComment(a) || InComment(Run(START, a + [r]).mode)
  {
    assert (a + [r])[..|a|] == a;
  }

  lemma {:induction false} InCommentEntered(a: string)
    requires InComment(Run(START, a).mode)
    ensures EntersComment(a)
  {
  }

  // ---------------------------------------------------------------- scanning the output

  predicate Pending(m: Mode) {
    m == Dash || m == Slash
  }

  // What scanning the output so far must look like, given the scan that wrote it.
  function View(s: Scan): Scan {
    s.(mode := if s.mode == InIdentifier then InIdentifier else Code)
  }

  // Scanning the text again writes it out as it is, and meets no literal.
  ghost predicate Echoed(text: string) {
    var again := Settle(Run(START, text));
    again.out == text && (again.mode == Code || again.mode == InIdentifier)
  }

  ghost predicate Stable(text: string) {
    forall k :: 0 <= k <= |text| ==> Echoed(text[..k])
  }

  ghost predicate Echoes(s: Scan) {
    !EntersComment(s.out) ==> Settle(Run(START, s.out)) == View(s) && Stable(s.out)
  }

  // Writing r at a code position, or inside an identifier, is echoed by a second scan.
  lemma EchoWrite(s: Scan, r: char, s': Scan)
    requires Echoes(s)
    requires s'.out == s.out + [r]
    requires Settle(Feed(View(s), r)) == View(s')
    ensures Echoes(s')
  {
    if !EntersComment(s'.out) {
      EntersAppend(s.out, r);
      RunOne(START, s.out, r);
      var again := Run(START, s.out);
      assert Settle(again) == View(s);
      assert Feed(again, r) == Feed(Settle(again), r);
      forall k | 0 <= k <= |s'.out|
        ensures Echoed(s'.out[..k])
      {
        if k <= |s.out| {
          assert s'.out[..k] == s.out[..k];
        } else {
          assert s'.out[..k] == s'.out;
        }
      }
    }
  }

  lemma EchoSame(s: Scan, s': Scan)
    requires Echoes(s) && s'.out == s.out && View(s') == View(s)
    ensures Echoes(s')
  {
  }

  lemma EchoSettle(s: Scan)
    requires Echoes(s)
    ensures Echoes(Settle(s))
  {
    if Pending(s.mode) {
      EchoWrite(s, if s.mode == Dash then '-' else '/', Settle(s));
    }
  }

  lemma EchoFeedCode(s: Scan, r: char)
    requires Echoes(s) && View(s).mode == Code
    ensures Echoes(FeedCode(s.space, s.out, r))
  {
    var s' := FeedCode(s.space, s.out, r);
    if s'.out == s.out {
      EchoSame(s, s');
    } else {
      var w := s'.out[|s.out|];
      assert s'.out == s.out + [w];
      EchoWrite(s, w, s');
    }
  }

  lemma EchoFeed(s: Scan, r: char)
    requires Echoes(s)
    ensures Echoes(Feed(s, r))
  {
    var s' := Feed(s, r);
    if Pending(s.mode) && !InComment(s'.mode) {
      EchoSettle(s);
      EchoFeedCode(Settle(s), r);
    } else if s.mode == Code || (s.mode == Number && s' != s) || (s.mode == StringEnd && r != '\'') {
      EchoFeedCode(s, r);
    } else if s.mode == InIdentifier {
      EchoWrite(s, r, s');
    } else {
      EchoSame(s, s');
    }
  }

  lemma {:induction false} EchoRun(sql: string)
    ensures Echoes(Run(START, sql))
  {
    if sql == [] {
      assert Stable([]) by {
        assert START.out[..0] == [];
      }
    } else {
      var n := |sql| - 1;
      EchoRun(sql[..n]);
      assert sql == sql[..n] + [sql[n]];
      RunOne(START, sql[..n], sql[n]);
      EchoFeed(Run(START, sql[..n]), sql[n]);
    }
  }

  // ---------------------------------------------------------------- trimming

  lemma {:induction false} TrimProperties(out: string)
    ensures |TrimSpaces(out)| <= |out| && TrimSpaces(out) == out[..|TrimSpaces(out)|]
    ensures TrimSpaces(TrimSpaces(out)) == TrimSpaces(out)
    ensures TrimSpaces(out) == [] || TrimSpaces(out)[|TrimSpaces(out)| - 1] != ' '
    ensures forall k :: |TrimSpaces(out)| <= k < |out| ==> out[k] == ' '
  {
    if out != [] && out[|out| - 1] == ' ' {
      TrimProperties(out[..|out| - 1]);
    }
  }

  lemma {:induction false} SpacesOpenNoComment(a: string, k: nat)
    requires k <= |a| && (forall i :: k <= i < |a| ==> a[i] == ' ') && !EntersComment(a[..k])
    ensures !EntersComment(a)
    decreases |a|
  {
    if k < |a| {
      var n := |a| - 1;
      assert a[..n][..k] == a[..k];
      SpacesOpenNoComment(a[..n], k);
      assert a == a[..n] + [' '];
      RunOne(START, a[..n], ' ');
      if InComment(Run(START, a[..n]).mode) {
        InCommentEntered(a[..n]);
      }
    } else {
      assert a[..k] == a;
    }
  }

  // ---------------------------------------------------------------- idempotence

  lemma IdempotentWithoutComment(sql: string)
    requires !EntersComment(Normalize(sql))
    ensures Normalize(Normalize(sql)) == Normalize(sql)
    ensures Stable(Normalize(sql))
  {
    EchoRun(sql);
    var s := Run(START, sql);
    EchoSettle(s);
    var out := Settle(s).out;
    var t := Normalize(sql);
    TrimProperties(out);
    SpacesOpenNoComment(out, |t|);
    assert Stable(out);
    assert out[..|t|] == t;
    forall k | 0 <= k <= |t|
      ensures Echoed(t[..k])
    {
      assert t[..k] == out[..k];
    }
    assert t[..|t|] == t;
    assert Echoed(t);
  }

  function PendingLength(m: Mode): nat {
    if Pending(m) then 1 else 0
  }

  // Each rune adds at most one to the output; opening a comment loses two.
  lemma {:induction false} OutputIsNoLonger(sql: string)
    ensures |Run(START, sql).out| + PendingLength(Run(START, sql).mode) + (if EntersComment(sql) then 2 else 0) <= |sql|
  {
    if sql != [] {
      var n := |sql| - 1;
      OutputIsNoLonger(sql[..n]);
      assert sql == sql[..n] + [sql[n]];
      RunOne(START, sql[..n], sql[n]);
      EntersAppend(sql[..n], sql[n]);
      var s := Run(START, sql[..n]);
      assert InComment(Feed(s, sql[n]).mode) && !InComment(s.mode) ==> Pending(s.mode);
      if InComment(s.mode) {
        InCommentEntered(sql[..n]);
      }
    }
  }

  lemma CommentShortens(t: string)
    requires EntersComment(t)
    ensures |Normalize(t)| < |t|
  {
    OutputIsNoLonger(t);
    TrimProperties(Settle(Run(START, t)).out);
  }

  // Normalizing again changes nothing if and only if the normal form opens no comment.
  lemma IdempotentIffNoComment(sql: string)
    ensures Normalize(Normalize(sql)) == Normalize(sql) <==> !EntersComment(Normalize(sql))
  {
    if EntersComment(Normalize(sql)) {
      CommentShortens(Normalize(sql));
    } else {
      IdempotentWithoutComment(sql);
    }
  }

  // Removing a comment can join two dashes into the start of another.
  lemma RemovedCommentCanOpenAnother()
    ensures Normalize("a-/**/-b") == "a--b" && Normalize("a--b") == "a"
  {
    OpensComment();
    hide FeedCode;
    RunAppend(START, "a-/*", "*/-b");
    assert "a-/*" + "*/-b" == "a-/**/-b";
  }

  lemma OpensComment()
    ensures Run(START, "a-/*") == Scan(BlockComment, false, "a-")
    ensures Finish(Run(Scan(BlockComment, false, "a-"), "*/-b")) == "a--b"
    ensures Normalize("a--b") == "a"
  {
  }

  // ---------------------------------------------------------------- joined comments

  predicate EndsIn(out: string, c: char) {
    out != [] && out[|out| - 1] == c
  }

  // What is written next is a dash beside a dash, or a star beside a slash, that the
  // statement did not have side by side: a comment between them was removed.
  predicate JoinsHere(s: Scan, rest: string) {
    || (s.mode == Dash && EndsIn(s.out, '-') && (rest == [] || rest[0] != '-'))
    || (s.mode == Code && EndsIn(s.out, '/') && rest != [] && rest[0] == '*')
  }

  predicate JoinsFrom(s: Scan, rest: string)
    decreases rest
  {
    JoinsHere(s, rest) || (rest != [] && JoinsFrom(Feed(s, rest[0]), rest[1..]))
  }

  // Somewhere in the statement, removing a comment makes the opening of another.
  predicate Joins(sql: string) {
    JoinsFrom(START, sql)
  }

  // The second scan of the output so far is about to open a comment exactly when the
  // output ends in a dash or a slash.
  lemma LastDecides(s: Scan)
    requires Echoes(s) && !EntersComment(s.out) && View(s).mode == Code
    ensures Run(START, s.out).mode == Dash <==> EndsIn(s.out, '-')
    ensures Run(START, s.out).mode == Slash <==> EndsIn(s.out, '/')
  {
    var again := Run(START, s.out);
    assert Settle(again) == View(s);
    if s.out != [] {
      var n := |s.out| - 1;
      var b := Run(START, s.out[..n]);
      assert s.out == s.out[..n] + [s.out[n]];
      RunOne(START, s.out[..n], s.out[n]);
      assert Echoed(s.out[..n]);
      if InComment(again.mode) {
        InCommentEntered(s.out);
      }
      hide Run, IsSpace, AtBoundary, EntersComment, Stable;
      assert again == Feed(b, s.out[n]);
    }
  }

  // Writing one more rune opens a comment in the output exactly in two cases.
  lemma WriteDecides(s: Scan, w: char)
    requires Echoes(s) && !EntersComment(s.out)
    ensures EntersComment(s.out + [w]) <==>
      View(s).mode == Code && ((EndsIn(s.out, '-') && w == '-') || (EndsIn(s.out, '/') && w == '*'))
  {
    EntersAppend(s.out, w);
    RunOne(START, s.out, w);
    var again := Run(START, s.out);
    assert Settle(again) == View(s);
    OpensExactlyWhen(again, w);
    hide Run, Feed, EntersComment, Echoes;
    if View(s).mode == Code {
      LastDecides(s);
    }
  }

  lemma OpensExactlyWhen(s: Scan, w: char)
    requires s.mode == Code || Pending(s.mode) || s.mode == InIdentifier
    ensures InComment(Feed(s, w).mode) <==> (s.mode == Dash && w == '-') || (s.mode == Slash && w == '*')
  {
    hide IsSpace, AtBoundary;
  }

  // Having read a literal, the scanner has just written a question mark.
  predicate Marked(s: Scan) {
    s.mode == Number || s.mode == InString || s.mode == StringEnd ==> EndsIn(s.out, '?')
  }

  // The first scan after some prefix, its output without a comment so far.
  ghost predicate Clean(s: Scan) {
    Echoes(s) && !EntersComment(s.out) && Marked(s)
  }

  lemma SettleDecides(s: Scan)
    requires Clean(s) && Pending(s.mode)
    ensures Echoes(Settle(s)) && Marked(Settle(s))
    ensures EntersComment(Settle(s).out) <==> s.mode == Dash && EndsIn(s.out, '-')
  {
    EchoSettle(s);
    WriteDecides(s, if s.mode == Dash then '-' else '/');
  }

  // A dash or slash at a code position is not written yet.
  lemma FeedCodeWrites(space: bool, out: string, r: char)
    ensures var s' := FeedCode(space, out, r);
      || (s'.out == out && r != '*')
      || exists w :: s'.out == out + [w] && w != '-' && w != '/' && (w == '*' <==> r == '*')
  {
    hide IsSpace, AtBoundary;
    if r == '*' {
      StarIsWritten(space, out);
    }
    var s' := FeedCode(space, out, r);
    if s'.out != out {
      assert s'.out == out + [s'.out[|out|]];
    }
  }

  lemma StarIsWritten(space: bool, out: string)
    ensures FeedCode(space, out, '*') == Scan(Code, false, out + ['*'])
  {
  }

  // A rune at a code position.
  lemma FeedCodeDecides(s: Scan, r: char)
    requires Clean(s) && View(s).mode == Code
    ensures EntersComment(FeedCode(s.space, s.out, r).out) <==> EndsIn(s.out, '/') && r == '*'
  {
    FeedCodeWrites(s.space, s.out, r);
    hide FeedCode, EntersComment, Echoes;
    var s' := FeedCode(s.space, s.out, r);
    if s'.out != s.out {
      var w :| s'.out == s.out + [w] && w != '-' && w != '/' && (w == '*' <==> r == '*');
      WriteDecides(s, w);
    }
  }

  lemma FeedMarks(s: Scan, r: char)
    requires Marked(s)
    ensures Marked(Feed(s, r))
  {
    hide IsSpace, AtBoundary;
  }

  // One rune opens a comment in the output exactly when it joins.
  lemma FeedDecides(s: Scan, r: char, rest: string)
    requires Clean(s) && rest != [] && rest[0] == r
    ensures EntersComment(Feed(s, r).out) <==> JoinsHere(s, rest)
  {
    hide EntersComment, Echoes, FeedCode;
    if Pending(s.mode) {
      if r == (if s.mode == Dash then '-' else '*') {
        assert Feed(s, r).out == s.out;
      } else {
        PendingDecides(s, r);
      }
    } else if s.mode == InIdentifier {
      WriteDecides(s, r);
    } else if s.mode == Code || s.mode == Number || s.mode == StringEnd {
      FeedCodeDecides(s, r);
    }
  }

  // A dash or slash that opens no comment is written, and then the rune.
  lemma PendingDecides(s: Scan, r: char)
    requires Clean(s) && Pending(s.mode) && r != (if s.mode == Dash then '-' else '*')
    ensures EntersComment(FeedCode(false, Settle(s).out, r).out) <==> s.mode == Dash && EndsIn(s.out, '-')
  {
    SettleDecides(s);
    FeedCodeWrites(false, Settle(s).out, r);
    hide EntersComment, Echoes, FeedCode;
    if EntersComment(Settle(s).out) {
      EntersLater(Settle(s).out, FeedCode(false, Settle(s).out, r).out);
    } else {
      FeedCodeDecides(Settle(s), r);
    }
  }

  lemma {:induction false} EntersPrefix(a: string, k: nat)
    requires k <= |a| && EntersComment(a[..k])
    ensures EntersComment(a)
  {
    if k == |a| {
      assert a[..k] == a;
    } else {
      assert a[..|a| - 1][..k] == a[..k];
      EntersPrefix(a[..|a| - 1], k);
    }
  }

  lemma EntersLater(a: string, b: string)
    requires a <= b && EntersComment(a)
    ensures EntersComment(b)
  {
    assert b[..|a|] == a;
    EntersPrefix(b, |a|);
  }

  // The output only grows.
  lemma {:induction false} RunGrows(s: Scan, rest: string)
    ensures s.out <= Run(s, rest).out && s.out <= Settle(Run(s, rest)).out
    decreases rest
  {
    if rest != [] {
      FeedGrows(s, rest[0]);
      RunGrows(Feed(s, rest[0]), rest[1..]);
    }
  }

  lemma FeedGrows(s: Scan, r: char)
    ensures s.out <= Feed(s, r).out
  {
    hide IsSpace, AtBoundary;
  }

  lemma {:induction false} RunDecides(s: Scan, rest: string)
    requires Clean(s)
    ensures EntersComment(Settle(Run(s, rest)).out) <==> JoinsFrom(s, rest)
    decreases rest
  {
    if rest == [] {
      if Pending(s.mode) {
        SettleDecides(s);
      }
    } else {
      var s' := Feed(s, rest[0]);
      FeedDecides(s, rest[0], rest);
      EchoFeed(s, rest[0]);
      FeedMarks(s, rest[0]);
      hide Feed, Echoes, EntersComment, JoinsHere, Marked, Settle;
      if EntersComment(s'.out) {
        RunGrows(s', rest[1..]);
        EntersLater(s'.out, Settle(Run(s', rest[1..])).out);
      } else {
        RunDecides(s', rest[1..]);
      }
    }
  }

  // Normalizing twice changes nothing, for every statement in which no removed comment
  // makes the opening of another, and for no other.
  lemma IdempotentExactlyWhen(sql: string)
    ensures Normalize(Normalize(sql)) == Normalize(sql) <==> !Joins(sql)
    ensures EntersComment(Normalize(sql)) <==> Joins(sql)
  {
    EchoRun([]);
    RunDecides(START, sql);
    var out := Settle(Run(START, sql)).out;
    TrimProperties(out);
    if EntersComment(Normalize(sql)) {
      EntersLater(Normalize(sql), out);
    } else {
      SpacesOpenNoComment(out, |Normalize(sql)|);
    }
    IdempotentIffNoComment(sql);
  }

  // ---------------------------------------------------------------- without comments

  // As long as the scanner has met no comment, a dash or a slash at the end of the
  // output was read just before what is pending now.
  predicate Apart(s: Scan) {
    && (s.mode == Dash ==> !EndsIn(s.out, '-'))
    && (s.mode == Code ==> !EndsIn(s.out, '-') && !EndsIn(s.out, '/'))
    && (s.mode == InIdentifier ==> !s.space)
    && Marked(s) && (s.space ==> s.out == [] || EndsIn(s.out, ' '))
  }

  lemma FeedKeepsApart(s: Scan, r: char)
    requires Apart(s) && !InComment(s.mode) && !InComment(Feed(s, r).mode)
    ensures Apart(Feed(s, r))
  {
    hide AtBoundary;
  }

  lemma {:induction false} CommentFreeNeverJoins(a: string, rest: string)
    requires !EntersComment(a + rest) && Apart(Run(START, a))
    ensures !JoinsFrom(Run(START, a), rest)
    decreases rest
  {
    var s := Run(START, a);
    assert (a + rest)[..|a|] == a;
    if InComment(s.mode) {
      InCommentEntered(a);
      EntersPrefix(a + rest, |a|);
    }
    if rest != [] {
      RunOne(START, a, rest[0]);
      assert (a + rest)[..|a| + 1] == a + [rest[0]];
      assert a + [rest[0]] + rest[1..] == a + rest;
      if InComment(Feed(s, rest[0]).mode) {
        InCommentEntered(a + [rest[0]]);
        EntersPrefix(a + rest, |a| + 1);
      }
      FeedKeepsApart(s, rest[0]);
      CommentFreeNeverJoins(a + [rest[0]], rest[1..]);
    }
  }

  // A statement in which the scanner meets no comment has a normal form in which it
  // meets none either, so that normalizing it twice is normalizing it once.
  lemma CommentFreeIsIdempotent(sql: string)
    requires !EntersComment(sql)
    ensures !Joins(sql) && !EntersComment(Normalize(sql))
    ensures Normalize(Normalize(sql)) == Normalize(sql)
  {
    assert [] + sql == sql;
    CommentFreeNeverJoins([], sql);
    IdempotentExactlyWhen(sql);
  }

  // ---------------------------------------------------------------- the normal form

  lemma EchoedStep(t: string, k: nat)
    requires k < |t| && Stable(t)
    ensures Settle(Feed(Settle(Run(START, t[..k])), t[k])).out == t[..k] + [t[k]]
    ensures Settle(Run(START, t[..k + 1])) == Settle(Feed(Settle(Run(START, t[..k])), t[k]))
  {
    assert t[..k + 1] == t[..k] + [t[k]];
    RunOne(START, t[..k], t[k]);
    assert Echoed(t[..k]) && Echoed(t[..k + 1]);
    var again := Run(START, t[..k]);
    if Pending(again.mode) {
      assert Feed(again, t[k]) == Feed(Settle(again), t[k]);
    }
  }

  lemma FirstScan()
    ensures Run(START, []) == START
  {
  }

  lemma EchoedRune(s: Scan, r: char)
    requires s.mode == Code || s.mode == InIdentifier
    requires Settle(Feed(s, r)).out == s.out + [r]
    ensures s.mode == Code ==> r != '\'' && (IsDigit(r) ==> !AtBoundary(s.out))
    ensures s.mode == Code && IsSpace(r as int) ==> r == ' ' && !s.space && Feed(s, r).space
    ensures s.mode == InIdentifier && r == ' ' ==> Feed(s, r).mode == InIdentifier
  {
    var out := Settle(Feed(s, r)).out;
    assert |out| == |s.out| + 1 && out[|s.out|] == r;
  }

  predicate NoLiteralAt(t: string, k: nat)
    requires k < |t|
  {
    && t[k] != '\''
    && (IsDigit(t[k]) ==> !AtBoundary(t[..k]))
    && ('0' <= t[k] <= '9' ==> k > 0 && t[k - 1] !in {' ', '(', ',', '=', '<', '>', '+', '-', '*', '/'})
    && (IsSpace(t[k] as int) ==> t[k] == ' ' && 0 < k < |t| - 1 && t[k - 1] != ' ')
  }

  lemma BoundariesAre(t: string, k: nat)
    requires k < |t| && !AtBoundary(t[..k])
    ensures k > 0 && t[k - 1] !in {' ', '(', ',', '=', '<', '>', '+', '-', '*', '/'}
  {
  }

  lemma StableHasNoLiterals(t: string, k: nat)
    requires Stable(t) && k < |t| && t[|t| - 1] != ' '
    requires Run(START, t[..k]).mode != InIdentifier
    ensures NoLiteralAt(t, k)
  {
    assert Echoed(t[..k]) && (k > 0 ==> Echoed(t[..k - 1]));
    FirstScan();
    hide Run, IsSpace, IsBoundary, Feed, Stable;
    EchoedStep(t, k);
    EchoedRune(Settle(Run(START, t[..k])), t[k]);
    if IsDigit(t[k]) {
      BoundariesAre(t, k);
    }
    if k > 0 {
      EchoedStep(t, k - 1);
      EchoedRune(Settle(Run(START, t[..k - 1])), t[k - 1]);
    }
  }

  // Outside double-quoted identifiers a normal form has no single quote, no digit
  // that starts a number, and only single spaces between other runes.
  lemma NormalFormHasNoLiterals(sql: string, k: nat)
    requires !Joins(sql) && k < |Normalize(sql)|
    requires Run(START, Normalize(sql)[..k]).mode != InIdentifier
    ensures NoLiteralAt(Normalize(sql), k)
  {
    IdempotentExactlyWhen(sql);
    IdempotentWithoutComment(sql);
    TrimProperties(Settle(Run(START, sql)).out);
    assert Normalize(sql) == TrimSpaces(Settle(Run(START, sql)).out);
    hide Run, Normalize, Stable, Joins, EntersComment;
    StableHasNoLiterals(Normalize(sql), k);
  }

  // ---------------------------------------------------------------- literals

  datatype Piece = Text(text: string) | Str(body: string) | Num(number: string)

  // The body of a string literal with every quote doubled.
  function Doubled(body: string): string {
    if body == [] then [] else (if body[0] == '\'' then "''" else [body[0]]) + Doubled(body[1..])
  }

  predicate IsNumber(n: string) {
    n != [] && IsDigit(n[0]) && forall c <- n[1..] :: IsDigit(c) || c == '.'
  }

  function Written(p: Piece): string {
    match p
    case Text(t) => t
    case Str(body) => "'" + Doubled(body) + "'"
    case Num(n) => n
  }

  function Render(ps: seq<Piece>): string {
    if ps == [] then [] else Written(ps[0]) + Render(ps[1..])
  }

  // The same text with literals of the same kinds at the same places.
  predicate SameTemplate(ps: seq<Piece>, qs: seq<Piece>) {
    |ps| == |qs| && forall k :: 0 <= k < |ps| ==>
      match ps[k]
      case Text(t) => qs[k] == ps[k]
      case Str(_) => qs[k].Str?
      case Num(n) => IsNumber(n) && qs[k].Num? && IsNumber(qs[k].number)
  }

  // The scanner, on reaching this piece, is where a literal of its kind can start.
  predicate StartsLiteral(s: Scan, p: Piece) {
    match p
    case Text(_) => true
    case Str(_) => s.mode == Code || Pending(s.mode) || s.mode == Number
    case Num(_) => (s.mode == Code || Pending(s.mode)) && AtBoundary(Settle(s).out)
  }

  predicate LiteralsInPlace(s: Scan, ps: seq<Piece>)
    decreases |ps|
  {
    ps == [] || (StartsLiteral(s, ps[0]) && LiteralsInPlace(Run(s, Written(ps[0])), ps[1..]))
  }

  lemma {:induction false} BodySkipped(s: Scan, body: string)
    requires s.mode == InString
    ensures Run(s, Doubled(body)) == s
  {
    if body != [] {
      var c := if body[0] == '\'' then "''" else [body[0]];
      RunAppend(s, c, Doubled(body[1..]));
      BodySkipped(s, body[1..]);
    }
  }

  lemma {:induction false} DigitsSkipped(s: Scan, n: string)
    requires s.mode == Number && forall c <- n :: IsDigit(c) || c == '.'
    ensures Run(s, n) == s
  {
    if n != [] {
      DigitsSkipped(s, n[1..]);
    }
  }

  // Whatever the literal says, the scanner writes one question mark.
  lemma LiteralWritesOneMark(s: Scan, p: Piece)
    requires !p.Text? && StartsLiteral(s, p) && (p.Num? ==> IsNumber(p.number))
    ensures Run(s, Written(p)) == Scan(if p.Str? then StringEnd else Number, false, Settle(s).out + ['?'])
  {
    match p
    case Str(body) =>
      var start := Scan(InString, false, Settle(s).out + ['?']);
      assert Feed(s, '\'') == start;
      assert (("'" + Doubled(body)) + "'") == ['\''] + (Doubled(body) + ['\'']);
      BodySkipped(start, body);
      RunOne(start, Doubled(body), '\'');
    case Num(n) =>
      assert Feed(s, n[0]) == Scan(Number, false, Settle(s).out + ['?']);
      DigitsSkipped(Feed(s, n[0]), n[1..]);
  }

  lemma {:induction false} SameScan(s: Scan, ps: seq<Piece>, qs: seq<Piece>)
    requires SameTemplate(ps, qs) && LiteralsInPlace(s, ps)
    ensures Run(s, Render(ps)) == Run(s, Render(qs)) && LiteralsInPlace(s, qs)
    decreases |ps|
  {
    if ps != [] {
      var p, q := ps[0], qs[0];
      if !p.Text? {
        LiteralWritesOneMark(s, p);
        LiteralWritesOneMark(s, q);
      }
      RunAppend(s, Written(p), Render(ps[1..]));
      RunAppend(s, Written(q), Render(qs[1..]));
      SameScan(Run(s, Written(p)), ps[1..], qs[1..]);
    }
  }

  // Statements that differ only in their literals, however many there are, have the
  // same normal form.
  lemma LiteralsDoNotMatter(ps: seq<Piece>, qs: seq<Piece>)
    requires SameTemplate(ps, qs) && LiteralsInPlace(START, ps)
    ensures Normalize(Render(ps)) == Normalize(Render(qs))
  {
    SameScan(START, ps, qs);
  }
}
