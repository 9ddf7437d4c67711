/**
 * What the normal form of a statement is, told by the parts of the statement: words,
 * signs, blanks, quoted identifiers, literals and comments.
 */
module SqlMeaning {
  import opened GoText
  import opened SqlNormalize
  import opened SqlTheorems

  datatype Token =
    | Word(text: string)
    | Sign(c: char)              // a dash or a slash that opens no comment
    | Blank(text: string)
    | Quoted(name: string)
    | Literal(body: string)
    | Numeral(text: string)
    | LineNote(text: string)
    | BlockNote(text: string)

  function Spelled(t: Token): string {
    match t
    case Word(text) => text
    case Sign(c) => [c]
    case Blank(text) => text
    case Quoted(name) => "\"" + (name + "\"")
    case Literal(body) => "'" + (Doubled(body) + "'")
    case Numeral(text) => text
    case LineNote(text) => "--" + (text + "\n")
    case BlockNote(text) => "/*" + (text + "*/")
  }

  function Source(ts: seq<Token>): string {
    if ts == [] then [] else Spelled(ts[0]) + Source(ts[1..])
  }

  // What has been made of the parts so far, and whether it ends in a blank.
  datatype Form = Form(out: string, blank: bool)

  // A part's share in the normal form: words, signs and quoted identifiers as they are
  // written, a question mark for a literal, one space for blanks, nothing for a comment.
  function Meant(f: Form, t: Token): Form {
    match t
    case Word(text) => Form(f.out + text, false)
    case Sign(c) => Form(f.out + [c], false)
    case Blank(_) => if f.blank then f else Form(f.out + " ", true)
    case Quoted(name) => Form(f.out + "\"" + name + "\"", false)
    case Literal(_) => Form(f.out + "?", false)
    case Numeral(_) => Form(f.out + "?", false)
    case LineNote(_) => f
    case BlockNote(_) => f
  }

  function AllMeant(f: Form, ts: seq<Token>): Form
    decreases |ts|
  {
    if ts == [] then f else AllMeant(Meant(f, ts[0]), ts[1..])
  }

  // The last blank is dropped.
  function Complete(f: Form): string {
    if f.blank && f.out != [] then f.out[..|f.out| - 1] else f.out
  }

  // ---------------------------------------------------------------- what the parts are

  predicate White(c: char) {
    c == ' ' || '\t' <= c <= '\r' || (c as int >= 0x80 && IsSpace(c as int))
  }

  predicate PlainRune(c: char) {
    !White(c) && c != '\'' && c != '"' && c != '-' && c != '/'
  }

  predicate DecimalDigit(c: char) {
    '0' <= c <= '9'
  }

  // After these a digit starts a number.
  predicate StartsNumbers(out: string) {
    out == [] || out[|out| - 1] in {' ', '(', ',', '=', '<', '>', '+', '-', '*', '/'}
  }

  // After these, letters and digits among them, a digit goes on with a name.
  predicate ContinuesNames(out: string) {
    out != [] && '!' <= out[|out| - 1] <= '~' && !StartsNumbers(out)
  }

  predicate WordAfter(out: string, text: string)
    decreases text
  {
    text == [] || (&& PlainRune(text[0]) && (DecimalDigit(text[0]) ==> ContinuesNames(out))
                   && WordAfter(out + [text[0]], text[1..]))
  }

  // The part can stand here, after the part `last`, and is read as what it is.
  predicate Fits(f: Form, last: Token, t: Token) {
    match t
    case Word(text) =>
      && text != [] && WordAfter(f.out, text)
      && (last.Numeral? ==> !DecimalDigit(text[0]) && text[0] != '.')
      && (last == Sign('/') ==> text[0] != '*')
    case Sign(c) => (c == '-' || c == '/') && !(c == '-' && last == Sign('-'))
    case Blank(text) => text != [] && forall c <- text :: White(c)
    case Quoted(name) => '"' !in name
    case Literal(_) => !last.Literal?
    case Numeral(text) =>
      && text != [] && DecimalDigit(text[0]) && (forall c <- text :: DecimalDigit(c) || c == '.')
      && StartsNumbers(f.out) && !last.Numeral?
    case LineNote(text) => '\n' !in text && last != Sign('-')
    case BlockNote(text) => forall i :: 0 <= i < |text| - 1 ==> !(text[i] == '*' && text[i + 1] == '/')
  }

  predicate AllFit(f: Form, last: Token, ts: seq<Token>)
    decreases |ts|
  {
    ts == [] || (Fits(f, last, ts[0]) && AllFit(Meant(f, ts[0]), ts[0], ts[1..]))
  }

  // ---------------------------------------------------------------- single runes

  lemma WhiteIsSpace(c: char)
    ensures White(c) <==> IsSpace(c as int)
  {
  }

  lemma StartsNumbersAtBoundary(out: string)
    ensures StartsNumbers(out) ==> AtBoundary(out)
    ensures ContinuesNames(out) ==> !AtBoundary(out)
  {
  }

  lemma PlainRuneIsWritten(blank: bool, out: string, c: char)
    requires PlainRune(c) && (DecimalDigit(c) ==> ContinuesNames(out))
    ensures FeedCode(blank, out, c) == Scan(Code, false, out + [c])
  {
    WhiteIsSpace(c);
    StartsNumbersAtBoundary(out);
    hide White, IsSpace, AtBoundary, ContinuesNames;
  }

  lemma WhiteRuneIsCollapsed(blank: bool, out: string, c: char)
    requires White(c)
    ensures FeedCode(blank, out, c) == if blank then Scan(Code, true, out) else Scan(Code, true, out + [' '])
  {
    WhiteIsSpace(c);
    WhiteIsNoSign(c);
    hide White, IsSpace, AtBoundary;
  }

  lemma WhiteIsNoSign(c: char)
    requires White(c)
    ensures c != '-' && c != '/' && c != '\'' && c != '"' && !IsDigit(c)
  {
  }

  // ---------------------------------------------------------------- inside the parts

  lemma {:induction false} WordRuns(out: string, text: string)
    requires WordAfter(out, text)
    ensures Run(Scan(Code, false, out), text) == Scan(Code, false, out + text)
    decreases text
  {
    if text == [] {
      assert out + text == out;
    } else {
      PlainRuneIsWritten(false, out, text[0]);
      WordRuns(out + [text[0]], text[1..]);
      assert out + [text[0]] + text[1..] == out + text;
    }
  }

  lemma {:induction false} WhiteRuns(out: string, text: string)
    requires forall c <- text :: White(c)
    ensures Run(Scan(Code, true, out), text) == Scan(Code, true, out)
    decreases text
  {
    if text != [] {
      WhiteRuneIsCollapsed(true, out, text[0]);
      hide White;
      WhiteRuns(out, text[1..]);
    }
  }

  lemma {:induction false} NameRuns(blank: bool, out: string, name: string)
    requires '"' !in name
    ensures Run(Scan(InIdentifier, blank, out), name) == Scan(InIdentifier, blank, out + name)
    decreases name
  {
    if name == [] {
      assert out + name == out;
    } else {
      NameRuns(blank, out + [name[0]], name[1..]);
      assert out + [name[0]] + name[1..] == out + name;
    }
  }

  lemma {:induction false} LineRuns(s: Scan, text: string)
    requires s.mode == LineComment && '\n' !in text
    ensures Run(s, text) == s
    decreases text
  {
    if text != [] {
      LineRuns(s, text[1..]);
    }
  }

  lemma {:induction false} BlockRuns(s: Scan, text: string)
    requires s.mode == BlockComment || s.mode == BlockStar
    requires forall i :: 0 <= i < |text| - 1 ==> !(text[i] == '*' && text[i + 1] == '/')
    requires s.mode == BlockStar && text != [] ==> text[0] != '/'
    ensures Run(s, text + "*/") == s.(mode := Code)
    decreases text
  {
    if text == [] {
      assert text + "*/" == "*/" && "*/"[1..] == "/" && "/"[1..] == [];
      assert Run(Feed(Feed(s, '*'), '/'), []) == s.(mode := Code);
    } else {
      assert (text + "*/")[1..] == text[1..] + "*/";
      BlockRuns(Feed(s, text[0]), text[1..]);
    }
  }

  // ---------------------------------------------------------------- part by part

  // The scanner has read parts up to `last` and made this of them.
  predicate Stands(s: Scan, last: Token, f: Form) {
    match last
    case Sign(c) =>
      && s.mode == (if c == '-' then Dash else Slash) && f == Form(s.out + [c], false)
      && (c == '-' || c == '/')
    case Numeral(_) => s == Scan(Number, false, f.out) && !f.blank
    case Literal(_) => s == Scan(StringEnd, false, f.out) && !f.blank
    case _ => s == Scan(Code, f.blank, f.out)
  }

  // The first rune of the next part meets the scanner at a code position.
  lemma FirstRune(s: Scan, last: Token, f: Form, r: char)
    requires Stands(s, last, f)
    requires last == Sign('-') ==> r != '-'
    requires last == Sign('/') ==> r != '*'
    requires last.Numeral? ==> !DecimalDigit(r) && r != '.'
    requires last.Literal? ==> r != '\''
    ensures Feed(s, r) == FeedCode(f.blank, f.out, r)
  {
    hide FeedCode;
  }

  lemma RunCons(s: Scan, r: char, rest: string)
    ensures Run(s, [r] + rest) == Run(Feed(s, r), rest)
  {
    assert ([r] + rest)[1..] == rest;
  }

  lemma WordStep(s: Scan, last: Token, f: Form, text: string)
    requires Stands(s, last, f) && Fits(f, last, Word(text))
    ensures Stands(Run(s, text), Word(text), Meant(f, Word(text)))
  {
    FirstRune(s, last, f, text[0]);
    PlainRuneIsWritten(f.blank, f.out, text[0]);
    WordRuns(f.out + [text[0]], text[1..]);
    assert f.out + [text[0]] + text[1..] == f.out + text;
  }

  lemma SignStep(s: Scan, last: Token, f: Form, c: char)
    requires Stands(s, last, f) && Fits(f, last, Sign(c))
    ensures Stands(Run(s, [c]), Sign(c), Meant(f, Sign(c)))
  {
    FirstRune(s, last, f, c);
    RunCons(s, c, []);
    assert [c] + [] == [c];
  }

  lemma BlankStep(s: Scan, last: Token, f: Form, text: string)
    requires Stands(s, last, f) && Fits(f, last, Blank(text))
    ensures Stands(Run(s, text), Blank(text), Meant(f, Blank(text)))
  {
    WhiteIsNoSign(text[0]);
    WhiteIsNotDot(text[0]);
    FirstRune(s, last, f, text[0]);
    WhiteRuneIsCollapsed(f.blank, f.out, text[0]);
    hide White;
    WhiteRuns(Meant(f, Blank(text)).out, text[1..]);
  }

  lemma WhiteIsNotDot(c: char)
    requires White(c)
    ensures c != '.' && c != '*'
  {
  }

  lemma QuotedStep(s: Scan, last: Token, f: Form, name: string)
    requires Stands(s, last, f) && Fits(f, last, Quoted(name))
    ensures Stands(Run(s, Spelled(Quoted(name))), Quoted(name), Meant(f, Quoted(name)))
  {
    FirstRune(s, last, f, '"');
    var s1 := Scan(InIdentifier, false, f.out + ['"']);
    assert FeedCode(f.blank, f.out, '"') == s1;
    RunCons(s, '"', name + "\"");
    NameRuns(false, s1.out, name);
    RunOne(s1, name, '"');
  }

  lemma LiteralStep(s: Scan, last: Token, f: Form, body: string)
    requires Stands(s, last, f) && Fits(f, last, Literal(body))
    ensures Stands(Run(s, Spelled(Literal(body))), Literal(body), Meant(f, Literal(body)))
  {
    FirstRune(s, last, f, '\'');
    var s1 := Scan(InString, false, f.out + ['?']);
    assert FeedCode(f.blank, f.out, '\'') == s1;
    RunCons(s, '\'', Doubled(body) + "'");
    BodySkipped(s1, body);
    RunOne(s1, Doubled(body), '\'');
  }

  lemma NumeralStep(s: Scan, last: Token, f: Form, text: string)
    requires Stands(s, last, f) && Fits(f, last, Numeral(text))
    ensures Stands(Run(s, text), Numeral(text), Meant(f, Numeral(text)))
  {
    StartsNumbersAtBoundary(f.out);
    FirstRune(s, last, f, text[0]);
    var s1 := Scan(SqlNormalize.Number, false, f.out + ['?']);
    assert FeedCode(f.blank, f.out, text[0]) == s1;
    assert forall c <- text[1..] :: c in text;
    DigitsSkipped(s1, text[1..]);
  }

  lemma LineNoteStep(s: Scan, last: Token, f: Form, text: string)
    requires Stands(s, last, f) && Fits(f, last, LineNote(text))
    ensures Stands(Run(s, Spelled(LineNote(text))), LineNote(text), f)
  {
    FirstRune(s, last, f, '-');
    var s1, s2 := Scan(Dash, f.blank, f.out), Scan(LineComment, f.blank, f.out);
    assert "--" + (text + "\n") == ['-'] + (['-'] + (text + "\n"));
    RunCons(s, '-', ['-'] + (text + "\n"));
    RunCons(s1, '-', text + "\n");
    LineRuns(s2, text);
    RunOne(s2, text, '\n');
  }

  lemma BlockNoteStep(s: Scan, last: Token, f: Form, text: string)
    requires Stands(s, last, f) && Fits(f, last, BlockNote(text))
    ensures Stands(Run(s, Spelled(BlockNote(text))), BlockNote(text), f)
  {
    FirstRune(s, last, f, '/');
    var s1, s2 := Scan(Slash, f.blank, f.out), Scan(BlockComment, f.blank, f.out);
    assert "/*" + (text + "*/") == ['/'] + (['*'] + (text + "*/"));
    RunCons(s, '/', ['*'] + (text + "*/"));
    RunCons(s1, '*', text + "*/");
    BlockRuns(s2, text);
  }

  lemma TokenStep(s: Scan, last: Token, f: Form, t: Token)
    requires Stands(s, last, f) && Fits(f, last, t)
    ensures Stands(Run(s, Spelled(t)), t, Meant(f, t))
  {
    match t
    case Word(text) => WordStep(s, last, f, text);
    case Sign(c) => SignStep(s, last, f, c);
    case Blank(text) => BlankStep(s, last, f, text);
    case Quoted(name) => QuotedStep(s, last, f, name);
    case Literal(body) => LiteralStep(s, last, f, body);
    case Numeral(text) => NumeralStep(s, last, f, text);
    case LineNote(text) => LineNoteStep(s, last, f, text);
    case BlockNote(text) => BlockNoteStep(s, last, f, text);
  }

  lemma {:induction false} TokensRun(s: Scan, last: Token, f: Form, ts: seq<Token>)
    requires Stands(s, last, f) && AllFit(f, last, ts)
    ensures Settle(Run(s, Source(ts))).out == AllMeant(f, ts).out
    decreases |ts|
  {
    if ts == [] {
    } else {
      TokenStep(s, last, f, ts[0]);
      RunAppend(s, Spelled(ts[0]), Source(ts[1..]));
      hide Stands, Fits, Spelled, Meant, Run;
      TokensRun(Run(s, Spelled(ts[0])), ts[0], Meant(f, ts[0]), ts[1..]);
    }
  }

  // ---------------------------------------------------------------- the last blank

  // Blanks stand single, and never first.
  predicate Neat(f: Form) {
    var n := |f.out|;
    if f.blank then n == 0 || (f.out[n - 1] == ' ' && n > 1 && f.out[n - 2] != ' ')
    else n == 0 || f.out[n - 1] != ' '
  }

  lemma {:induction false} WordEnds(out: string, text: string)
    requires text != [] && WordAfter(out, text)
    ensures text[|text| - 1] != ' '
    decreases text
  {
    if |text| > 1 {
      WordEnds(out + [text[0]], text[1..]);
    }
  }

  lemma {:induction false} StaysNeat(f: Form, last: Token, ts: seq<Token>)
    requires Neat(f) && AllFit(f, last, ts) && (f.blank || f.out != [])
    ensures Neat(AllMeant(f, ts))
    decreases |ts|
  {
    if ts != [] {
      var t := ts[0];
      if t.Word? {
        WordEnds(f.out, t.text);
      }
      assert Neat(Meant(f, t)) && (Meant(f, t).blank || Meant(f, t).out != []);
      hide Neat, Fits, Meant;
      StaysNeat(Meant(f, t), t, ts[1..]);
    }
  }

  lemma NeatTrims(f: Form)
    requires Neat(f)
    ensures TrimSpaces(f.out) == Complete(f)
  {
  }

  // The normal form of a statement is what its parts mean, one after the other: code is
  // written as it stands, each literal is a question mark, blanks are one space, at
  // either end none, and comments are nothing.
  lemma NormalFormIsMeaning(ts: seq<Token>)
    requires AllFit(Form([], true), Blank(" "), ts)
    ensures Normalize(Source(ts)) == Complete(AllMeant(Form([], true), ts))
  {
    TokensRun(START, Blank(" "), Form([], true), ts);
    StaysNeat(Form([], true), Blank(" "), ts);
    NeatTrims(AllMeant(Form([], true), ts));
  }
}
