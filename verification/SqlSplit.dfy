/** `split_statements`: SQL text cut at its top-level semicolons. */
module SqlSplit {

  // ----- where a semicolon separates: the lexical rules, one character at a time -----

  datatype Mode =
    | Top
    | Quoted(close: char)       // '...', "..." or `...`
    | Closing(close: char)      // a quote inside one: its end, unless doubled
    | Bracket                   // [...]
    | Dash                      // one '-', perhaps a comment
    | LineComment
    | Slash                     // one '/', perhaps a comment
    | BlockComment(star: bool)  // whether the last character inside was '*'

  predicate IsQuote(c: char) {
    c == '\'' || c == '"' || c == '`'
  }

  function TopStep(c: char): Mode {
    if IsQuote(c) then Quoted(c)
    else if c == '[' then Bracket
    else if c == '-' then Dash
    else if c == '/' then Slash
    else Top
  }

  function Step(mode: Mode, c: char): Mode {
    match mode
    case Top => TopStep(c)
    case Quoted(close) => if c == close then Closing(close) else mode
    case Closing(close) => if c == close then Quoted(close) else TopStep(c)
    case Bracket => if c == ']' then Top else Bracket
    case Dash => if c == '-' then LineComment else TopStep(c)
    case LineComment => if c == '\n' then Top else LineComment
    case Slash => if c == '*' then BlockComment(false) else TopStep(c)
    case BlockComment(star) => if c == '/' && star then Top else BlockComment(c == '*')
  }

  /** A semicolon read in this mode separates statements. */
  predicate AtTop(mode: Mode) {
    mode.Top? || mode.Closing? || mode.Dash? || mode.Slash?
  }

  function ModeAfter(mode: Mode, s: string): Mode
    decreases |s|
  {
    if s == "" then mode else ModeAfter(Step(mode, s[0]), s[1..])
  }

  /** The pieces of `s` read from `mode`, the first one following on from `cur`. */
  function Cut(mode: Mode, cur: string, s: string): (pieces: seq<string>)
    ensures pieces != []
    decreases |s|
  {
    if s == "" then [cur]
    else if s[0] == ';' && AtTop(mode) then [cur] + Cut(Top, "", s[1..])
    else Cut(Step(mode, s[0]), cur + [s[0]], s[1..])
  }

  function Pieces(source: string): seq<string> {
    Cut(Top, "", source)
  }

  // ----- the scanner of the source -----

  lemma CutStep(mode: Mode, cur: string, s: string, i: nat)
    requires i < |s|
    ensures s[i..][0] == s[i] && s[i..][1..] == s[i + 1..]
    ensures !(s[i] == ';' && AtTop(mode)) ==> Cut(mode, cur, s[i..]) == Cut(Step(mode, s[i]), cur + [s[i]], s[i + 1..])
  {
  }

  /** Which mode at the end of a token reads on as top level does. */
  lemma EndsToken(mode: Mode, cur: string, s: string)
    requires match mode
             case Closing(close) => s == "" || s[0] != close
             case Dash => s == "" || s[0] != '-'
             case Slash => s == "" || s[0] != '*'
             case Top => true
             case _ => s == ""
    ensures Cut(mode, cur, s) == Cut(Top, cur, s)
  {
  }

  method SplitStatements(source: string) returns (out: seq<string>)
    ensures out == Pieces(source)
  {
    out := [];
    var cur := "";
    var i := 0;
    assert source[0..] == source && [] + Pieces(source) == Pieces(source);
    while i < |source|
      invariant i <= |source|
      invariant Pieces(source) == out + Cut(Top, cur, source[i..])
      decreases |source| - i
    {
      var c := source[i];
      ghost var pending := cur;
      CutStep(Top, cur, source, i);
      if c == ';' {
        assert out + ([cur] + Cut(Top, "", source[i + 1..])) == (out + [cur]) + Cut(Top, "", source[i + 1..]);
        out := out + [cur];
        cur := "";
        i := i + 1;
      } else if IsQuote(c) {
        i, cur := TakeQuoted(source, i, cur);
      } else if c == '[' {
        i, cur := TakeUntil(source, i, cur, Bracket, ']');
      } else if c == '-' && i + 1 < |source| && source[i + 1] == '-' {
        CutStep(Dash, cur + "-", source, i + 1);
        i, cur := TakeUntil(source, i, cur, LineComment, '\n');
      } else if c == '/' && i + 1 < |source| && source[i + 1] == '*' {
        i, cur := TakeBlock(source, i, cur);
      } else {
        cur := cur + [c];
        i := i + 1;
        EndsToken(Step(Top, c), cur, source[i..]);
      }
    }
    assert source[i..] == "";
    out := out + [cur];
  }

  /** Through the closing quote of a run; a doubled quote stays inside. */
  method TakeQuoted(s: string, start: nat, before: string) returns (i: nat, cur: string)
    requires start < |s| && IsQuote(s[start])
    ensures start < i <= |s|
    ensures Cut(Top, before, s[start..]) == Cut(Top, cur, s[i..])
  {
    var close := s[start];
    CutStep(Top, before, s, start);
    cur := before + [close];
    i := start + 1;
    while i < |s|
      invariant start < i <= |s|
      invariant Cut(Top, before, s[start..]) == Cut(Quoted(close), cur, s[i..])
      decreases |s| - i
    {
      var q := s[i];
      CutStep(Quoted(close), cur, s, i);
      cur := cur + [q];
      i := i + 1;
      if q == close {
        if i < |s| && s[i] == close {
          CutStep(Closing(close), cur, s, i);
          cur := cur + [close];
          i := i + 1;
          continue;
        }
        EndsToken(Closing(close), cur, s[i..]);
        return;
      }
    }
    EndsToken(Quoted(close), cur, s[i..]);
  }

  /** Through the first `last` after `start`: a bracketed name, or a line comment. */
  method TakeUntil(s: string, start: nat, before: string, ghost mode: Mode, last: char) returns (i: nat, cur: string)
    requires start < |s|
    requires (mode == Bracket && last == ']' && s[start] == '[')
             || (mode == LineComment && last == '\n' && s[start] == '-' && start + 1 < |s| && s[start + 1] == '-')
    ensures start < i <= |s|
    ensures Cut(Top, before, s[start..]) == Cut(Top, cur, s[i..])
  {
    CutStep(Top, before, s, start);
    cur := before + [s[start]];
    i := start + 1;
    if mode == LineComment {
      CutStep(Dash, cur, s, i);
      CutStep(LineComment, cur, s, i);
    }
    while i < |s|
      invariant start < i <= |s|
      invariant Cut(Top, before, s[start..]) == Cut(mode, cur, s[i..])
    {
      var q := s[i];
      CutStep(mode, cur, s, i);
      cur := cur + [q];
      i := i + 1;
      if q == last {
        return;
      }
    }
    EndsToken(mode, cur, s[i..]);
  }

  method TakeBlock(s: string, start: nat, before: string) returns (i: nat, cur: string)
    requires start + 1 < |s| && s[start] == '/' && s[start + 1] == '*'
    ensures start < i <= |s|
    ensures Cut(Top, before, s[start..]) == Cut(Top, cur, s[i..])
  {
    CutStep(Top, before, s, start);
    cur := before + "/";
    CutStep(Slash, cur, s, start + 1);
    cur := cur + "*";
    i := start + 2;
    var prev := 0 as char;
    while i < |s|
      invariant start < i <= |s|
      invariant Cut(Top, before, s[start..]) == Cut(BlockComment(prev == '*'), cur, s[i..])
    {
      var q := s[i];
      CutStep(BlockComment(prev == '*'), cur, s, i);
      cur := cur + [q];
      i := i + 1;
      if prev == '*' && q == '/' {
        return;
      }
      prev := q;
    }
    EndsToken(BlockComment(prev == '*'), cur, s[i..]);
  }

  // ----- what the pieces are -----

  function JoinSemicolon(pieces: seq<string>): string
    requires pieces != []
  {
    if |pieces| == 1 then pieces[0] else pieces[0] + ";" + JoinSemicolon(pieces[1..])
  }

  lemma {:induction false} CutJoins(mode: Mode, cur: string, s: string)
    ensures JoinSemicolon(Cut(mode, cur, s)) == cur + s
    decreases |s|
  {
    if s == "" {
    } else if s[0] == ';' && AtTop(mode) {
      CutJoins(Top, "", s[1..]);
      var rest := Cut(Top, "", s[1..]);
      assert ([cur] + rest)[1..] == rest;
      assert cur + ";" + s[1..] == cur + s;
    } else {
      CutJoins(Step(mode, s[0]), cur + [s[0]], s[1..]);
      assert cur + [s[0]] + s[1..] == cur + s;
    }
  }

  /** Joining the pieces with semicolons restores the source. */
  lemma PiecesJoin(source: string)
    ensures JoinSemicolon(Pieces(source)) == source
  {
    CutJoins(Top, "", source);
  }

  /** Text none of whose semicolons is read at top level. */
  predicate Uncut(mode: Mode, s: string)
    decreases |s|
  {
    s == "" || (!(s[0] == ';' && AtTop(mode)) && Uncut(Step(mode, s[0]), s[1..]))
  }

  lemma {:induction false} UncutIsOnePiece(mode: Mode, cur: string, s: string)
    requires Uncut(mode, s)
    ensures Cut(mode, cur, s) == [cur + s]
    decreases |s|
  {
    if s == "" {
      assert cur + s == cur;
    } else {
      UncutIsOnePiece(Step(mode, s[0]), cur + [s[0]], s[1..]);
      assert cur + [s[0]] + s[1..] == cur + s;
    }
  }

  lemma {:induction false} UncutSnoc(mode: Mode, s: string, c: char)
    requires Uncut(mode, s) && !(c == ';' && AtTop(ModeAfter(mode, s)))
    ensures Uncut(mode, s + [c]) && ModeAfter(mode, s + [c]) == Step(ModeAfter(mode, s), c)
    decreases |s|
  {
    if s == "" {
      assert s + [c] == [c] && [c][1..] == "";
    } else {
      assert (s + [c])[1..] == s[1..] + [c];
      UncutSnoc(Step(mode, s[0]), s[1..], c);
    }
  }

  lemma {:induction false} PiecesUncut(mode: Mode, cur: string, s: string)
    requires Uncut(Top, cur) && ModeAfter(Top, cur) == mode
    ensures forall i :: 0 <= i < |Cut(mode, cur, s)| ==> Uncut(Top, Cut(mode, cur, s)[i])
    decreases |s|
  {
    if s == "" {
    } else if s[0] == ';' && AtTop(mode) {
      PiecesUncut(Top, "", s[1..]);
    } else {
      UncutSnoc(Top, cur, s[0]);
      PiecesUncut(Step(mode, s[0]), cur + [s[0]], s[1..]);
    }
  }

  /** Splitting a piece again returns just that piece. */
  lemma PiecesStayWhole(source: string, i: nat)
    requires i < |Pieces(source)|
    ensures Pieces(Pieces(source)[i]) == [Pieces(source)[i]]
  {
    PiecesUncut(Top, "", source);
    UncutIsOnePiece(Top, "", Pieces(source)[i]);
    assert "" + Pieces(source)[i] == Pieces(source)[i];
  }

  // ----- where the cuts fall -----

  /** The top-level semicolons of `s`, whose first character has index `base` in the source. */
  function Separators(mode: Mode, s: string, base: nat): seq<nat>
    decreases |s|
  {
    if s == "" then []
    else if s[0] == ';' && AtTop(mode) then [base] + Separators(Top, s[1..], base + 1)
    else Separators(Step(mode, s[0]), s[1..], base + 1)
  }

  /** Where each piece but the last ends. */
  function Ends(pieces: seq<string>, base: nat): seq<nat> {
    if |pieces| <= 1 then [] else [base + |pieces[0]|] + Ends(pieces[1..], base + |pieces[0]| + 1)
  }

  lemma {:induction false} CutsAtSeparators(mode: Mode, cur: string, s: string, base: nat)
    ensures Ends(Cut(mode, cur, s), base) == Separators(mode, s, base + |cur|)
    decreases |s|
  {
    if s == "" {
    } else if s[0] == ';' && AtTop(mode) {
      CutsAtSeparators(Top, "", s[1..], base + |cur| + 1);
      assert ([cur] + Cut(Top, "", s[1..]))[1..] == Cut(Top, "", s[1..]);
    } else {
      CutsAtSeparators(Step(mode, s[0]), cur + [s[0]], s[1..], base);
    }
  }

  /** Every cut, and only a cut, falls at a semicolon the lexical rules read at top level. */
  lemma CutsExactlyAtTop(source: string, k: nat)
    requires k < |source|
    ensures k in Ends(Pieces(source), 0) <==> source[k] == ';' && AtTop(ModeAfter(Top, source[..k]))
  {
    CutsAtSeparators(Top, "", source, 0);
    SeparatorsAtTop(Top, source, 0, k);
  }

  /** Runs are closed by the quote that opened them. */
  predicate Reachable(mode: Mode) {
    (mode.Quoted? ==> IsQuote(mode.close)) && (mode.Closing? ==> IsQuote(mode.close))
  }

  lemma {:induction false} SeparatorsAtTop(mode: Mode, s: string, base: nat, k: nat)
    requires k < |s| && Reachable(mode)
    ensures base + k in Separators(mode, s, base) <==> s[k] == ';' && AtTop(ModeAfter(mode, s[..k]))
    decreases |s|
  {
    if k == 0 {
      SeparatorsBeyond(Step(mode, s[0]), s[1..], base + 1);
      SeparatorsBeyond(Top, s[1..], base + 1);
    } else {
      assert s[..k][1..] == s[1..][..k - 1];
      assert s[0] == ';' && AtTop(mode) ==> Step(mode, s[0]) == Top;
      SeparatorsAtTop(Step(mode, s[0]), s[1..], base + 1, k - 1);
    }
  }

  lemma {:induction false} SeparatorsBeyond(mode: Mode, s: string, base: nat)
    ensures forall k :: k in Separators(mode, s, base) ==> k >= base
    decreases |s|
  {
    if s != "" {
      SeparatorsBeyond(Step(mode, s[0]), s[1..], base + 1);
      SeparatorsBeyond(Top, s[1..], base + 1);
    }
  }

  // ----- the characters themselves -----

  /** Text that opens no quote, bracket or comment and separates nothing. */
  predicate IsPlain(s: string) {
    forall i :: 0 <= i < |s| ==> s[i] !in {'\'', '"', '`', '[', '-', '/', ';'}
  }

  lemma {:induction false} PlainStaysTop(s: string)
    requires IsPlain(s)
    ensures ModeAfter(Top, s) == Top && Uncut(Top, s)
  {
    if s != "" {
      PlainStaysTop(s[1..]);
    }
  }

  lemma {:induction false} ModeConcat(mode: Mode, a: string, b: string)
    ensures ModeAfter(mode, a + b) == ModeAfter(ModeAfter(mode, a), b)
    ensures Uncut(mode, a + b) <==> Uncut(mode, a) && Uncut(ModeAfter(mode, a), b)
    decreases |a|
  {
    if a == "" {
      assert a + b == b;
    } else {
      assert (a + b)[0] == a[0] && (a + b)[1..] == a[1..] + b;
      ModeConcat(Step(mode, a[0]), a[1..], b);
    }
  }

  lemma {:induction false} QuotedBody(close: char, body: string)
    requires close !in body
    ensures ModeAfter(Quoted(close), body) == Quoted(close) && Uncut(Quoted(close), body)
  {
    if body != "" {
      QuotedBody(close, body[1..]);
    }
  }

  lemma {:induction false} BracketBody(body: string)
    requires ']' !in body
    ensures ModeAfter(Bracket, body) == Bracket && Uncut(Bracket, body)
  {
    if body != "" {
      BracketBody(body[1..]);
    }
  }

  lemma {:induction false} LineBody(body: string)
    requires '\n' !in body
    ensures ModeAfter(LineComment, body) == LineComment && Uncut(LineComment, body)
  {
    if body != "" {
      LineBody(body[1..]);
    }
  }

  /** The text of a block comment: no star-slash inside. */
  predicate NoEnd(body: string) {
    forall i :: 0 <= i < |body| - 1 ==> !(body[i] == '*' && body[i + 1] == '/')
  }

  lemma {:induction false} BlockBody(star: bool, body: string)
    requires NoEnd(body) && (star ==> body == "" || body[0] != '/')
    ensures Uncut(BlockComment(star), body)
    ensures ModeAfter(BlockComment(star), body) == BlockComment(if body == "" then star else body[|body| - 1] == '*')
    decreases |body|
  {
    if body != "" {
      var rest := body[1..];
      forall i | 0 <= i < |rest| - 1 ensures !(rest[i] == '*' && rest[i + 1] == '/') {
        assert rest[i] == body[i + 1];
      }
      BlockBody(body[0] == '*', rest);
    }
  }

  /** What is never cut, whatever semicolons it holds. */
  datatype Token = Literal(body: string) | DoubleQuoted(body: string) | Backticked(body: string) | Bracketed(body: string)
                 | Line(body: string) | Block(body: string)
  {
    function Text(): string {
      match this
      case Literal(body) => "'" + body + "'"
      case DoubleQuoted(body) => "\"" + body + "\""
      case Backticked(body) => "`" + body + "`"
      case Bracketed(body) => "[" + body + "]"
      case Line(body) => "--" + body + "\n"
      case Block(body) => "/*" + body + "*/"
    }

    /** The body does not end the token early. */
    predicate Whole() {
      match this
      case Literal(body) => '\'' !in body
      case DoubleQuoted(body) => '"' !in body
      case Backticked(body) => '`' !in body
      case Bracketed(body) => ']' !in body
      case Line(body) => '\n' !in body
      case Block(body) => NoEnd(body)
    }
  }

  lemma QuotedToken(close: char, body: string)
    requires close in {'\'', '"', '`'} && close !in body
    ensures Uncut(Top, [close] + body + [close]) && ModeAfter(Top, [close] + body + [close]) == Closing(close)
  {
    QuotedBody(close, body);
    UncutSnoc(Quoted(close), body, close);
    assert [close] + body + [close] == [close] + (body + [close]);
    assert ([close] + (body + [close]))[1..] == body + [close];
  }

  lemma BlockToken(body: string)
    requires NoEnd(body)
    ensures Uncut(Top, "/*" + body + "*/") && ModeAfter(Top, "/*" + body + "*/") == Top
  {
    BlockBody(false, body);
    var inside := ModeAfter(BlockComment(false), body);
    UncutSnoc(BlockComment(false), body, '*');
    UncutSnoc(BlockComment(false), body + "*", '/');
    assert body + "*/" == body + "*" + "/";
    ModeConcat(Top, "/*", body + "*/");
    assert "/*" + (body + "*/") == "/*" + body + "*/";
    assert "/*"[1..] == "*" && "*"[1..] == "";
  }

  lemma LineToken(body: string)
    requires '\n' !in body
    ensures Uncut(Top, "--" + body + "\n") && ModeAfter(Top, "--" + body + "\n") == Top
  {
    LineBody(body);
    UncutSnoc(LineComment, body, '\n');
    ModeConcat(Top, "--", body + "\n");
    assert "--" + (body + "\n") == "--" + body + "\n";
    assert "--"[1..] == "-" && "-"[1..] == "";
  }

  lemma BracketToken(body: string)
    requires ']' !in body
    ensures Uncut(Top, "[" + body + "]") && ModeAfter(Top, "[" + body + "]") == Top
  {
    BracketBody(body);
    UncutSnoc(Bracket, body, ']');
    assert "[" + body + "]" == "[" + (body + "]");
    assert ("[" + (body + "]"))[1..] == body + "]";
  }

  lemma TokenStays(token: Token)
    requires token.Whole()
    ensures Uncut(Top, token.Text())
    ensures ModeAfter(Top, token.Text()) == Top
            || (ModeAfter(Top, token.Text()).Closing? && ModeAfter(Top, token.Text()).close in {'\'', '"', '`'})
  {
    match token
    case Literal(body) => QuotedToken('\'', body);
    case DoubleQuoted(body) => QuotedToken('"', body);
    case Backticked(body) => QuotedToken('`', body);
    case Bracketed(body) => BracketToken(body);
    case Line(body) => LineToken(body);
    case Block(body) => BlockToken(body);
  }

  /** A statement as its writer sees it: plain text and tokens in any order; a doubled quote is two of them. */
  datatype Segment = Plain(text: string) | Special(token: Token)
  {
    function Text(): string {
      match this
      case Plain(text) => text
      case Special(token) => token.Text()
    }

    predicate Whole() {
      match this
      case Plain(text) => IsPlain(text)
      case Special(token) => token.Whole()
    }
  }

  function Written(segments: seq<Segment>): string {
    if segments == [] then "" else segments[0].Text() + Written(segments[1..])
  }

  /** At top level, perhaps just past a closing quote. */
  predicate Outside(mode: Mode) {
    mode == Top || (mode.Closing? && mode.close in {'\'', '"', '`'})
  }

  /** Past a closing quote text reads as at top level: the same quote again opens the run again. */
  lemma OutsideIsTop(mode: Mode, s: string)
    requires Outside(mode)
    ensures Uncut(mode, s) <==> Uncut(Top, s)
    ensures s != "" ==> ModeAfter(mode, s) == ModeAfter(Top, s)
  {
  }

  lemma {:induction false} SegmentsAreUncut(mode: Mode, segments: seq<Segment>)
    requires Outside(mode) && forall i :: 0 <= i < |segments| ==> segments[i].Whole()
    ensures Uncut(mode, Written(segments)) && Outside(ModeAfter(mode, Written(segments)))
    decreases |segments|
  {
    if segments != [] {
      var text := segments[0].Text();
      match segments[0] {
        case Plain(plain) => PlainStaysTop(plain);
        case Special(token) => TokenStays(token);
      }
      OutsideIsTop(mode, text);
      ModeConcat(mode, text, Written(segments[1..]));
      SegmentsAreUncut(ModeAfter(mode, text), segments[1..]);
    }
  }

  /** However many strings, quoted names and comments it holds, and whatever semicolons they hold, a statement is one
      piece, and the next semicolon ends it. */
  lemma StatementIsOnePiece(segments: seq<Segment>, rest: string)
    requires forall i :: 0 <= i < |segments| ==> segments[i].Whole()
    ensures Pieces(Written(segments) + ";" + rest) == [Written(segments)] + Pieces(rest)
    ensures Pieces(Written(segments)) == [Written(segments)]
  {
    SegmentsAreUncut(Top, segments);
    UncutPiece(Written(segments), rest);
  }

  lemma UncutPiece(statement: string, rest: string)
    requires Uncut(Top, statement) && AtTop(ModeAfter(Top, statement))
    ensures Pieces(statement + ";" + rest) == [statement] + Pieces(rest)
    ensures Pieces(statement) == [statement]
  {
    CutAtEnd(Top, "", statement, rest);
    UncutIsOnePiece(Top, "", statement);
    assert statement + ";" + rest == statement + (";" + rest);
    assert "" + statement == statement;
  }

  lemma {:induction false} CutAtEnd(mode: Mode, cur: string, s: string, rest: string)
    requires Uncut(mode, s) && AtTop(ModeAfter(mode, s))
    ensures Cut(mode, cur, s + (";" + rest)) == [cur + s] + Pieces(rest)
    decreases |s|
  {
    var all := s + (";" + rest);
    if s == "" {
      assert all == ";" + rest && all[1..] == rest && cur + s == cur;
    } else {
      assert all[0] == s[0] && all[1..] == s[1..] + (";" + rest);
      CutAtEnd(Step(mode, s[0]), cur + [s[0]], s[1..], rest);
      assert cur + [s[0]] + s[1..] == cur + s;
    }
  }
}
