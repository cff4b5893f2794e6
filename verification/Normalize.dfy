/** `normalize_statement`: the shape of one statement, as the source's scanner
    computes it and as a character automaton whose laws are proved here.
    A byte of the statement is the character with that code, as in the source. */
module Normalize {

  predicate IsDigit(c: char) {
    '0' <= c <= '9'
  }

  predicate IsAlnum(c: char) {
    IsDigit(c) || 'a' <= c <= 'z' || 'A' <= c <= 'Z'
  }

  predicate IsWordChar(c: char) {
    IsAlnum(c) || c == '_'
  }

  predicate IsNumberChar(c: char) {
    IsAlnum(c) || c == '.' || c == '_'
  }

  /** The Unicode white space characters below U+0100. */
  predicate IsSpace(c: char) {
    '\t' <= c <= '\r' || c == ' ' || c as int == 0x85 || c as int == 0xA0
  }

  predicate IsIdentQuote(c: char) {
    c == '"' || c == '`'
  }

  function Lower(c: char): char {
    if 'A' <= c <= 'Z' then c + 32 as char else c
  }

  function LowerAll(s: string): (r: string)
    ensures |r| == |s| && forall i :: 0 <= i < |s| ==> r[i] == Lower(s[i])
  {
    seq(|s|, i requires 0 <= i < |s| => Lower(s[i]))
  }

  // ----- the automaton -----

  /** `blank`: nothing was emitted yet, or a space was emitted last. */
  datatype Mode =
    | Top(word: bool, blank: bool)
    | InString
    | StringQuote          // a quote inside a string: its end, unless doubled
    | InIdent(quote: char)
    | InNumber

  const START := Top(false, true)

  function TopStep(word: bool, blank: bool, c: char): (Mode, string) {
    if c == '\'' then (InString, "?")
    else if IsIdentQuote(c) then (InIdent(c), [c])
    else if IsDigit(c) && !word then (InNumber, "?")
    else if IsSpace(c) then (Top(false, true), if blank then "" else " ")
    else (Top(IsWordChar(c), false), [Lower(c)])
  }

  function Step(mode: Mode, c: char): (Mode, string) {
    match mode
    case Top(word, blank) => TopStep(word, blank, c)
    case InString => (if c == '\'' then StringQuote else InString, "")
    case StringQuote => if c == '\'' then (InString, "") else TopStep(false, false, c)
    case InIdent(quote) => (if c == quote then Top(true, false) else mode, [Lower(c)])
    case InNumber => if IsNumberChar(c) then (InNumber, "") else TopStep(false, false, c)
  }

  function End(mode: Mode, s: string): Mode
    decreases |s|
  {
    if s == "" then mode else End(Step(mode, s[0]).0, s[1..])
  }

  function Out(mode: Mode, s: string): string
    decreases |s|
  {
    if s == "" then "" else Step(mode, s[0]).1 + Out(Step(mode, s[0]).0, s[1..])
  }

  predicate Trimmable(c: char) {
    c == ' ' || c == ';'
  }

  function TrimEnd(s: string): string {
    if s != "" && Trimmable(s[|s| - 1]) then TrimEnd(s[..|s| - 1]) else s
  }

  function Normalized(s: string): string {
    TrimEnd(Out(START, s))
  }

  // ----- the scanner computes the automaton's output -----

  predicate Blank(out: string) {
    out == "" || out[|out| - 1] == ' '
  }

  method NormalizeStatement(statement: string) returns (out: string)
    ensures out == Normalized(statement)
  {
    out := "";
    var i := 0;
    var inWord := false;
    while i < |statement|
      invariant i <= |statement|
      invariant Out(START, statement) == out + Out(Top(inWord, Blank(out)), statement[i..])
      decreases |statement| - i
    {
      ghost var before, tail := out, statement[i..];
      ghost var mode := Top(inWord, Blank(out));
      var emitted;
      i, inWord, emitted := ScanToken(statement, i, inWord, Blank(out));
      out := out + emitted;
      Absorb(before, mode, tail, emitted, Top(inWord, Blank(out)), statement[i..]);
    }
    assert statement[i..] == "" && out + "" == out;
    out := Trim(out);
  }

  lemma Absorb(before: string, mode: Mode, tail: string, emitted: string, mode': Mode, tail': string)
    requires Out(mode, tail) == emitted + Out(mode', tail')
    ensures before + Out(mode, tail) == before + emitted + Out(mode', tail')
  {
  }

  /** One round of the scanner: the text it emits and where it goes on. */
  method ScanToken(statement: string, start: nat, word: bool, blank: bool) returns (i: nat, inWord: bool, emitted: string)
    requires start < |statement|
    ensures start < i <= |statement|
    ensures Out(Top(word, blank), statement[start..])
            == emitted + Out(Top(inWord, if emitted == "" then blank else emitted[|emitted| - 1] == ' '), statement[i..])
  {
    var c := statement[start];
    assert statement[start..][1..] == statement[start + 1..];
    if c == '\'' {
      i := SkipString(statement, start);
      emitted, inWord := "?", false;
    } else if IsIdentQuote(c) {
      var text;
      i, text := KeepIdent(statement, start);
      emitted, inWord := [c] + text, true;
      if i == |statement| {
        assert statement[i..] == "";
      }
    } else if IsDigit(c) && !word {
      i := SkipNumber(statement, start);
      emitted, inWord := "?", false;
    } else if IsSpace(c) {
      emitted := if blank then "" else " ";
      i := SkipSpaces(statement, start);
      inWord := false;
    } else {
      emitted := [Lower(c)];
      inWord := IsAlnum(c) || c == '_';
      i := start + 1;
    }
  }

  lemma OneStep(out: string, mode: Mode, rest: string)
    requires rest != ""
    ensures var (next, emitted) := Step(mode, rest[0]);
            out + Out(mode, rest) == out + emitted + Out(next, rest[1..])
  {
  }

  method Trim(s: string) returns (out: string)
    ensures out == TrimEnd(s)
  {
    out := s;
    while out != "" && (out[|out| - 1] == ' ' || out[|out| - 1] == ';')
      invariant TrimEnd(out) == TrimEnd(s)
      decreases |out|
    {
      out := out[..|out| - 1];
    }
  }

  /** Past a quoted identifier that opens at `start`, keeping its folded text. */
  method KeepIdent(s: string, start: nat) returns (i: nat, text: string)
    requires start < |s| && IsIdentQuote(s[start])
    ensures start < i <= |s|
    ensures Out(InIdent(s[start]), s[start + 1..]) == text + Out(Top(true, false), s[i..])
    ensures i < |s| ==> text != "" && text[|text| - 1] == s[start]
  {
    var quote := s[start];
    i, text := start + 1, "";
    while i < |s|
      invariant start < i <= |s|
      invariant Out(InIdent(quote), s[start + 1..]) == text + Out(InIdent(quote), s[i..])
    {
      var b := s[i];
      assert s[i..][1..] == s[i + 1..];
      OneStep(text, InIdent(quote), s[i..]);
      text := text + [Lower(b)];
      i := i + 1;
      if b == quote {
        return;
      }
    }
    assert s[i..] == "";
  }

  /** Past a string literal that opens at `start`; a doubled quote stays inside. */
  method SkipString(s: string, start: nat) returns (i: nat)
    requires start < |s| && s[start] == '\''
    ensures start < i <= |s|
    ensures Out(InString, s[start + 1..]) == Out(Top(false, false), s[i..])
  {
    i := start + 1;
    while i < |s|
      invariant start < i <= |s|
      invariant Out(InString, s[start + 1..]) == Out(InString, s[i..])
    {
      assert s[i..][1..] == s[i + 1..];
      if s[i] == '\'' {
        if i + 1 < |s| && s[i + 1] == '\'' {
          assert s[i + 1..][1..] == s[i + 2..];
          i := i + 2;
          continue;
        }
        i := i + 1;
        return;
      }
      i := i + 1;
    }
    assert s[i..] == "";
  }

  method SkipNumber(s: string, start: nat) returns (i: nat)
    requires start < |s| && IsDigit(s[start])
    ensures start < i <= |s|
    ensures Out(InNumber, s[start + 1..]) == Out(Top(false, false), s[i..])
  {
    i := start;
    while i < |s| && IsNumberChar(s[i])
      invariant start <= i <= |s|
      invariant i > start ==> Out(InNumber, s[start + 1..]) == Out(InNumber, s[i..])
    {
      assert i > start ==> s[i..][1..] == s[i + 1..];
      i := i + 1;
    }
  }

  method SkipSpaces(s: string, start: nat) returns (i: nat)
    requires start < |s| && IsSpace(s[start])
    ensures start < i <= |s|
    ensures Out(Top(false, true), s[start + 1..]) == Out(Top(false, true), s[i..])
  {
    i := start;
    while i < |s| && IsSpace(s[i])
      invariant start <= i <= |s|
      invariant i > start ==> Out(Top(false, true), s[start + 1..]) == Out(Top(false, true), s[i..])
    {
      assert i > start ==> s[i..][1..] == s[i + 1..];
      i := i + 1;
    }
  }

  // ----- composition -----

  lemma {:induction false} Compose(mode: Mode, p: string, q: string)
    ensures End(mode, p + q) == End(End(mode, p), q)
    ensures Out(mode, p + q) == Out(mode, p) + Out(End(mode, p), q)
    decreases |p|
  {
    if p == "" {
      assert p + q == q;
    } else {
      var (next, out) := Step(mode, p[0]);
      assert (p + q)[0] == p[0] && (p + q)[1..] == p[1..] + q;
      Compose(next, p[1..], q);
      var first, second := Out(next, p[1..]), Out(End(next, p[1..]), q);
      assert Out(mode, p + q) == out + (first + second);
      Regroup(out, first, second);
    }
  }

  lemma {:induction false} NeverLonger(mode: Mode, s: string)
    ensures |Out(mode, s)| <= |s|
    decreases |s|
  {
    if s != "" {
      NeverLonger(Step(mode, s[0]).0, s[1..]);
    }
  }

  lemma {:induction false} TrimEndTrims(s: string)
    ensures TrimEnd(s) <= s
    ensures TrimEnd(s) == "" || !Trimmable(TrimEnd(s)[|TrimEnd(s)| - 1])
  {
    if s != "" && Trimmable(s[|s| - 1]) {
      TrimEndTrims(s[..|s| - 1]);
    }
  }

  // ----- idempotence -----

  /** Modes the scanner reaches: blank only outside words, identifiers only in their quotes. */
  predicate Reachable(mode: Mode) {
    && (mode.Top? && mode.blank ==> !mode.word)
    && (mode.InIdent? ==> IsIdentQuote(mode.quote))
  }

  /** The mode in which the output so far leaves the scanner. */
  function Echo(mode: Mode): Mode {
    match mode
    case Top(_, _) => mode
    case InIdent(_) => mode
    case _ => Top(false, false)
  }

  lemma EchoStep(mode: Mode, c: char)
    requires Reachable(mode)
    ensures var (next, out) := Step(mode, c);
            && Reachable(next) && |out| <= 1
            && (out == "" ==> Echo(next) == Echo(mode))
            && (out != "" ==> Step(Echo(mode), out[0]) == (Echo(next), out))
  {
  }

  /** Scanning the scanner's own output emits it unchanged. */
  lemma {:induction false} OutputIsStable(mode: Mode, s: string)
    requires Reachable(mode)
    ensures Out(Echo(mode), Out(mode, s)) == Out(mode, s)
    decreases |s|
  {
    if s != "" {
      var (next, out) := Step(mode, s[0]);
      EchoStep(mode, s[0]);
      OutputIsStable(next, s[1..]);
      if out == "" {
        assert Out(mode, s) == Out(next, s[1..]);
      } else {
        assert Out(mode, s)[1..] == Out(next, s[1..]);
      }
    }
  }

  lemma PrefixIsStable(mode: Mode, s: string, k: nat)
    requires k <= |s| && Out(mode, s) == s
    ensures Out(mode, s[..k]) == s[..k]
  {
    Compose(mode, s[..k], s[k..]);
    assert s[..k] + s[k..] == s;
    NeverLonger(mode, s[..k]);
    NeverLonger(End(mode, s[..k]), s[k..]);
  }

  lemma NormalizeIdempotent(s: string)
    ensures Normalized(Normalized(s)) == Normalized(s)
    ensures |Normalized(s)| <= |s|
  {
    var raw := Out(START, s);
    NormalFormIsKept(s);
    TrimEndTrims(raw);
    TrimmedStays(Normalized(s));
    NeverLonger(START, s);
  }

  lemma TrimmedStays(s: string)
    requires s == "" || !Trimmable(s[|s| - 1])
    ensures TrimEnd(s) == s
  {
  }

  // ----- a second pass over re-encoded text -----

  /** The bytes of a text whose characters came from single bytes: two for each from 128 on
      (section 3 of RFC 3629). */
  function Utf8(s: string): string
    requires AllBytes(s)
  {
    if s == "" then "" else CharBytes(s[0]) + Utf8(s[1..])
  }

  predicate AllBytes(s: string) {
    forall i :: 0 <= i < |s| ==> s[i] as int < 256
  }

  predicate AllAscii(s: string) {
    forall i :: 0 <= i < |s| ==> s[i] as int < 128
  }

  function CharBytes(c: char): string
    requires c as int < 256
  {
    if c as int < 128 then [c] else [LeadByte(c), TailByte(c)]
  }

  function LeadByte(c: char): char
    requires 128 <= c as int < 256
  {
    (0xC0 + c as int / 64) as char
  }

  function TailByte(c: char): char
    requires 128 <= c as int < 256
  {
    (0x80 + c as int % 64) as char
  }

  /** How many characters are not ASCII. */
  function High(s: string): nat {
    if s == "" then 0 else (if s[0] as int >= 128 then 1 else 0) + High(s[1..])
  }

  lemma {:induction false} HighConcat(a: string, b: string)
    ensures High(a + b) == High(a) + High(b)
  {
    if a == "" {
      assert a + b == b;
    } else {
      assert (a + b)[1..] == a[1..] + b;
      HighConcat(a[1..], b);
    }
  }

  lemma {:induction false} NoneHigh(s: string)
    ensures High(s) == 0 <==> AllAscii(s)
  {
    if s != "" {
      NoneHigh(s[1..]);
      assert forall i :: 0 < i < |s| ==> s[i] == s[1..][i - 1];
    }
  }

  /** Characters whose second byte the scanner takes for white space. */
  predicate BlankTail(c: char) {
    128 <= c as int < 256 && IsSpace(TailByte(c))
  }

  predicate LeadOnly(s: string) {
    forall i :: 0 <= i < |s| && s[i] as int >= 128 ==> s[i] as int == 0xC2 || s[i] as int == 0xC3
  }

  predicate BlankTailsOnly(s: string) {
    forall i :: 0 <= i < |s| && s[i] as int >= 128 ==> BlankTail(s[i])
  }

  /** The scanner over the bytes may have just emitted a space where the one over the characters has not. */
  predicate InTune(mode: Mode, bytes: Mode) {
    bytes == mode || (mode == Top(false, false) && bytes == Top(false, true))
  }

  predicate Plain(mode: Mode) {
    Reachable(mode) && (mode.Top? || mode.InIdent?)
  }

  lemma OneChar(mode: Mode, c: char)
    ensures End(mode, [c]) == Step(mode, c).0 && Out(mode, [c]) == Step(mode, c).1
  {
    assert [c][1..] == "";
  }

  lemma TwoChars(mode: Mode, c: char, d: char)
    ensures End(mode, [c, d]) == Step(Step(mode, c).0, d).0
    ensures Out(mode, [c, d]) == Step(mode, c).1 + Step(Step(mode, c).0, d).1
  {
    assert [c, d][1..] == [d];
    OneChar(Step(mode, c).0, d);
  }

  lemma AsciiInTune(mode: Mode, bytes: Mode, c: char)
    requires Plain(mode) && InTune(mode, bytes) && Step(mode, c).1 == [c]
    ensures Plain(Step(mode, c).0) && InTune(Step(mode, c).0, Step(bytes, c).0)
  {
    EchoStep(mode, c);
  }

  /** The lead byte comes out as it is; the tail byte too, or as a space, or not at all. */
  lemma HighInTune(mode: Mode, bytes: Mode, c: char)
    requires Plain(mode) && InTune(mode, bytes) && 128 <= c as int < 256 && Step(mode, c).1 == [c]
    ensures var lead, next := Step(bytes, LeadByte(c)), Step(mode, c).0;
            var tail := Step(lead.0, TailByte(c));
            && lead.1 == [LeadByte(c)]
            && Plain(next) && InTune(next, tail.0)
            && (tail.1 == [TailByte(c)] || (BlankTail(c) && AllAscii(tail.1)))
  {
    EchoStep(mode, c);
  }

  /** One character kept as it is, and its bytes. */
  lemma CharInTune(mode: Mode, bytes: Mode, c: char)
    requires Plain(mode) && InTune(mode, bytes) && c as int < 256 && Step(mode, c).1 == [c]
    ensures var next, out := Step(mode, c).0, Out(bytes, CharBytes(c));
            && Plain(next) && InTune(next, End(bytes, CharBytes(c)))
            && High(out) >= High([c])
            && (High(out) == High([c]) ==> LeadOnly(out) && BlankTailsOnly([c]))
  {
    if c as int < 128 {
      OneChar(bytes, c);
      AsciiInTune(mode, bytes, c);
      NoneHigh([c]);
    } else {
      TwoChars(bytes, LeadByte(c), TailByte(c));
      HighInTune(mode, bytes, c);
      var tail := Step(Step(bytes, LeadByte(c)).0, TailByte(c)).1;
      HighConcat([LeadByte(c)], tail);
      NoneHigh(tail);
      assert High([c]) == High([LeadByte(c)]) == 1;
    }
  }

  /** Text the scanner keeps as it is: its bytes never come out with fewer non-ASCII characters, and with as
      many only where every second byte was taken for white space. */
  lemma {:induction false} BytesInTune(mode: Mode, bytes: Mode, s: string)
    requires Plain(mode) && InTune(mode, bytes) && AllBytes(s) && Out(mode, s) == s
    ensures High(Out(bytes, Utf8(s))) >= High(s)
    ensures High(Out(bytes, Utf8(s))) == High(s) ==> LeadOnly(Out(bytes, Utf8(s))) && BlankTailsOnly(s)
    decreases |s|
  {
    if s != "" {
      KeepsFirst(mode, s);
      CharInTune(mode, bytes, s[0]);
      var bytes' := End(bytes, CharBytes(s[0]));
      BytesInTune(Step(mode, s[0]).0, bytes', s[1..]);
      Compose(bytes, CharBytes(s[0]), Utf8(s[1..]));
      HighConcat(Out(bytes, CharBytes(s[0])), Out(bytes', Utf8(s[1..])));
      HighConcat([s[0]], s[1..]);
      assert s == [s[0]] + s[1..];
    }
  }

  lemma KeepsFirst(mode: Mode, s: string)
    requires s != "" && Plain(mode) && Out(mode, s) == s
    ensures Step(mode, s[0]).1 == [s[0]] && Out(Step(mode, s[0]).0, s[1..]) == s[1..]
  {
    NeverLonger(Step(mode, s[0]).0, s[1..]);
    EchoStep(mode, s[0]);
  }

  lemma {:induction false} AsciiIsItsBytes(s: string)
    requires AllAscii(s)
    ensures Utf8(s) == s
  {
    if s != "" {
      AsciiIsItsBytes(s[1..]);
      assert s == [s[0]] + s[1..];
    }
  }

  lemma {:induction false} EmitsBytes(mode: Mode, s: string)
    requires AllBytes(s)
    ensures AllBytes(Out(mode, s))
    decreases |s|
  {
    if s != "" {
      EmitsBytes(Step(mode, s[0]).0, s[1..]);
    }
  }

  lemma {:induction false} TrimKeepsHigh(s: string)
    ensures High(TrimEnd(s)) == High(s)
  {
    if s != "" && Trimmable(s[|s| - 1]) {
      TrimKeepsHigh(s[..|s| - 1]);
      HighConcat(s[..|s| - 1], [s[|s| - 1]]);
      assert s == s[..|s| - 1] + [s[|s| - 1]];
    }
  }

  lemma NormalFormIsKept(s: string)
    ensures Out(START, Normalized(s)) == Normalized(s)
  {
    var raw := Out(START, s);
    OutputIsStable(START, s);
    TrimEndTrims(raw);
    PrefixIsStable(START, raw, |TrimEnd(raw)|);
    assert raw[..|TrimEnd(raw)|] == TrimEnd(raw);
  }

  lemma LeadHasNoBlankTail(c: char)
    requires c as int == 0xC2 || c as int == 0xC3
    ensures !BlankTail(c)
  {
  }

  lemma FixedIsAscii(normal: string)
    requires AllBytes(normal) && Out(START, normal) == normal && Normalized(Utf8(normal)) == normal
    ensures AllAscii(normal)
  {
    var again := Out(START, Utf8(normal));
    BytesInTune(START, START, normal);
    TrimKeepsHigh(again);
    TrimEndTrims(again);
    forall i | 0 <= i < |normal| ensures normal[i] as int < 128 {
      assert again[i] == normal[i];
      if normal[i] as int == 0xC2 || normal[i] as int == 0xC3 {
        LeadHasNoBlankTail(normal[i]);
      }
    }
  }

  /** The normal form is a string, whose bytes are not those it was read from: normalizing it again gives it
      back exactly when it is ASCII. */
  lemma SecondPassIsIdentityIffAscii(s: string)
    requires AllBytes(s)
    ensures AllBytes(Normalized(s))
    ensures Normalized(Utf8(Normalized(s))) == Normalized(s) <==> AllAscii(Normalized(s))
  {
    var normal := Normalized(s);
    EmitsBytes(START, s);
    TrimEndTrims(Out(START, s));
    NormalFormIsKept(s);
    if AllAscii(normal) {
      AsciiIsItsBytes(normal);
      NormalizeIdempotent(s);
    } else if Normalized(Utf8(normal)) == normal {
      FixedIsAscii(normal);
    }
  }

  // ----- what the normal form ignores -----

  lemma {:induction false} OutIgnoresCase(mode: Mode, s: string, t: string)
    requires Reachable(mode) && LowerAll(s) == LowerAll(t)
    ensures Out(mode, s) == Out(mode, t)
    decreases |s|
  {
    assert |LowerAll(s)| == |s| == |t|;
    if s != "" {
      assert Lower(s[0]) == LowerAll(s)[0] == Lower(t[0]);
      EchoStep(mode, s[0]);
      assert Step(mode, s[0]) == Step(mode, t[0]);
      forall i | 0 <= i < |s| - 1 ensures LowerAll(s[1..])[i] == LowerAll(t[1..])[i] {
        assert LowerAll(s)[i + 1] == LowerAll(t)[i + 1];
      }
      OutIgnoresCase(Step(mode, s[0]).0, s[1..], t[1..]);
    }
  }

  lemma NormalizeIgnoresCase(s: string, t: string)
    requires LowerAll(s) == LowerAll(t)
    ensures Normalized(s) == Normalized(t)
  {
    OutIgnoresCase(START, s, t);
  }

  /** After `p` the scanner is neither inside a string nor inside a quoted identifier. */
  predicate OutsideQuotes(p: string) {
    !End(START, p).InString? && !End(START, p).InIdent?
  }

  predicate SpaceRun(s: string) {
    s != "" && forall i :: 0 <= i < |s| ==> IsSpace(s[i])
  }

  lemma {:induction false} SpaceRunStep(mode: Mode, run: string)
    requires SpaceRun(run) && !mode.InString? && !mode.InIdent?
    ensures End(mode, run) == Top(false, true)
    ensures Out(mode, run) == if mode.Top? && mode.blank then "" else " "
    decreases |run|
  {
    if |run| > 1 {
      SpaceRunStep(Step(mode, run[0]).0, run[1..]);
    } else {
      assert run[1..] == "";
    }
  }

  /** Outside quotes any two whitespace runs are the same. */
  lemma NormalizeIgnoresRunLength(p: string, run: string, run': string, q: string)
    requires OutsideQuotes(p) && SpaceRun(run) && SpaceRun(run')
    ensures Normalized(p + run + q) == Normalized(p + run' + q)
  {
    var mode := End(START, p);
    SpaceRunStep(mode, run);
    SpaceRunStep(mode, run');
    Compose(START, p, run);
    Compose(START, p, run');
    Compose(START, p + run, q);
    Compose(START, p + run', q);
  }

  lemma {:induction false} TrimmableTail(mode: Mode, tail: string)
    requires forall i :: 0 <= i < |tail| ==> Trimmable(tail[i])
    ensures forall i :: 0 <= i < |Out(mode, tail)| ==> Trimmable(Out(mode, tail)[i])
    decreases |tail|
  {
    if tail != "" {
      TrimmableTail(Step(mode, tail[0]).0, tail[1..]);
    }
  }

  lemma {:induction false} TrimEndIgnoresTail(s: string, tail: string)
    requires forall i :: 0 <= i < |tail| ==> Trimmable(tail[i])
    ensures TrimEnd(s + tail) == TrimEnd(s)
    decreases |tail|
  {
    if tail == "" {
      assert s + tail == s;
    } else {
      var short := tail[..|tail| - 1];
      assert (s + tail)[..|s + tail| - 1] == s + short;
      TrimEndIgnoresTail(s, short);
    }
  }

  /** Trailing semicolons and spaces never matter, wherever the statement ends. */
  lemma NormalizeIgnoresTrailing(s: string, tail: string)
    requires forall i :: 0 <= i < |tail| ==> Trimmable(tail[i])
    ensures Normalized(s + tail) == Normalized(s)
  {
    Compose(START, s, tail);
    TrimmableTail(End(START, s), tail);
    TrimEndIgnoresTail(Out(START, s), Out(End(START, s), tail));
  }

  // ----- literals -----

  /** The inside of a string literal: every quote is doubled. */
  predicate QuotesDoubled(body: string) {
    body == "" ||
    (if body[0] == '\'' then |body| > 1 && body[1] == '\'' && QuotesDoubled(body[2..]) else QuotesDoubled(body[1..]))
  }

  predicate IsStringLiteral(s: string) {
    |s| >= 2 && s[0] == '\'' && s[|s| - 1] == '\'' && QuotesDoubled(s[1..|s| - 1])
  }

  predicate IsNumberLiteral(s: string) {
    s != "" && IsDigit(s[0]) && forall i :: 0 <= i < |s| ==> IsNumberChar(s[i])
  }

  /** `s` is a whole literal token between `p` and `q`: nothing before it makes it part of a
      word, a number or a string, and nothing after it prolongs it. */
  predicate LiteralBetween(p: string, s: string, q: string) {
    var mode := End(START, p);
    || (&& IsStringLiteral(s) && (mode.Top? || mode.InNumber?)
        && (q == "" || q[0] != '\''))
    || (&& IsNumberLiteral(s) && (mode.StringQuote? || (mode.Top? && !mode.word))
        && (q == "" || !IsNumberChar(q[0])))
  }

  lemma {:induction false} StringBody(body: string)
    requires QuotesDoubled(body)
    ensures End(InString, body) == InString && Out(InString, body) == ""
  {
    if body != "" {
      if body[0] == '\'' {
        assert body[1..][1..] == body[2..];
        StringBody(body[2..]);
      } else {
        StringBody(body[1..]);
      }
    }
  }

  lemma {:induction false} NumberBody(body: string)
    requires forall i :: 0 <= i < |body| ==> IsNumberChar(body[i])
    ensures End(InNumber, body) == InNumber && Out(InNumber, body) == ""
  {
    if body != "" {
      NumberBody(body[1..]);
    }
  }

  lemma LiteralBecomesMark(p: string, s: string, q: string)
    requires LiteralBetween(p, s, q)
    ensures Out(START, p + s + q) == Out(START, p) + "?" + Out(Top(false, false), q)
  {
    var mode := End(START, p);
    Compose(START, p, s);
    Compose(START, p + s, q);
    if IsStringLiteral(s) && (mode.Top? || mode.InNumber?) && (q == "" || q[0] != '\'') {
      var body := s[1..|s| - 1];
      assert s[1..] == body + "'";
      StringBody(body);
      Compose(InString, body, "'");
      assert End(mode, s) == StringQuote && Out(mode, s) == "?";
    } else {
      NumberBody(s[1..]);
      assert End(mode, s) == InNumber && Out(mode, s) == "?";
    }
  }

  /** One literal token for another leaves the normal form as it was. */
  lemma NormalizeIgnoresLiterals(p: string, s: string, s': string, q: string)
    requires LiteralBetween(p, s, q) && LiteralBetween(p, s', q)
    ensures Normalized(p + s + q) == Normalized(p + s' + q)
  {
    LiteralBecomesMark(p, s, q);
    LiteralBecomesMark(p, s', q);
  }

  // ----- what the normal form keeps -----

  predicate WordChars(s: string) {
    forall i :: 0 <= i < |s| ==> IsWordChar(s[i])
  }

  lemma LowerHead(s: string)
    requires s != ""
    ensures LowerAll(s) == [Lower(s[0])] + LowerAll(s[1..])
  {
  }

  lemma Regroup(a: string, b: string, c: string)
    ensures a + (b + c) == a + b + c
  {
  }

  /** What continues a word, digits included, is part of the shape. */
  lemma {:induction false} WordContinues(word: string, q: string)
    requires WordChars(word)
    ensures Out(Top(true, false), word + q) == LowerAll(word) + Out(Top(true, false), q)
  {
    if word == "" {
      assert word + q == q;
    } else {
      assert (word + q)[1..] == word[1..] + q;
      WordContinues(word[1..], q);
      LowerHead(word);
      Regroup([Lower(word[0])], LowerAll(word[1..]), Out(Top(true, false), q));
    }
  }

  /** A word is kept, its case folded. */
  lemma WordKept(p: string, word: string, q: string)
    requires word != "" && WordChars(word) && !IsDigit(word[0])
    requires End(START, p).Top? || End(START, p).StringQuote?
    ensures Out(START, p + (word + q)) == Out(START, p) + (LowerAll(word) + Out(Top(true, false), q))
  {
    Compose(START, p, word + q);
    WordStarts(End(START, p), word, q);
  }

  lemma WordStarts(mode: Mode, word: string, q: string)
    requires word != "" && WordChars(word) && !IsDigit(word[0]) && (mode.Top? || mode.StringQuote?)
    ensures Out(mode, word + q) == LowerAll(word) + Out(Top(true, false), q)
  {
    assert (word + q)[1..] == word[1..] + q;
    WordContinues(word[1..], q);
    LowerHead(word);
    Regroup([Lower(word[0])], LowerAll(word[1..]), Out(Top(true, false), q));
  }

  /** The quoted text after its opening quote. */
  lemma {:induction false} IdentBody(quote: char, body: string, q: string)
    requires IsIdentQuote(quote) && quote !in body
    ensures Out(InIdent(quote), body + ([quote] + q)) == LowerAll(body) + ([quote] + Out(Top(true, false), q))
  {
    var tail := [quote] + q;
    assert tail[1..] == q;
    if body == "" {
      assert body + tail == tail;
    } else {
      assert (body + tail)[1..] == body[1..] + tail;
      IdentBody(quote, body[1..], q);
      LowerHead(body);
      Regroup([Lower(body[0])], LowerAll(body[1..]), [quote] + Out(Top(true, false), q));
    }
  }

  /** A quoted identifier is kept whole, quotes, spaces and all, its case folded. */
  lemma QuotedIdentifierKept(p: string, quote: char, body: string, q: string)
    requires OutsideQuotes(p) && IsIdentQuote(quote) && quote !in body
    ensures Out(START, p + ([quote] + (body + ([quote] + q))))
            == Out(START, p) + ([quote] + (LowerAll(body) + ([quote] + Out(Top(true, false), q))))
  {
    var rest := body + ([quote] + q);
    Compose(START, p, [quote] + rest);
    assert ([quote] + rest)[1..] == rest;
    IdentBody(quote, body, q);
  }

  /** Any other character stands for itself. */
  lemma PunctuationKept(p: string, c: char, q: string)
    requires OutsideQuotes(p) && !IsWordChar(c) && !IsSpace(c) && c != '\'' && !IsIdentQuote(c)
    requires End(START, p).InNumber? ==> c != '.'
    ensures Out(START, p + [c] + q) == Out(START, p) + [c] + Out(Top(false, false), q)
  {
    assert p + [c] + q == p + ([c] + q) && ([c] + q)[1..] == q;
    Compose(START, p, [c] + q);
  }

  // ----- the characters themselves -----

  /** A name in double quotes, or in backticks, is kept whole, its case folded. */
  lemma QuotedNameKept(p: string, body: string, q: string)
    requires OutsideQuotes(p)
    ensures '"' !in body ==>
              Out(START, p + (['"'] + (body + (['"'] + q))))
              == Out(START, p) + (['"'] + (LowerAll(body) + (['"'] + Out(Top(true, false), q))))
    ensures '`' !in body ==>
              Out(START, p + (['`'] + (body + (['`'] + q))))
              == Out(START, p) + (['`'] + (LowerAll(body) + (['`'] + Out(Top(true, false), q))))
  {
    if '"' !in body {
      QuotedIdentifierKept(p, '"', body, q);
    }
    if '`' !in body {
      QuotedIdentifierKept(p, '`', body, q);
    }
  }

  /** What one character does outside quotes, literals and words, by its code: an apostrophe opens a literal, a
      double quote or a backtick a name, a digit a literal; white space is one space unless there is one already;
      an upper-case letter is folded and everything else kept. Letters, digits and underscores go on as a word. */
  lemma OneCharacter(c: char, blank: bool)
    requires c as int < 256
    ensures var (next, out) := Step(Top(false, blank), c);
            var code := c as int;
            if code == 39 then next == InString && out == "?"
            else if code == 34 || code == 96 then next == InIdent(c) && out == [c]
            else if 48 <= code <= 57 then next == InNumber && out == "?"
            else if 9 <= code <= 13 || code == 32 || code == 0x85 || code == 0xA0 then
              next == Top(false, true) && out == (if blank then "" else " ")
            else if 65 <= code <= 90 then next == Top(true, false) && out == [(code + 32) as char]
            else next == Top(97 <= code <= 122 || code == 95, false) && out == [c]
  {
  }

  /** Inside a word digits are kept; a number goes on over digits, letters, dots and underscores. */
  lemma GoesOn(c: char, blank: bool)
    requires c as int < 256
    ensures 48 <= c as int <= 57 ==> Step(Top(true, blank), c) == (Top(true, false), [c])
    ensures var code := c as int;
            Step(InNumber, c) == (InNumber, "") <==>
            48 <= code <= 57 || 65 <= code <= 90 || 97 <= code <= 122 || code == 46 || code == 95
    ensures Step(InString, c) == (if c as int == 39 then StringQuote else InString, "")
    ensures Step(StringQuote, '\'') == (InString, "")
  {
  }

  /** Trailing semicolons and spaces go, and nothing else does. */
  lemma TrimmedExactly(s: string)
    ensures s != "" && s[|s| - 1] != ' ' && s[|s| - 1] != ';' ==> TrimEnd(s) == s
    ensures TrimEnd(s + ";") == TrimEnd(s) && TrimEnd(s + " ") == TrimEnd(s)
  {
    assert (s + ";")[..|s|] == s && (s + " ")[..|s|] == s;
  }
}
