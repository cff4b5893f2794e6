/** `statement_fingerprint`: the bytes fed to the hasher, and that they determine the request shape.
    The SHA-256 digest is identified with its input. */
module Fingerprint {
  import opened AuthTypes
  import opened Normalize

  type Fingerprint = string

  const NUL: char := 0 as char
  const SOH: char := 1 as char

  // ----- what is hashed -----

  /** Parts joined by a one-character separator. */
  function JoinWith(parts: seq<string>, separator: char): string
    requires parts != []
  {
    if |parts| == 1 then parts[0]
    else parts[0] + [separator] + JoinWith(parts[1..], separator)
  }

  function TableText(use: TableUse): string {
    JoinWith([use.table] + use.columns, SOH)
  }

  function TableTexts(tables: seq<TableUse>): (texts: seq<string>)
    ensures |texts| == |tables|
  {
    seq(|tables|, i requires 0 <= i < |tables| => TableText(tables[i]))
  }

  function HashInput(action: string, normal: string, footprint: Footprint): string {
    JoinWith([action, normal, footprint.kind.Name()] + TableTexts(footprint.tables), NUL)
  }

  function KeyOf(request: Request): Fingerprint {
    HashInput(request.action, Normalized(request.statement), request.footprint)
  }

  /** The hasher's updates, one by one; `fed` is everything it has been given. */
  method StatementFingerprint(action: string, statement: string, footprint: Footprint) returns (fed: string)
    ensures fed == HashInput(action, Normalized(statement), footprint)
  {
    var normal := NormalizeStatement(statement);
    fed := action;
    fed := fed + [NUL];
    fed := fed + normal;
    fed := fed + [NUL];
    fed := fed + footprint.kind.Name();
    ghost var head := [action, normal, footprint.kind.Name()];
    ghost var texts := TableTexts(footprint.tables);
    JoinSnoc([action], normal, NUL);
    JoinSnoc([action, normal], footprint.kind.Name(), NUL);
    assert [action] + [normal] == [action, normal] && [action, normal] + [footprint.kind.Name()] == head;
    assert head + texts[..0] == head;
    for i := 0 to |footprint.tables|
      invariant fed == JoinWith(head + texts[..i], NUL)
    {
      var use := footprint.tables[i];
      ghost var before := fed;
      fed := fed + [NUL];
      fed := fed + use.table;
      for j := 0 to |use.columns|
        invariant fed == before + [NUL] + JoinWith([use.table] + use.columns[..j], SOH)
      {
        fed := fed + [SOH];
        fed := fed + use.columns[j];
        JoinSnoc([use.table] + use.columns[..j], use.columns[j], SOH);
        assert [use.table] + use.columns[..j] + [use.columns[j]] == [use.table] + use.columns[..j + 1];
      }
      assert use.columns[..|use.columns|] == use.columns;
      JoinSnoc(head + texts[..i], texts[i], NUL);
      assert head + texts[..i] + [texts[i]] == head + texts[..i + 1];
    }
    assert texts[..|footprint.tables|] == texts;
  }

  lemma {:induction false} JoinSnoc(parts: seq<string>, part: string, separator: char)
    requires parts != []
    ensures JoinWith(parts + [part], separator) == JoinWith(parts, separator) + [separator] + part
  {
    if |parts| == 1 {
      assert (parts + [part])[1..] == [part];
    } else {
      assert (parts + [part])[1..] == parts[1..] + [part];
      JoinSnoc(parts[1..], part, separator);
    }
  }

  // ----- decoding -----

  function SplitAt(text: string, separator: char): (parts: seq<string>)
    ensures parts != []
  {
    if text == "" then [""]
    else
      var rest := SplitAt(text[1..], separator);
      if text[0] == separator then [""] + rest
      else [[text[0]] + rest[0]] + rest[1..]
  }

  predicate Free(text: string, separator: char) {
    separator !in text
  }

  lemma {:induction false} SplitHead(head: string, rest: string, separator: char)
    requires Free(head, separator)
    ensures SplitAt(head + [separator] + rest, separator) == [head] + SplitAt(rest, separator)
  {
    if head == "" {
      assert head + [separator] + rest == [separator] + rest;
      assert ([separator] + rest)[1..] == rest;
    } else {
      assert (head + [separator] + rest)[1..] == head[1..] + [separator] + rest;
      SplitHead(head[1..], rest, separator);
      assert [head[0]] + head[1..] == head;
    }
  }

  lemma {:induction false} SplitWhole(text: string, separator: char)
    requires Free(text, separator)
    ensures SplitAt(text, separator) == [text]
  {
    if text != "" {
      SplitWhole(text[1..], separator);
      assert [text[0]] + text[1..] == text;
    }
  }

  lemma {:induction false} SplitJoined(parts: seq<string>, separator: char)
    requires parts != [] && forall i :: 0 <= i < |parts| ==> Free(parts[i], separator)
    ensures SplitAt(JoinWith(parts, separator), separator) == parts
  {
    if |parts| == 1 {
      SplitWhole(parts[0], separator);
    } else {
      SplitHead(parts[0], JoinWith(parts[1..], separator), separator);
      SplitJoined(parts[1..], separator);
    }
  }

  lemma {:induction false} JoinFree(parts: seq<string>, separator: char, c: char)
    requires parts != [] && c != separator && forall i :: 0 <= i < |parts| ==> Free(parts[i], c)
    ensures Free(JoinWith(parts, separator), c)
  {
    if |parts| > 1 {
      JoinFree(parts[1..], separator, c);
    }
  }

  function KindNamed(name: string): ActionKind {
    if name == "read" then Read else if name == "write" then Write else Other
  }

  function TableOf(text: string): TableUse {
    var parts := SplitAt(text, SOH);
    TableUse(parts[0], parts[1..])
  }

  datatype Shape = Shape(action: string, normal: string, kind: ActionKind, tables: seq<TableUse>)

  function Decode(input: string): Option<Shape> {
    ShapeOf(SplitAt(input, NUL))
  }

  function ShapeOf(parts: seq<string>): Option<Shape> {
    if |parts| < 3 then None
    else Some(Shape(parts[0], parts[1], KindNamed(parts[2]),
                    seq(|parts| - 3, i requires 0 <= i < |parts| - 3 => TableOf(parts[i + 3]))))
  }

  /** Names as SQLite holds them: no byte 0 or 1 inside. */
  predicate PlainName(name: string) {
    Free(name, NUL) && Free(name, SOH)
  }

  predicate PlainNames(footprint: Footprint) {
    forall i :: 0 <= i < |footprint.tables| ==>
      PlainName(footprint.tables[i].table)
      && forall j :: 0 <= j < |footprint.tables[i].columns| ==> PlainName(footprint.tables[i].columns[j])
  }

  lemma TableTextDecodes(use: TableUse)
    requires PlainName(use.table) && forall j :: 0 <= j < |use.columns| ==> PlainName(use.columns[j])
    ensures TableOf(TableText(use)) == use && Free(TableText(use), NUL)
  {
    SplitJoined([use.table] + use.columns, SOH);
    JoinFree([use.table] + use.columns, SOH, NUL);
  }

  /** The hashed bytes can be read back. */
  lemma HashInputDecodes(action: string, normal: string, footprint: Footprint)
    requires Free(action, NUL) && Free(normal, NUL) && PlainNames(footprint)
    ensures Decode(HashInput(action, normal, footprint)) == Some(Shape(action, normal, footprint.kind, footprint.tables))
  {
    var texts := TableTexts(footprint.tables);
    forall i | 0 <= i < |texts|
      ensures Free(texts[i], NUL) && TableOf(texts[i]) == footprint.tables[i]
    {
      TableTextDecodes(footprint.tables[i]);
    }
    KindDecodes(footprint.kind);
    SplitJoined([action, normal, footprint.kind.Name()] + texts, NUL);
    PartsDecode(action, normal, footprint.kind, texts, footprint.tables);
  }

  lemma PartsDecode(action: string, normal: string, kind: ActionKind, texts: seq<string>, tables: seq<TableUse>)
    requires |texts| == |tables| && forall i :: 0 <= i < |texts| ==> TableOf(texts[i]) == tables[i]
    ensures ShapeOf([action, normal, kind.Name()] + texts) == Some(Shape(action, normal, kind, tables))
  {
    var parts := [action, normal, kind.Name()] + texts;
    KindDecodes(kind);
    assert seq(|parts| - 3, i requires 0 <= i < |parts| - 3 => TableOf(parts[i + 3])) == tables by {
      assert forall i :: 0 <= i < |texts| ==> parts[i + 3] == texts[i];
    }
  }

  lemma KindDecodes(kind: ActionKind)
    ensures Free(kind.Name(), NUL) && KindNamed(kind.Name()) == kind
  {
  }

  lemma {:induction false} OutKeepsFree(mode: Mode, s: string)
    requires Free(s, NUL) && (mode.InIdent? ==> mode.quote != NUL)
    ensures Free(Out(mode, s), NUL)
    decreases |s|
  {
    if s != "" {
      OutKeepsFree(Step(mode, s[0]).0, s[1..]);
    }
  }

  /** Two requests share a cache key exactly when they have the same shape. */
  lemma SameKeyIffSameShape(a: Request, b: Request)
    requires Free(a.action, NUL) && Free(a.statement, NUL) && PlainNames(a.footprint)
    requires Free(b.action, NUL) && Free(b.statement, NUL) && PlainNames(b.footprint)
    ensures KeyOf(a) == KeyOf(b) <==>
            && a.action == b.action && Normalized(a.statement) == Normalized(b.statement)
            && a.footprint.kind == b.footprint.kind && a.footprint.tables == b.footprint.tables
  {
    NormalFree(a.statement);
    NormalFree(b.statement);
    HashInputDecodes(a.action, Normalized(a.statement), a.footprint);
    HashInputDecodes(b.action, Normalized(b.statement), b.footprint);
  }

  lemma NormalFree(s: string)
    requires Free(s, NUL)
    ensures Free(Normalized(s), NUL)
  {
    OutKeepsFree(START, s);
    TrimEndTrims(Out(START, s));
  }

  /** Why names must be plain: a separator inside a table name forges a column. */
  lemma SeparatorInNameCollides()
    ensures TableText(TableUse("a" + [SOH] + "b", [])) == TableText(TableUse("a", ["b"]))
  {
    assert ["a"] + ["b"] == ["a", "b"];
    assert JoinWith(["a", "b"], SOH) == "a" + [SOH] + JoinWith(["b"], SOH);
  }

  /** The hashed bytes spelled out for one table of two columns: bytes 0 between the parts, bytes 1 between the names. */
  lemma HashInputSpelledOut(action: string, normal: string, table: string, a: string, b: string)
    ensures HashInput(action, normal, Footprint(Write, [TableUse(table, [a, b])], [])) ==
            action + [0 as char] + (normal + [0 as char] + ("write" + [0 as char]
            + (table + [1 as char] + (a + [1 as char] + b))))
  {
    var footprint := Footprint(Write, [TableUse(table, [a, b])], []);
    var text := TableText(footprint.tables[0]);
    assert [table] + [a, b] == [table, a, b];
    JoinTwo(a, b, SOH);
    assert [table, a, b][1..] == [a, b];
    assert text == table + [SOH] + (a + [SOH] + b);
    assert TableTexts(footprint.tables) == [text];
    assert [action, normal, "write"] + [text] == [action, normal, "write", text];
    JoinTwo("write", text, NUL);
    assert [normal, "write", text][1..] == ["write", text];
    assert JoinWith([normal, "write", text], NUL) == normal + [NUL] + ("write" + [NUL] + text);
    assert [action, normal, "write", text][1..] == [normal, "write", text];
  }

  lemma JoinTwo(a: string, b: string, separator: char)
    ensures JoinWith([a, b], separator) == a + [separator] + b
  {
    assert [a, b][1..] == [b];
  }

  lemma KindNames()
    ensures Read.Name() == "read" && Write.Name() == "write" && Other.Name() == "other"
  {
  }
}
