/** Fetching a page: the response frames collected, sorted by sequence number and checked for size. */
module PageFetch {
  import opened AuthTypes

  type Bytes = seq<char>

  datatype Chunk = Chunk(number: int, data: Bytes)

  /** A response frame. A hologram's properties may each be missing, and its size may not parse;
      a chunk's base64 may not decode. */
  datatype Frame =
    | Hologram(contentType: Option<string>, size: Option<Option<nat>>)
    | ChunkFrame(number: int, data: Option<Bytes>)
    | OtherGeneric
    | ResultHeader
    | Done
    | DeniedFrame(reason: string)
    | ErrorFrame(code: string)

  datatype Outcome = Page(contentType: string, bytes: Bytes) | DeniedPage(reason: string) | FailedPage(code: string)

  datatype FetchError = OutOfOrder | BadBase64 | SizeMismatch(declared: nat, got: nat) | NoTerminal

  datatype Fetched = Fetched(outcome: Outcome) | Broken(error: FetchError)

  // ----- the response reader -----

  datatype Reader = AwaitHeader | Rows | Generics | Finished

  /** Whether a frame may come in this state, and the state after it. */
  function Accept(reader: Reader, frame: Frame): Option<Reader> {
    match frame
    case Hologram(_, _) => if reader.AwaitHeader? || reader.Generics? then Some(Generics) else None
    case ChunkFrame(_, _) => if reader.AwaitHeader? || reader.Generics? then Some(Generics) else None
    case OtherGeneric => if reader.AwaitHeader? || reader.Generics? then Some(Generics) else None
    case ResultHeader => if reader.AwaitHeader? then Some(Rows) else None
    case Done => if reader.Rows? || reader.Generics? then Some(Finished) else None
    case DeniedFrame(_) => if reader.AwaitHeader? then Some(Finished) else None
    case ErrorFrame(_) => if reader.Finished? then None else Some(Finished)
  }

  // ----- sorting by sequence number -----

  predicate Sorted(chunks: seq<Chunk>) {
    forall i, j :: 0 <= i < j < |chunks| ==> chunks[i].number <= chunks[j].number
  }

  predicate DistinctNumbers(chunks: seq<Chunk>) {
    forall i, j :: 0 <= i < j < |chunks| ==> chunks[i].number != chunks[j].number
  }

  function Insert(sorted: seq<Chunk>, chunk: Chunk): seq<Chunk> {
    if sorted == [] then [chunk]
    else if chunk.number < sorted[0].number then [chunk] + sorted
    else [sorted[0]] + Insert(sorted[1..], chunk)
  }

  /** `sort_by_key`: stable, equal keys keep their order of arrival. */
  function SortByNumber(chunks: seq<Chunk>): seq<Chunk> {
    if chunks == [] then [] else Insert(SortByNumber(chunks[..|chunks| - 1]), chunks[|chunks| - 1])
  }

  function Joined(chunks: seq<Chunk>): Bytes {
    if chunks == [] then [] else chunks[0].data + Joined(chunks[1..])
  }

  lemma {:induction false} InsertAdds(sorted: seq<Chunk>, chunk: Chunk)
    ensures multiset(Insert(sorted, chunk)) == multiset(sorted) + multiset{chunk}
  {
    if sorted != [] && chunk.number >= sorted[0].number {
      InsertAdds(sorted[1..], chunk);
      TailOf(sorted);
    }
  }

  lemma {:induction false} InsertSorted(sorted: seq<Chunk>, chunk: Chunk)
    requires Sorted(sorted)
    ensures Sorted(Insert(sorted, chunk))
  {
    if sorted != [] && chunk.number >= sorted[0].number {
      InsertSorted(sorted[1..], chunk);
      InsertAdds(sorted[1..], chunk);
      var rest := Insert(sorted[1..], chunk);
      forall i | 0 <= i < |rest| ensures sorted[0].number <= rest[i].number {
        assert rest[i] in multiset(rest);
        assert rest[i] == chunk || rest[i] in sorted[1..];
      }
    }
  }

  lemma TailOf(a: seq<Chunk>)
    requires a != []
    ensures multiset(a) == multiset{a[0]} + multiset(a[1..])
  {
    assert a == [a[0]] + a[1..];
  }

  lemma {:induction false} SortSorts(chunks: seq<Chunk>)
    ensures Sorted(SortByNumber(chunks)) && multiset(SortByNumber(chunks)) == multiset(chunks)
  {
    if chunks != [] {
      SortSorts(chunks[..|chunks| - 1]);
      InsertAdds(SortByNumber(chunks[..|chunks| - 1]), chunks[|chunks| - 1]);
      InsertSorted(SortByNumber(chunks[..|chunks| - 1]), chunks[|chunks| - 1]);
      assert chunks == chunks[..|chunks| - 1] + [chunks[|chunks| - 1]];
    }
  }

  /** The chunks of one number, in order. */
  function Numbered(chunks: seq<Chunk>, number: int): seq<Chunk> {
    if chunks == [] then []
    else (if chunks[0].number == number then [chunks[0]] else []) + Numbered(chunks[1..], number)
  }

  lemma {:induction false} NumberedSnoc(chunks: seq<Chunk>, last: Chunk, number: int)
    ensures Numbered(chunks + [last], number) == Numbered(chunks, number) + Numbered([last], number)
  {
    if chunks == [] {
      assert chunks + [last] == [last];
      assert [] + Numbered([last], number) == Numbered([last], number);
    } else {
      var longer := chunks + [last];
      var head := if chunks[0].number == number then [chunks[0]] else [];
      assert longer[0] == chunks[0] && longer[1..] == chunks[1..] + [last];
      NumberedSnoc(chunks[1..], last, number);
      assert head + (Numbered(chunks[1..], number) + Numbered([last], number))
          == (head + Numbered(chunks[1..], number)) + Numbered([last], number);
    }
  }

  lemma {:induction false} NoneNumbered(chunks: seq<Chunk>, number: int)
    requires forall i :: 0 <= i < |chunks| ==> chunks[i].number > number
    ensures Numbered(chunks, number) == []
  {
    if chunks != [] {
      NoneNumbered(chunks[1..], number);
    }
  }

  lemma {:induction false} InsertIsLast(sorted: seq<Chunk>, chunk: Chunk, number: int)
    requires Sorted(sorted)
    ensures Numbered(Insert(sorted, chunk), number) == Numbered(sorted, number) + Numbered([chunk], number)
  {
    var inserted := Insert(sorted, chunk);
    if sorted != [] && chunk.number >= sorted[0].number {
      var head := if sorted[0].number == number then [sorted[0]] else [];
      InsertIsLast(sorted[1..], chunk, number);
      assert inserted[0] == sorted[0] && inserted[1..] == Insert(sorted[1..], chunk);
      assert head + (Numbered(sorted[1..], number) + Numbered([chunk], number))
          == (head + Numbered(sorted[1..], number)) + Numbered([chunk], number);
    } else {
      assert inserted[0] == chunk && inserted[1..] == sorted;
      if chunk.number == number {
        NoneNumbered(sorted, number);
      }
    }
  }

  /** Chunks of one number keep their order of arrival. */
  lemma {:induction false} SortIsStable(chunks: seq<Chunk>, number: int)
    ensures Numbered(SortByNumber(chunks), number) == Numbered(chunks, number)
  {
    if chunks != [] {
      var front, last := chunks[..|chunks| - 1], chunks[|chunks| - 1];
      var sorted := SortByNumber(front);
      assert SortByNumber(chunks) == Insert(sorted, last);
      SortIsStable(front, number);
      SortSorts(front);
      InsertIsLast(sorted, last, number);
      NumberedSnoc(front, last, number);
      assert front + [last] == chunks;
    }
  }

  lemma SameHead(a: seq<Chunk>, b: seq<Chunk>)
    requires Sorted(a) && Sorted(b) && multiset(a) == multiset(b) && DistinctNumbers(a) && a != [] && b != []
    ensures a[0] == b[0]
  {
    assert a[0] in multiset(b) && b[0] in multiset(a);
    var j :| 0 <= j < |b| && b[j] == a[0];
    var i :| 0 <= i < |a| && a[i] == b[0];
    assert a[0].number == a[i].number;
  }

  lemma SameLength(a: seq<Chunk>, b: seq<Chunk>)
    requires multiset(a) == multiset(b)
    ensures |a| == |b|
  {
    assert |multiset(a)| == |a| && |multiset(b)| == |b|;
  }

  lemma SameTails(a: seq<Chunk>, b: seq<Chunk>)
    requires Sorted(a) && Sorted(b) && multiset(a) == multiset(b) && DistinctNumbers(a) && a != [] && b != []
    ensures a[0] == b[0] && multiset(a[1..]) == multiset(b[1..])
  {
    SameHead(a, b);
    TailOf(a);
    TailOf(b);
    assert multiset(a[1..]) == multiset(a) - multiset{a[0]};
    assert multiset(b[1..]) == multiset(b) - multiset{b[0]};
  }

  /** Two sorted arrangements of the same distinct numbers are the same. */
  lemma {:induction false} SortedIsUnique(a: seq<Chunk>, b: seq<Chunk>)
    requires Sorted(a) && Sorted(b) && multiset(a) == multiset(b) && DistinctNumbers(a)
    ensures a == b
  {
    SameLength(a, b);
    if a != [] {
      SameTails(a, b);
      SortedIsUnique(a[1..], b[1..]);
      assert a == [a[0]] + a[1..] && b == [b[0]] + b[1..];
    }
  }

  /** In whatever order the parts arrive, sorting puts them back. */
  lemma SortRestores(arrived: seq<Chunk>, parts: seq<Chunk>)
    requires multiset(arrived) == multiset(parts) && Sorted(parts) && DistinctNumbers(parts)
    ensures SortByNumber(arrived) == parts
  {
    SortSorts(arrived);
    SortedIsUnique(parts, SortByNumber(arrived));
  }

  // ----- collecting a response -----

  /** What has been collected so far. */
  datatype Collected = Collected(reader: Reader, contentType: string, declared: Option<nat>, chunks: seq<Chunk>,
                                 terminal: Option<Outcome>)

  const START := Collected(AwaitHeader, "text/html; charset=utf-8", None, [], None)

  datatype Progress = Going(so_far: Collected) | Stopped(error: FetchError)

  function Assemble(c: Collected): Fetched {
    var bytes := Joined(SortByNumber(c.chunks));
    if c.declared.Some? && c.declared.value != |bytes| then Broken(SizeMismatch(c.declared.value, |bytes|))
    else Fetched(Page(c.contentType, bytes))
  }

  function Take(c: Collected, frame: Frame): Progress {
    var next := Accept(c.reader, frame);
    if next.None? then Stopped(OutOfOrder)
    else
      var c' := c.(reader := next.value);
      match frame
      case Hologram(contentType, size) =>
        Going(c'.(contentType := if contentType.Some? then contentType.value else c.contentType,
                  declared := if size.Some? then size.value else c.declared))
      case ChunkFrame(number, data) =>
        if data.None? then Stopped(BadBase64) else Going(c'.(chunks := c.chunks + [Chunk(number, data.value)]))
      case OtherGeneric => Going(c')
      case ResultHeader => Going(c')
      case Done =>
        (match Assemble(c)
         case Broken(error) => Stopped(error)
         case Fetched(outcome) => Going(c'.(terminal := Some(outcome))))
      case DeniedFrame(reason) => Going(c'.(terminal := Some(DeniedPage(reason))))
      case ErrorFrame(code) => Going(c'.(terminal := Some(FailedPage(code))))
  }

  function TakeAll(c: Collected, frames: seq<Frame>): Progress
    decreases |frames|
  {
    if frames == [] then Going(c)
    else match Take(c, frames[0])
      case Stopped(error) => Stopped(error)
      case Going(next) => TakeAll(next, frames[1..])
  }

  function Meaning(frames: seq<Frame>): Fetched {
    match TakeAll(START, frames)
    case Stopped(error) => Broken(error)
    case Going(c) => if !c.reader.Finished? || c.terminal.None? then Broken(NoTerminal) else Fetched(c.terminal.value)
  }

  /** The collecting loop of `run_pages_fetch`. */
  method Fetch(frames: seq<Frame>) returns (fetched: Fetched)
    ensures fetched == Meaning(frames)
  {
    var reader := AwaitHeader;
    var contentType := "text/html; charset=utf-8";
    var declared: Option<nat> := None;
    var chunks: seq<Chunk> := [];
    var terminal: Option<Outcome> := None;
    assert frames[0..] == frames;
    for i := 0 to |frames|
      invariant TakeAll(START, frames) == TakeAll(Collected(reader, contentType, declared, chunks, terminal), frames[i..])
    {
      assert frames[i..][0] == frames[i] && frames[i..][1..] == frames[i + 1..];
      var next := Accept(reader, frames[i]);
      if next.None? {
        return Broken(OutOfOrder);
      }
      match frames[i] {
        case Hologram(ct, size) =>
          if ct.Some? {
            contentType := ct.value;
          }
          if size.Some? {
            declared := size.value;
          }
        case ChunkFrame(number, data) =>
          if data.None? {
            return Broken(BadBase64);
          }
          chunks := chunks + [Chunk(number, data.value)];
        case OtherGeneric =>
        case ResultHeader =>
        case Done =>
          var bytes := Joined(SortByNumber(chunks));
          if declared.Some? && declared.value != |bytes| {
            return Broken(SizeMismatch(declared.value, |bytes|));
          }
          terminal := Some(Page(contentType, bytes));
        case DeniedFrame(reason) => terminal := Some(DeniedPage(reason));
        case ErrorFrame(code) => terminal := Some(FailedPage(code));
      }
      reader := next.value;
    }
    if !reader.Finished? || terminal.None? {
      return Broken(NoTerminal);
    }
    return Fetched(terminal.value);
  }

  // ----- main results -----

  /** A hologram or a chunk that decodes: the frames a page is made of. */
  predicate IsBody(frame: Frame) {
    frame.Hologram? || frame.OtherGeneric? || (frame.ChunkFrame? && frame.data.Some?)
  }

  function Chunks(body: seq<Frame>): seq<Chunk> {
    if body == [] then []
    else if body[0].ChunkFrame? && body[0].data.Some? then [Chunk(body[0].number, body[0].data.value)] + Chunks(body[1..])
    else Chunks(body[1..])
  }

  /** The size in force after `body`: the last one a hologram states. */
  function DeclaredAfter(declared: Option<nat>, body: seq<Frame>): Option<nat>
    decreases |body|
  {
    if body == [] then declared
    else DeclaredAfter(if body[0].Hologram? && body[0].size.Some? then body[0].size.value else declared, body[1..])
  }

  lemma {:induction false} BodyCollects(c: Collected, body: seq<Frame>)
    requires (c.reader == Generics || c.reader == AwaitHeader) && forall i :: 0 <= i < |body| ==> IsBody(body[i])
    ensures var progress := TakeAll(c, body);
            && progress.Going? && (progress.so_far.reader == if body == [] then c.reader else Generics)
            && progress.so_far.chunks == c.chunks + Chunks(body)
            && progress.so_far.declared == DeclaredAfter(c.declared, body)
    decreases |body|
  {
    if body == [] {
      assert c.chunks + [] == c.chunks;
    } else {
      var next := Take(c, body[0]).so_far;
      BodyCollects(next, body[1..]);
      assert next.chunks + Chunks(body[1..]) == c.chunks + Chunks(body);
    }
  }

  lemma {:induction false} TakeAllConcat(c: Collected, a: seq<Frame>, b: seq<Frame>)
    ensures TakeAll(c, a + b) == match TakeAll(c, a)
              case Stopped(error) => Stopped(error)
              case Going(next) => TakeAll(next, b)
    decreases |a|
  {
    if a == [] {
      assert a + b == b;
    } else {
      assert (a + b)[1..] == a[1..] + b;
      match Take(c, a[0])
      case Stopped(_) =>
      case Going(next) => TakeAllConcat(next, a[1..], b);
    }
  }

  /** What a body leaves collected. */
  lemma BodyGathers(body: seq<Frame>)
    requires body != [] && forall i :: 0 <= i < |body| ==> IsBody(body[i])
    ensures TakeAll(START, body).Going?
    ensures var c := TakeAll(START, body).so_far;
            c.reader == Generics && c.chunks == Chunks(body) && c.declared == DeclaredAfter(None, body)
  {
    BodyCollects(START, body);
    assert [] + Chunks(body) == Chunks(body);
  }

  lemma TakeDone(c: Collected)
    requires c.reader == Generics
    ensures TakeAll(c, [Done])
            == if Assemble(c).Broken? then Stopped(Assemble(c).error)
               else Going(c.(reader := Finished, terminal := Some(Assemble(c).outcome)))
  {
    assert [Done][1..] == [];
  }

  /** `Done` after a body assembles what the body left. */
  lemma DoneAssembles(body: seq<Frame>)
    requires TakeAll(START, body).Going? && TakeAll(START, body).so_far.reader == Generics
    ensures Meaning(body + [Done]) == Assemble(TakeAll(START, body).so_far)
  {
    TakeAllConcat(START, body, [Done]);
    TakeDone(TakeAll(START, body).so_far);
  }

  /** However the chunks were reordered on the way, the page is their in-order concatenation, or is refused
      when that is not as long as declared. */
  lemma ReassemblyIsOrderFree(body: seq<Frame>, parts: seq<Chunk>)
    requires body != [] && forall i :: 0 <= i < |body| ==> IsBody(body[i])
    requires multiset(Chunks(body)) == multiset(parts) && Sorted(parts) && DistinctNumbers(parts)
    ensures var size, fetched := DeclaredAfter(None, body), Meaning(body + [Done]);
            if size.Some? && size.value != |Joined(parts)|
            then fetched == Broken(SizeMismatch(size.value, |Joined(parts)|))
            else fetched.Fetched? && fetched.outcome.Page? && fetched.outcome.bytes == Joined(parts)
  {
    BodyGathers(body);
    DoneAssembles(body);
    SortRestores(Chunks(body), parts);
  }

  /** Any page ever returned ended with `Done`, and is as long as the declared size in force, if any. */
  lemma PagesHaveDeclaredSize(frames: seq<Frame>)
    requires Meaning(frames).Fetched? && Meaning(frames).outcome.Page?
    ensures frames != [] && frames[|frames| - 1] == Done
    ensures var body := frames[..|frames| - 1];
            TakeAll(START, body).Going?
            && var c := TakeAll(START, body).so_far;
               (c.declared.Some? ==> c.declared.value == |Meaning(frames).outcome.bytes|)
               && Meaning(frames).outcome.bytes == Joined(SortByNumber(c.chunks))
  {
    assert frames != [];
    var body, last := frames[..|frames| - 1], frames[|frames| - 1];
    assert frames == body + [last];
    TakeAllConcat(START, body, [last]);
    var c := TakeAll(START, body).so_far;
    assert [last][1..] == [];
    OnlyTerminalFinishes(START, body);
    assert Take(c, last).Going?;
  }

  /** A terminal frame, once taken, is the last one the reader accepts. */
  lemma {:induction false} OnlyTerminalFinishes(c: Collected, frames: seq<Frame>)
    requires c.terminal.Some? ==> c.reader.Finished?
    ensures TakeAll(c, frames).Going? && TakeAll(c, frames).so_far.terminal.Some? ==> TakeAll(c, frames).so_far.reader.Finished?
    decreases |frames|
  {
    if frames != [] {
      match Take(c, frames[0])
      case Stopped(_) =>
      case Going(next) => OnlyTerminalFinishes(next, frames[1..]);
    }
  }

  // ----- what each frame comes to -----

  predicate IsPart(frames: seq<Frame>) {
    forall i :: 0 <= i < |frames| ==> IsBody(frames[i])
  }

  lemma TakeLast(c: Collected, last: Frame)
    ensures TakeAll(c, [last]) == Take(c, last)
  {
    assert [last][1..] == [];
  }

  /** The content type in force after `body`: the last one a hologram states. */
  lemma {:induction false} BodyContentType(c: Collected, body: seq<Frame>, contentType: string)
    requires (c.reader == Generics || c.reader == AwaitHeader) && IsPart(body)
    ensures TakeAll(c, body).Going?
    ensures c.contentType == contentType && (forall i :: 0 <= i < |body| && body[i].Hologram? ==> body[i].contentType.None?)
            ==> TakeAll(c, body).so_far.contentType == contentType
    decreases |body|
  {
    if body != [] {
      BodyContentType(Take(c, body[0]).so_far, body[1..], contentType);
    }
  }

  /** A page carries the type its last typed hologram states, or HTML when none does. */
  lemma PageHasLastType(front: seq<Frame>, typed: Frame, back: seq<Frame>, contentType: string)
    requires IsPart(front) && IsPart(back) && typed.Hologram? && typed.contentType == Some(contentType)
    requires forall i :: 0 <= i < |back| && back[i].Hologram? ==> back[i].contentType.None?
    ensures var fetched := Meaning(front + [typed] + back + [Done]);
            fetched.Fetched? && fetched.outcome.Page? ==> fetched.outcome.contentType == contentType
  {
    BodyCollects(START, front);
    var c := TakeAll(START, front).so_far;
    TakeAllConcat(START, front, [typed]);
    TakeLast(c, typed);
    var c' := TakeAll(START, front + [typed]).so_far;
    BodyContentType(c', back, contentType);
    TakeAllConcat(START, front + [typed], back);
    BodyCollects(c', back);
    DoneAssembles(front + [typed] + back);
  }

  lemma UntypedPageIsHtml(body: seq<Frame>)
    requires body != [] && IsPart(body) && forall i :: 0 <= i < |body| && body[i].Hologram? ==> body[i].contentType.None?
    ensures var fetched := Meaning(body + [Done]);
            fetched.Fetched? && fetched.outcome.Page? ==> fetched.outcome.contentType == "text/html; charset=utf-8"
  {
    BodyContentType(START, body, "text/html; charset=utf-8");
    BodyCollects(START, body);
    DoneAssembles(body);
  }

  /** The size in force is the last one stated; one that does not parse lifts the check again. */
  lemma {:induction false} LastSizeCounts(declared: Option<nat>, front: seq<Frame>, last: Frame)
    ensures DeclaredAfter(declared, front + [last]) ==
            if last.Hologram? && last.size.Some? then last.size.value else DeclaredAfter(declared, front)
    decreases |front|
  {
    if front == [] {
      assert front + [last] == [last] && [last][1..] == [];
    } else {
      assert (front + [last])[0] == front[0] && (front + [last])[1..] == front[1..] + [last];
      LastSizeCounts(if front[0].Hologram? && front[0].size.Some? then front[0].size.value else declared, front[1..], last);
    }
  }

  /** A denial is an answer by itself, with its reason; an error is one at any point of a page. */
  lemma RefusalsAreReported(body: seq<Frame>, reason: string, code: string)
    requires IsPart(body)
    ensures Meaning([DeniedFrame(reason)]) == Fetched(DeniedPage(reason))
    ensures Meaning(body + [ErrorFrame(code)]) == Fetched(FailedPage(code))
    ensures body != [] ==> Meaning(body + [DeniedFrame(reason)]) == Broken(OutOfOrder)
  {
    TakeLast(START, DeniedFrame(reason));
    BodyCollects(START, body);
    var c := TakeAll(START, body).so_far;
    TakeAllConcat(START, body, [ErrorFrame(code)]);
    TakeLast(c, ErrorFrame(code));
    TakeAllConcat(START, body, [DeniedFrame(reason)]);
    TakeLast(c, DeniedFrame(reason));
  }

  /** A page that ends without `Done`, or holds an undecodable chunk, is no page; nor is `Done` alone. */
  lemma BrokenPages(body: seq<Frame>, number: int, rest: seq<Frame>)
    requires IsPart(body)
    ensures Meaning(body) == Broken(NoTerminal)
    ensures Meaning(body + ([ChunkFrame(number, None)] + rest)) == Broken(BadBase64)
    ensures Meaning([Done]) == Broken(OutOfOrder)
  {
    BodyCollects(START, body);
    NoTerminalYet(START, body);
    var bad := [ChunkFrame(number, None)] + rest;
    TakeAllConcat(START, body, bad);
    assert bad[0] == ChunkFrame(number, None);
    TakeLast(START, Done);
  }

  /** Nothing may come after the end. */
  lemma NothingAfterTheEnd(frames: seq<Frame>, extra: Frame)
    requires TakeAll(START, frames).Going? && TakeAll(START, frames).so_far.reader.Finished?
    ensures Meaning(frames + [extra]) == Broken(OutOfOrder)
  {
    TakeAllConcat(START, frames, [extra]);
    TakeLast(TakeAll(START, frames).so_far, extra);
  }

  /** `Done` and an error end a page, a denial a response: each is the last frame its reader accepts. */
  lemma WhatEnds(c: Collected, last: Frame)
    requires Take(c, last).Going?
    ensures Take(c, last).so_far.reader.Finished? <==> last == Done || last.ErrorFrame? || last.DeniedFrame?
  {
  }

  lemma {:induction false} NoTerminalYet(c: Collected, body: seq<Frame>)
    requires (c.reader == Generics || c.reader == AwaitHeader) && IsPart(body) && c.terminal.None?
    ensures TakeAll(c, body).Going? && TakeAll(c, body).so_far.terminal.None?
    decreases |body|
  {
    if body != [] {
      NoTerminalYet(Take(c, body[0]).so_far, body[1..]);
    }
  }

  /** A result header begins another kind of response: with no page frames in it, its end is an empty page; page
      frames do not mix with it. */
  lemma HeaderIsNoPage(body: seq<Frame>, frame: Frame)
    requires IsPart(body) && body != [] && IsBody(frame)
    ensures Meaning([ResultHeader, Done]) == Fetched(Page("text/html; charset=utf-8", []))
    ensures Meaning([ResultHeader, frame]) == Broken(OutOfOrder)
    ensures Meaning(body + [ResultHeader]) == Broken(OutOfOrder)
  {
    TakeLast(START, ResultHeader);
    var c := Take(START, ResultHeader).so_far;
    assert [ResultHeader] + [Done] == [ResultHeader, Done] && [ResultHeader] + [frame] == [ResultHeader, frame];
    TakeAllConcat(START, [ResultHeader], [Done]);
    TakeAllConcat(START, [ResultHeader], [frame]);
    TakeLast(c, Done);
    TakeLast(c, frame);
    BodyCollects(START, body);
    TakeAllConcat(START, body, [ResultHeader]);
    TakeLast(TakeAll(START, body).so_far, ResultHeader);
  }
}
