/** Chunked page publishing: slices cut on UTF-8 boundaries, written one by one behind a marker. */
module PagePublish {
  import opened AuthTypes

  newtype byte = b: int | 0 <= b < 256

  type Bytes = seq<byte>

  const CHUNK_BYTES := 120 * 1024

  // ----- UTF-8 -----

  /** A Unicode scalar value. */
  predicate IsScalar(c: int) {
    0 <= c < 0xD800 || 0xE000 <= c < 0x11_0000
  }

  /** RFC 3629 section 3: one to four bytes, all but the first of the form 10xxxxxx. */
  function EncodeScalar(c: int): Bytes
    requires IsScalar(c)
  {
    if c < 0x80 then [c as byte]
    else if c < 0x800 then [(0xC0 + c / 0x40) as byte, (0x80 + c % 0x40) as byte]
    else if c < 0x1_0000 then
      [(0xE0 + c / 0x1000) as byte, (0x80 + c / 0x40 % 0x40) as byte, (0x80 + c % 0x40) as byte]
    else
      [(0xF0 + c / 0x4_0000) as byte, (0x80 + c / 0x1000 % 0x40) as byte,
       (0x80 + c / 0x40 % 0x40) as byte, (0x80 + c % 0x40) as byte]
  }

  predicate Scalars(text: seq<int>) {
    forall i :: 0 <= i < |text| ==> IsScalar(text[i])
  }

  function Encode(text: seq<int>): Bytes
    requires Scalars(text)
  {
    if text == [] then [] else EncodeScalar(text[0]) + Encode(text[1..])
  }

  predicate Continuation(b: byte) {
    0x80 <= b < 0xC0
  }

  /** `str::is_char_boundary`. */
  predicate IsBoundary(html: Bytes, i: nat)
    requires i <= |html|
  {
    i == 0 || i == |html| || !Continuation(html[i])
  }

  lemma ScalarShape(c: int)
    requires IsScalar(c)
    ensures 1 <= |EncodeScalar(c)| <= 4 && !Continuation(EncodeScalar(c)[0])
    ensures forall i :: 0 < i < |EncodeScalar(c)| ==> Continuation(EncodeScalar(c)[i])
  {
  }

  lemma CutBehind(a: Bytes, b: Bytes, i: nat)
    requires |a| <= i <= |a| + |b|
    ensures (a + b)[..i] == a + b[..i - |a|] && (a + b)[i..] == b[i - |a|..]
    ensures i < |a| + |b| ==> (a + b)[i] == b[i - |a|]
  {
  }

  lemma BoundaryPastFirst(text: seq<int>, i: nat)
    requires Scalars(text) && 0 < i <= |Encode(text)| && IsBoundary(Encode(text), i)
    ensures text != [] && i >= |EncodeScalar(text[0])|
  {
    var first := EncodeScalar(text[0]);
    ScalarShape(text[0]);
    assert forall j :: 0 <= j < |first| ==> Encode(text)[j] == first[j];
  }

  /** The scalars written before a boundary and those after it. */
  lemma {:induction false} BoundarySplits(text: seq<int>, i: nat) returns (k: nat)
    requires Scalars(text) && i <= |Encode(text)| && IsBoundary(Encode(text), i)
    ensures k <= |text| && Encode(text)[..i] == Encode(text[..k]) && Encode(text)[i..] == Encode(text[k..])
  {
    if i == 0 {
      k := 0;
    } else {
      var first, rest := EncodeScalar(text[0]), text[1..];
      BoundaryPastFirst(text, i);
      CutBehind(first, Encode(rest), i);
      k := BoundarySplits(rest, i - |first|);
      assert text[..k + 1][1..] == rest[..k] && text[k + 1..] == rest[k..];
      k := k + 1;
    }
  }

  /** Among any four consecutive positions there is a boundary. */
  lemma {:induction false} BoundaryWithinFour(text: seq<int>, i: nat)
    requires Scalars(text) && i + 3 <= |Encode(text)|
    ensures exists j :: i <= j <= i + 3 && IsBoundary(Encode(text), j)
  {
    if i == 0 {
      assert IsBoundary(Encode(text), 0);
    } else {
      var first := EncodeScalar(text[0]);
      ScalarShape(text[0]);
      if i < |first| {
        var j := |first|;
        if j < |Encode(text)| {
          ScalarShape(text[1]);
          assert Encode(text)[j] == EncodeScalar(text[1])[0];
        }
        assert IsBoundary(Encode(text), j);
      } else {
        BoundaryWithinFour(text[1..], i - |first|);
        var j :| i - |first| <= j <= i - |first| + 3 && IsBoundary(Encode(text[1..]), j);
        if j == 0 && |Encode(text[1..])| > 0 {
          ScalarShape(text[1]);
        }
        assert IsBoundary(Encode(text), j + |first|);
      }
    }
  }

  // ----- slicing -----

  function Concat(slices: seq<Bytes>): Bytes {
    if slices == [] then [] else slices[0] + Concat(slices[1..])
  }

  lemma {:induction false} ConcatSnoc(slices: seq<Bytes>, slice: Bytes)
    ensures Concat(slices + [slice]) == Concat(slices) + slice
  {
    if slices == [] {
      assert slices + [slice] == [slice];
      assert Concat([slice]) == slice + Concat([]);
    } else {
      assert (slices + [slice])[1..] == slices[1..] + [slice];
      ConcatSnoc(slices[1..], slice);
    }
  }

  /** Whole characters only. */
  ghost predicate IsUtf8(bytes: Bytes) {
    exists text :: Scalars(text) && Encode(text) == bytes
  }

  /** A slice as published: some whole characters, within the budget. */
  ghost predicate GoodSlice(slice: Bytes) {
    0 < |slice| <= CHUNK_BYTES && IsUtf8(slice)
  }

  /** The slicing loop. */
  method Slice(html: Bytes, ghost text: seq<int>) returns (slices: seq<Bytes>)
    requires Scalars(text) && html == Encode(text)
    ensures Concat(slices) == html
    ensures forall i :: 0 <= i < |slices| ==> GoodSlice(slices[i])
    ensures forall i :: 0 <= i < |slices| ==> 0 < |slices[i]| <= 122_880
    ensures forall i :: 0 <= i < |slices| - 1 ==> |slices[i]| >= 122_877
    ensures |html| > CHUNK_BYTES ==> |slices| > 1
    ensures |slices| <= |html|
  {
    slices := [];
    var start := 0;
    ghost var rest := text;
    assert html[0..] == html;
    while start < |html|
      invariant start <= |html|
      invariant Concat(slices) == html[..start]
      invariant Scalars(rest) && html[start..] == Encode(rest)
      invariant forall i :: 0 <= i < |slices| ==> GoodSlice(slices[i])
      invariant |slices| <= 1 ==> start <= |slices| * CHUNK_BYTES
      invariant |slices| <= start
      invariant forall i :: 0 <= i < |slices| && (start < |html| || i < |slices| - 1) ==> |slices[i]| >= CHUNK_BYTES - 3
      decreases |html| - start
    {
      var end := FindEnd(html, start, rest);
      rest := TakeSlice(html, start, end, rest);
      ConcatSnoc(slices, html[start..end]);
      assert html[..start] + html[start..end] == html[..end];
      slices := slices + [html[start..end]];
      start := end;
    }
    assert html[..start] == html;
  }

  /** Back from the budget to a character boundary: never more than three bytes, so always past `start`. */
  method FindEnd(html: Bytes, start: nat, ghost rest: seq<int>) returns (end: nat)
    requires start < |html| && Scalars(rest) && html[start..] == Encode(rest)
    ensures start < end <= |html| && end <= start + CHUNK_BYTES && IsBoundary(html, end)
    ensures end == |html| || end >= start + CHUNK_BYTES - 3
  {
    end := if start + CHUNK_BYTES < |html| then start + CHUNK_BYTES else |html|;
    ghost var low := end;
    if end < |html| {
      var cut := CutPoint(rest, CHUNK_BYTES);
      low := start + cut;
      assert html[start..][cut] == html[low];
    }
    while end < |html| && !IsBoundary(html, end)
      invariant low <= end <= |html| && end <= start + CHUNK_BYTES
      decreases end
    {
      end := end - 1;
    }
  }

  lemma TakeSlice(html: Bytes, start: nat, end: nat, rest: seq<int>) returns (rest': seq<int>)
    requires start < end <= |html| && end <= start + CHUNK_BYTES && IsBoundary(html, end)
    requires Scalars(rest) && html[start..] == Encode(rest)
    ensures Scalars(rest') && html[end..] == Encode(rest') && GoodSlice(html[start..end])
  {
    var tail := html[start..];
    assert end < |html| ==> tail[end - start] == html[end];
    var k := BoundarySplits(rest, end - start);
    assert html[start..end] == tail[..end - start] && html[end..] == tail[end - start..];
    SliceIsGood(rest, k, html[start..end]);
    rest' := rest[k..];
  }

  /** A boundary in the last three positions of a full slice. */
  lemma CutPoint(text: seq<int>, limit: nat) returns (low: nat)
    requires Scalars(text) && 4 <= limit < |Encode(text)|
    ensures limit - 3 <= low <= limit && IsBoundary(Encode(text), low)
  {
    BoundaryWithinFour(text, limit - 3);
    low :| limit - 3 <= low <= limit && IsBoundary(Encode(text), low);
  }

  lemma SliceIsGood(text: seq<int>, k: nat, slice: Bytes)
    requires Scalars(text) && k <= |text| && slice == Encode(text[..k]) && 0 < |slice| <= CHUNK_BYTES
    ensures GoodSlice(slice)
  {
    assert Scalars(text[..k]);
  }

  // ----- publishing -----

  /** A `pages` row; `publishing` is the marker in `updated_at`. */
  datatype Page = Page(html: Bytes, contentType: string, publishing: bool)

  datatype Outcome = Published(chunks: nat) | Denied

  class PageStore {
    var pages: map<string, Page>

    /** `page_publish` where all but the first `granted` writes are refused (or never made). */
    method Publish(name: string, html: Bytes, ghost text: seq<int>, contentType: string, granted: nat)
        returns (outcome: Outcome, ghost slices: seq<Bytes>)
      requires Scalars(text) && html == Encode(text)
      modifies this
      ensures slices != [] && Concat(slices) == html
      ensures |html| > CHUNK_BYTES ==> forall i :: 0 <= i < |slices| ==> GoodSlice(slices[i])
      ensures |html| <= CHUNK_BYTES ==> slices == [html]
      ensures |slices| <= |html| + 1
      ensures var writes := if |html| <= CHUNK_BYTES then 1 else |slices| + 1;
              && (granted >= writes ==>
                    outcome == Published(|slices|) && pages == old(pages)[name := Page(html, contentType, false)])
              && (granted == 0 ==> outcome == Denied && pages == old(pages))
              && (0 < granted < writes ==>
                    outcome == Denied
                    && pages == old(pages)[name := Page(Concat(slices[..granted]), contentType, true)])
    {
      if |html| <= CHUNK_BYTES {
        slices := [html];
        assert Concat([html]) == html + Concat([]);
        if granted == 0 {
          return Denied, slices;
        }
        pages := pages[name := Page(html, contentType, false)];
        return Published(1), slices;
      }
      var cut := Slice(html, text);
      slices := cut;
      if granted == 0 {
        return Denied, slices;
      }
      assert cut[..1] == [cut[0]] && Concat([cut[0]]) == cut[0] + Concat([]) && cut[0] + [] == cut[0];
      pages := pages[name := Page(cut[0], contentType, true)];
      for i := 1 to |cut|
        invariant i <= granted
        invariant pages == old(pages)[name := Page(Concat(cut[..i]), contentType, true)]
      {
        if granted == i {
          return Denied, slices;
        }
        var row := pages[name];
        ConcatSnoc(cut[..i], cut[i]);
        assert cut[..i] + [cut[i]] == cut[..i + 1];
        pages := pages[name := row.(html := row.html + cut[i])];
      }
      assert cut[..|cut|] == cut;
      if granted == |cut| {
        return Denied, slices;
      }
      pages := pages[name := pages[name].(publishing := false)];
      return Published(|cut|), slices;
    }
  }

  /** From whatever an interrupted publish left, a full re-run ends with the whole page and nothing else changed. */
  method PublishTwice(store: PageStore, name: string, html: Bytes, ghost text: seq<int>, contentType: string, granted: nat)
      returns (outcome: Outcome)
    requires Scalars(text) && html == Encode(text)
    modifies store
    ensures outcome.Published?
    ensures store.pages == old(store.pages)[name := Page(html, contentType, false)]
  {
    var first, slices := store.Publish(name, html, text, contentType, granted);
    ghost var again;
    outcome, again := store.Publish(name, html, text, contentType, |html| + 2);
  }

  /** One character of each length (RFC 3629 section 7 gives some of them). */
  lemma ScalarExamples()
    ensures EncodeScalar(0x41) == [0x41]
    ensures EncodeScalar(0x391) == [0xCE, 0x91]
    ensures EncodeScalar(0x65E5) == [0xE6, 0x97, 0xA5]
    ensures EncodeScalar(0x2_33B4) == [0xF0, 0xA3, 0x8E, 0xB4]
  {
  }
}
