/** The owner channel's stream: length-prefixed frames, then raw bytes, under any segmentation
    of the incoming bytes into reads; and the proxy tunnel spliced from two of them. */
module OwnerChannel {
  import opened AuthTypes

  newtype byte = b: int | 0 <= b < 256

  type Bytes = seq<byte>

  const MAX_FRAME_LEN := 256 * 1024

  function Flatten(arriving: seq<Bytes>): Bytes {
    if arriving == [] then [] else arriving[0] + Flatten(arriving[1..])
  }

  // ----- frames -----

  datatype Decoded = Incomplete | TooLarge | Frame(payload: Bytes, rest: Bytes)

  function LengthOf(prefix: Bytes): nat
    requires |prefix| == 4
  {
    prefix[0] as int + 256 * (prefix[1] as int) + 65_536 * (prefix[2] as int) + 16_777_216 * (prefix[3] as int)
  }

  /** `decode_frame` on the bytes read so far. */
  function DecodeFrame(src: Bytes): Decoded {
    if |src| < 4 then Incomplete
    else
      var len := LengthOf(src[..4]);
      if len > MAX_FRAME_LEN then TooLarge
      else if |src| < 4 + len then Incomplete
      else Frame(src[4..4 + len], src[4 + len..])
  }

  function EncodeFrame(payload: Bytes): Bytes
    requires |payload| <= MAX_FRAME_LEN
  {
    var n := |payload|;
    [(n % 256) as byte, (n / 256 % 256) as byte, (n / 65_536 % 256) as byte, (n / 16_777_216 % 256) as byte] + payload
  }

  lemma LengthRoundTrip(n: nat)
    requires n <= MAX_FRAME_LEN
    ensures LengthOf([(n % 256) as byte, (n / 256 % 256) as byte, (n / 65_536 % 256) as byte, (n / 16_777_216 % 256) as byte]) == n
  {
  }

  lemma FrameRoundTrip(payload: Bytes, rest: Bytes)
    requires |payload| <= MAX_FRAME_LEN
    ensures DecodeFrame(EncodeFrame(payload) + rest) == Frame(payload, rest)
  {
    LengthRoundTrip(|payload|);
    var src := EncodeFrame(payload) + rest;
    assert src[..4] == EncodeFrame(payload)[..4];
    assert src[4..4 + |payload|] == payload && src[4 + |payload|..] == rest;
  }

  lemma LittleEndian(n: nat, a: nat, b: nat, c: nat, d: nat)
    requires a < 256 && b < 256 && c < 256 && d < 256
    requires n == a + 256 * b + 65_536 * c + 16_777_216 * d
    ensures n % 256 == a && n / 256 % 256 == b && n / 65_536 % 256 == c && n / 16_777_216 % 256 == d
  {
  }

  /** A decoded frame is exactly the bytes it took off the front. */
  lemma DecodedIsEncoded(src: Bytes)
    requires DecodeFrame(src).Frame?
    ensures |DecodeFrame(src).payload| <= MAX_FRAME_LEN
    ensures src == EncodeFrame(DecodeFrame(src).payload) + DecodeFrame(src).rest
  {
    var len := LengthOf(src[..4]);
    LittleEndian(len, src[0] as int, src[1] as int, src[2] as int, src[3] as int);
    assert src == src[..4] + src[4..4 + len] + src[4 + len..];
  }

  /** More bytes never change what the bytes so far decided. */
  lemma DecodeStable(src: Bytes, more: Bytes)
    ensures DecodeFrame(src) == TooLarge ==> DecodeFrame(src + more) == TooLarge
    ensures DecodeFrame(src).Frame? ==>
              DecodeFrame(src + more) == Frame(DecodeFrame(src).payload, DecodeFrame(src).rest + more)
  {
    if |src| >= 4 {
      assert (src + more)[..4] == src[..4];
      if DecodeFrame(src).Frame? {
        var len := LengthOf(src[..4]);
        assert (src + more)[4..4 + len] == src[4..4 + len];
        assert (src + more)[4 + len..] == src[4 + len..] + more;
      }
    }
  }

  // ----- receiving -----

  /** What one `recv` answers; a document is its payload, `None` when it does not parse. */
  datatype Received =
    | Document(payload: Bytes)
    | BadDocument(payload: Bytes)
    | FrameTooLarge
    | EndOfStream
    | ClosedMidFrame

  /** `recv` as a function of all the bytes still to come, whatever the reads. */
  function RecvMeaning(unread: Bytes, eof: bool, parses: Bytes -> bool): (Received, Bytes, bool) {
    match DecodeFrame(unread)
    case Frame(payload, rest) => (if parses(payload) then Document(payload) else BadDocument(payload), rest, eof)
    case TooLarge => (FrameTooLarge, unread, eof)
    case Incomplete =>
      (if eof || unread == [] then EndOfStream else ClosedMidFrame, unread, true)
  }

  /** `n` calls of `recv`. */
  function RecvMany(n: nat, unread: Bytes, eof: bool, parses: Bytes -> bool): (many: (seq<Received>, Bytes, bool))
    ensures |many.0| == n
  {
    if n == 0 then ([], unread, eof)
    else
      var (received, rest, eof') := RecvMeaning(unread, eof, parses);
      var (more, rest', eof'') := RecvMany(n - 1, rest, eof', parses);
      ([received] + more, rest', eof'')
  }

  class OwnerStream {
    /** Bytes read and not yet consumed, and whether the end was seen. */
    var buf: Bytes
    var eof: bool
    /** The reads still to come: each non-empty, then the end of the stream. */
    var arriving: seq<Bytes>

    predicate Valid()
      reads this
    {
      (forall i :: 0 <= i < |arriving| ==> arriving[i] != []) && (eof ==> arriving == [])
    }

    function Unread(): Bytes
      reads this
    {
      buf + Flatten(arriving)
    }

    constructor (incoming: seq<Bytes>)
      requires forall i :: 0 <= i < |incoming| ==> incoming[i] != []
      ensures Valid() && Unread() == Flatten(incoming) && !eof && buf == []
    {
      buf, eof, arriving := [], false, incoming;
    }

    /** `read_buf`: appends the next read; 0 at the end. */
    method ReadBuf() returns (n: nat)
      requires Valid()
      modifies this`buf, this`arriving
      ensures Unread() == old(Unread())
      ensures eof == old(eof) && (eof ==> arriving == []) && (forall i :: 0 <= i < |arriving| ==> arriving[i] != [])
      ensures n == 0 <==> old(arriving) == []
      ensures n == 0 ==> arriving == [] && buf == old(buf)
      ensures n > 0 ==> arriving == old(arriving)[1..] && buf == old(buf) + old(arriving)[0]
    {
      if arriving == [] {
        return 0;
      }
      n := |arriving[0]|;
      assert buf + (arriving[0] + Flatten(arriving[1..])) == buf + arriving[0] + Flatten(arriving[1..]);
      buf, arriving := buf + arriving[0], arriving[1..];
    }

    method Recv(parses: Bytes -> bool) returns (received: Received)
      requires Valid()
      modifies this
      ensures Valid()
      ensures (received, Unread(), eof) == RecvMeaning(old(Unread()), old(eof), parses)
    {
      while true
        invariant Valid() && Unread() == old(Unread()) && eof == old(eof)
        decreases |arriving|
      {
        DecodeStable(buf, Flatten(arriving));
        match DecodeFrame(buf) {
          case Frame(payload, rest) =>
            buf := rest;
            return if parses(payload) then Document(payload) else BadDocument(payload);
          case TooLarge =>
            return FrameTooLarge;
          case Incomplete =>
        }
        assert arriving == [] ==> buf + Flatten(arriving) == buf;
        if eof {
          return EndOfStream;
        }
        var n := ReadBuf();
        if n == 0 {
          assert buf + Flatten(arriving) == buf;
          eof := true;
          return if buf == [] then EndOfStream else ClosedMidFrame;
        }
      }
    }

    method RecvFrames(n: nat, parses: Bytes -> bool) returns (all: seq<Received>)
      requires Valid()
      modifies this
      ensures Valid()
      ensures (all, Unread(), eof) == RecvMany(n, old(Unread()), old(eof), parses)
    {
      if n == 0 {
        return [];
      }
      var received := Recv(parses);
      var more := RecvFrames(n - 1, parses);
      return [received] + more;
    }

    /** What was read past the frames first, then straight off the wire. */
    method RecvRaw() returns (chunk: Option<Bytes>)
      requires Valid()
      modifies this
      ensures Valid()
      ensures chunk.Some? ==> chunk.value != [] && old(Unread()) == chunk.value + Unread()
      ensures chunk.None? <==> old(Unread()) == []
      ensures chunk.None? ==> Unread() == []
      ensures old(buf) != [] ==> chunk == Some(old(buf)) && arriving == old(arriving)
    {
      if buf != [] {
        chunk := Some(buf);
        buf := [];
        assert [] + Flatten(arriving) == Flatten(arriving);
        return;
      }
      if eof {
        return None;
      }
      var n := ReadBuf();
      if n == 0 {
        eof := true;
        return None;
      }
      assert [] + old(arriving)[0] == old(arriving)[0];
      chunk := Some(buf);
      buf := [];
      assert [] + Flatten(arriving) == Flatten(arriving);
    }

    /** The rest of the stream, read raw to its end. */
    method DrainRaw() returns (all: Bytes)
      requires Valid()
      modifies this
      ensures Valid() && all == old(Unread()) && Unread() == []
    {
      all := [];
      while true
        invariant Valid() && all + Unread() == old(Unread())
        decreases |Unread()|
      {
        ghost var before, left := all, Unread();
        var chunk := RecvRaw();
        if chunk.None? {
          assert all + left == all;
          return;
        }
        all := all + chunk.value;
        assert before + (chunk.value + Unread()) == all + Unread();
      }
    }

    /** The reading half and what was read past the last frame. */
    method IntoParts() returns (rest: seq<Bytes>, leftover: Bytes)
      requires Valid()
      ensures leftover + Flatten(rest) == Unread() && leftover == buf && rest == arriving
    {
      return arriving, buf;
    }
  }

  // ----- what segmentation cannot change -----

  /** The bytes a received frame took off the wire; the other answers take none. */
  function Took(received: Received): Bytes {
    if (received.Document? || received.BadDocument?) && |received.payload| <= MAX_FRAME_LEN
    then EncodeFrame(received.payload) else []
  }

  function Consumed(all: seq<Received>): Bytes {
    if all == [] then [] else Took(all[0]) + Consumed(all[1..])
  }

  lemma RecvTakes(wire: Bytes, eof: bool, parses: Bytes -> bool)
    ensures wire == Took(RecvMeaning(wire, eof, parses).0) + RecvMeaning(wire, eof, parses).1
  {
    if DecodeFrame(wire).Frame? {
      DecodedIsEncoded(wire);
    } else {
      assert [] + wire == wire;
    }
  }

  /** After any number of frames, the unread bytes are exactly what follows those frames on the wire. */
  lemma {:induction false} FramesThenSuffix(n: nat, wire: Bytes, eof: bool, parses: Bytes -> bool)
    ensures var (all, rest, _) := RecvMany(n, wire, eof, parses);
            wire == Consumed(all) + rest
  {
    if n == 0 {
      assert [] + wire == wire;
    } else {
      var (received, rest, eof') := RecvMeaning(wire, eof, parses);
      var (more, rest', _) := RecvMany(n - 1, rest, eof', parses);
      RecvTakes(wire, eof, parses);
      FramesThenSuffix(n - 1, rest, eof', parses);
      ConsumedStep(received, more);
      Regroup3(wire, Took(received), rest, Consumed(more), rest');
    }
  }

  lemma Regroup3(wire: Bytes, a: Bytes, rest: Bytes, b: Bytes, c: Bytes)
    requires wire == a + rest && rest == b + c
    ensures wire == (a + b) + c
  {
  }

  lemma ConsumedStep(received: Received, more: seq<Received>)
    ensures Consumed([received] + more) == Took(received) + Consumed(more)
  {
    assert ([received] + more)[1..] == more;
  }

  predicate Sendable(payloads: seq<Bytes>) {
    forall i :: 0 <= i < |payloads| ==> |payloads[i]| <= MAX_FRAME_LEN
  }

  function EncodeAll(payloads: seq<Bytes>): Bytes
    requires Sendable(payloads)
  {
    if payloads == [] then [] else EncodeFrame(payloads[0]) + EncodeAll(payloads[1..])
  }

  /** What receiving each payload in turn answers. */
  function Answers(payloads: seq<Bytes>, parses: Bytes -> bool): seq<Received> {
    if payloads == [] then []
    else [if parses(payloads[0]) then Document(payloads[0]) else BadDocument(payloads[0])] + Answers(payloads[1..], parses)
  }

  /** Frames sent one after another are received in that order, and what follows them is left alone. */
  lemma {:induction false} SentFramesAreReceived(payloads: seq<Bytes>, tail: Bytes, parses: Bytes -> bool)
    requires Sendable(payloads)
    ensures RecvMany(|payloads|, EncodeAll(payloads) + tail, false, parses) == (Answers(payloads, parses), tail, false)
  {
    if payloads == [] {
      assert [] + tail == tail;
    } else {
      var rest := EncodeAll(payloads[1..]) + tail;
      assert EncodeAll(payloads) + tail == EncodeFrame(payloads[0]) + rest;
      FrameRoundTrip(payloads[0], rest);
      SentFramesAreReceived(payloads[1..], tail, parses);
    }
  }

  lemma PrefixIsIncomplete(payload: Bytes, k: nat)
    requires |payload| <= MAX_FRAME_LEN && k < |EncodeFrame(payload)|
    ensures DecodeFrame(EncodeFrame(payload)[..k]) == Incomplete
  {
    LengthRoundTrip(|payload|);
    var part := EncodeFrame(payload)[..k];
    if k >= 4 {
      assert part[..4] == EncodeFrame(payload)[..4];
      assert EncodeFrame(payload)[..4] == EncodeFrame([])[..0] + EncodeFrame(payload)[..4];
    }
  }

  /** A wire cut inside a frame: every whole frame is received, the cut is reported once, then the end.
      Cut between frames there is only the end. */
  lemma CutWireIsReported(payloads: seq<Bytes>, last: Bytes, k: nat, parses: Bytes -> bool)
    requires Sendable(payloads) && |last| <= MAX_FRAME_LEN && k < |EncodeFrame(last)|
    ensures var wire := EncodeAll(payloads) + EncodeFrame(last)[..k];
            RecvMany(|payloads| + 2, wire, false, parses).0
            == Answers(payloads, parses) + [if k == 0 then EndOfStream else ClosedMidFrame, EndOfStream]
  {
    PrefixIsIncomplete(last, k);
    AfterWholeFrames(payloads, EncodeFrame(last)[..k], parses);
  }

  /** Any wire that ends after whole frames with bytes that are no frame yet: every frame is received, the rest
      is reported once, then the end. */
  lemma AfterWholeFrames(payloads: seq<Bytes>, tail: Bytes, parses: Bytes -> bool)
    requires Sendable(payloads) && DecodeFrame(tail) == Incomplete
    ensures RecvMany(|payloads| + 2, EncodeAll(payloads) + tail, false, parses).0
            == Answers(payloads, parses) + [if tail == [] then EndOfStream else ClosedMidFrame, EndOfStream]
  {
    SentFramesAreReceived(payloads, tail, parses);
    RecvManyConcat(|payloads|, 2, EncodeAll(payloads) + tail, false, parses);
    TwoAtTheEnd(tail, parses);
  }

  lemma TwoAtTheEnd(tail: Bytes, parses: Bytes -> bool)
    requires DecodeFrame(tail) == Incomplete
    ensures RecvMany(2, tail, false, parses).0 == [if tail == [] then EndOfStream else ClosedMidFrame, EndOfStream]
  {
    var (first, rest, eof) := RecvMeaning(tail, false, parses);
    assert RecvMany(1, rest, eof, parses).0 == [RecvMeaning(rest, eof, parses).0] + RecvMany(0, rest, true, parses).0;
  }

  lemma {:induction false} RecvManyConcat(m: nat, n: nat, unread: Bytes, eof: bool, parses: Bytes -> bool)
    ensures var (first, rest, end) := RecvMany(m, unread, eof, parses);
            RecvMany(m + n, unread, eof, parses).0 == first + RecvMany(n, rest, end, parses).0
    decreases m
  {
    if m == 0 {
      assert [] + RecvMany(n, unread, eof, parses).0 == RecvMany(n, unread, eof, parses).0;
    } else {
      var (received, rest, eof') := RecvMeaning(unread, eof, parses);
      RecvManyConcat(m - 1, n, rest, eof', parses);
    }
  }

  // ----- the proxy tunnel -----

  /** One direction: leftovers not yet written, reads to come, bytes delivered, whether a write failed or it was stopped. */
  datatype Direction = Direction(leftover: Bytes, arriving: seq<Bytes>, delivered: Bytes, stopped: bool)

  /** Caller to peer, and peer to caller; copying starts once both leftovers are through. */
  datatype Tunnel = Tunnel(up: Direction, down: Direction)

  /** A write that gets `n` bytes through; fewer than offered is a failed write. */
  function Write(d: Direction, bytes: Bytes, n: nat): Direction {
    if n >= |bytes| then d.(delivered := d.delivered + bytes)
    else d.(delivered := d.delivered + bytes[..n], stopped := true)
  }

  /** The next write of a direction: its leftovers, else the next read. */
  function Advance(d: Direction, n: nat): Direction {
    if d.stopped then d
    else if d.leftover != [] then Write(d.(leftover := []), d.leftover, n)
    else if d.arriving != [] then Write(d.(arriving := d.arriving[1..]), d.arriving[0], n)
    else d
  }

  function Stop(d: Direction): Direction {
    d.(stopped := true)
  }

  datatype TunnelStep = Up(n: nat) | Down(n: nat) | AbortUp

  /** `proxy_to_peer` after the handshake: pending first, then spare, then both copies at once; a failed
      first write ends the session, and the end of the downward copy aborts the upward one. */
  function TunnelNext(t: Tunnel, step: TunnelStep): Tunnel {
    match step
    case Up(n) =>
      if t.up.leftover != [] then
        var up := Advance(t.up, n);
        if up.stopped then Tunnel(up, Stop(t.down)) else Tunnel(up, t.down)
      else if t.down.leftover != [] then t
      else Tunnel(Advance(t.up, n), t.down)
    case Down(n) =>
      if t.up.leftover != [] then t
      else if t.down.leftover != [] then
        var down := Advance(t.down, n);
        if down.stopped then Tunnel(Stop(t.up), down) else Tunnel(t.up, down)
      else Tunnel(t.up, Advance(t.down, n))
    case AbortUp =>
      if t.down.stopped || (t.down.leftover == [] && t.down.arriving == []) then Tunnel(Stop(t.up), t.down) else t
  }

  function TunnelRun(t: Tunnel, steps: seq<TunnelStep>): Tunnel
    decreases |steps|
  {
    if steps == [] then t else TunnelRun(TunnelNext(t, steps[0]), steps[1..])
  }

  /** Delivered so far is a prefix of the source; while nothing failed, the rest is still to come. */
  predicate Faithful(d: Direction, source: Bytes) {
    d.delivered <= source && (!d.stopped ==> d.delivered + (d.leftover + Flatten(d.arriving)) == source)
  }

  lemma AdvanceFaithful(d: Direction, n: nat, source: Bytes)
    requires Faithful(d, source)
    ensures Faithful(Advance(d, n), source)
  {
    if !d.stopped && d.leftover != [] {
      assert d.delivered + (d.leftover + Flatten(d.arriving)) == (d.delivered + d.leftover) + ([] + Flatten(d.arriving));
      if n < |d.leftover| {
        assert d.delivered + d.leftover[..n] == source[..|d.delivered| + n];
      }
    } else if !d.stopped && d.arriving != [] {
      var chunk, rest := d.arriving[0], Flatten(d.arriving[1..]);
      assert d.delivered + ([] + (chunk + rest)) == (d.delivered + chunk) + ([] + rest);
      if n < |chunk| {
        assert d.delivered + chunk[..n] == source[..|d.delivered| + n];
      }
    }
  }

  lemma {:induction false} TunnelStaysFaithful(t: Tunnel, steps: seq<TunnelStep>, upSource: Bytes, downSource: Bytes)
    requires Faithful(t.up, upSource) && Faithful(t.down, downSource)
    ensures Faithful(TunnelRun(t, steps).up, upSource) && Faithful(TunnelRun(t, steps).down, downSource)
    decreases |steps|
  {
    if steps != [] {
      var n := if steps[0].AbortUp? then 0 else steps[0].n;
      AdvanceFaithful(t.up, n, upSource);
      AdvanceFaithful(t.down, n, downSource);
      TunnelStaysFaithful(TunnelNext(t, steps[0]), steps[1..], upSource, downSource);
    }
  }

  /** A direction spliced from the parts of a stream. */
  function Spliced(rest: seq<Bytes>, leftover: Bytes): Direction {
    Direction(leftover, rest, [], false)
  }

  /** It starts with that stream's unread bytes as its source. */
  lemma SplicedIsFaithful(rest: seq<Bytes>, leftover: Bytes)
    ensures Faithful(Spliced(rest, leftover), leftover + Flatten(rest))
  {
    assert [] + (leftover + Flatten(rest)) == leftover + Flatten(rest);
  }

  /** Nothing failed and nothing is left to copy. */
  predicate RanOut(d: Direction) {
    !d.stopped && d.leftover == [] && d.arriving == []
  }

  lemma RanOutDelivered(d: Direction, source: Bytes)
    requires Faithful(d, source) && RanOut(d)
    ensures d.delivered == source
  {
    assert d.delivered + ([] + []) == d.delivered;
  }

  /** From any state in which neither direction has stopped both can run to their ends. */
  lemma {:induction false} CanRunOut(t: Tunnel) returns (steps: seq<TunnelStep>)
    requires !t.up.stopped && !t.down.stopped
    ensures RanOut(TunnelRun(t, steps).up) && RanOut(TunnelRun(t, steps).down)
    decreases |t.up.arriving| + |t.down.arriving|, |t.up.leftover| + |t.down.leftover|
  {
    if RanOut(t.up) && RanOut(t.down) {
      steps := [];
    } else {
      var step := if t.up.leftover != [] then Up(|t.up.leftover|)
      else if t.down.leftover != [] then Down(|t.down.leftover|)
      else if t.up.arriving != [] then Up(|t.up.arriving[0]|)
      else Down(|t.down.arriving[0]|);
      var rest := CanRunOut(TunnelNext(t, step));
      steps := [step] + rest;
      assert steps[1..] == rest;
    }
  }

  /** So an undisturbed session delivers everything both ways. */
  lemma SessionCanDeliverAll(fromCaller: seq<Bytes>, pending: Bytes, fromPeer: seq<Bytes>, spare: Bytes) returns (steps: seq<TunnelStep>)
    ensures var after := TunnelRun(Tunnel(Spliced(fromCaller, pending), Spliced(fromPeer, spare)), steps);
            after.up.delivered == pending + Flatten(fromCaller) && after.down.delivered == spare + Flatten(fromPeer)
  {
    var t := Tunnel(Spliced(fromCaller, pending), Spliced(fromPeer, spare));
    steps := CanRunOut(t);
    SplicedIsFaithful(fromCaller, pending);
    SplicedIsFaithful(fromPeer, spare);
    TunnelStaysFaithful(t, steps, pending + Flatten(fromCaller), spare + Flatten(fromPeer));
    RanOutDelivered(TunnelRun(t, steps).up, pending + Flatten(fromCaller));
    RanOutDelivered(TunnelRun(t, steps).down, spare + Flatten(fromPeer));
  }

  /** Two streams hand over their parts after `m` and `n` frames. Over every interleaving of the two copies,
      failed writes and aborts, each side then receives, in order, a prefix of what follows the other's frames
      on its wire; all of it once its direction ran out without a failure. */
  lemma TunnelDeliversInOrder(caller: Bytes, m: nat, fromCaller: seq<Bytes>, pending: Bytes,
                              peer: Bytes, n: nat, fromPeer: seq<Bytes>, spare: Bytes,
                              parses: Bytes -> bool, steps: seq<TunnelStep>)
    requires pending + Flatten(fromCaller) == RecvMany(m, caller, false, parses).1
    requires spare + Flatten(fromPeer) == RecvMany(n, peer, false, parses).1
    ensures var after := TunnelRun(Tunnel(Spliced(fromCaller, pending), Spliced(fromPeer, spare)), steps);
            var callerFrames, peerFrames := Consumed(RecvMany(m, caller, false, parses).0),
                                            Consumed(RecvMany(n, peer, false, parses).0);
            && callerFrames + after.up.delivered <= caller
            && peerFrames + after.down.delivered <= peer
            && (RanOut(after.up) ==> callerFrames + after.up.delivered == caller)
            && (RanOut(after.down) ==> peerFrames + after.down.delivered == peer)
  {
    var up, down := Spliced(fromCaller, pending), Spliced(fromPeer, spare);
    var upSource, downSource := pending + Flatten(fromCaller), spare + Flatten(fromPeer);
    SplicedIsFaithful(fromCaller, pending);
    SplicedIsFaithful(fromPeer, spare);
    TunnelStaysFaithful(Tunnel(up, down), steps, upSource, downSource);
    var after := TunnelRun(Tunnel(up, down), steps);
    FramesThenSuffix(m, caller, false, parses);
    FramesThenSuffix(n, peer, false, parses);
    PrefixAfter(Consumed(RecvMany(m, caller, false, parses).0), after.up.delivered, upSource);
    PrefixAfter(Consumed(RecvMany(n, peer, false, parses).0), after.down.delivered, downSource);
    if RanOut(after.up) {
      RanOutDelivered(after.up, upSource);
    }
    if RanOut(after.down) {
      RanOutDelivered(after.down, downSource);
    }
  }

  lemma PrefixAfter(front: Bytes, part: Bytes, whole: Bytes)
    requires part <= whole
    ensures front + part <= front + whole
  {
    assert part == whole[..|part|];
  }

  /** A frame that announces more than a quarter mebibyte is refused, and nothing is consumed; one of up to that is not. */
  lemma TooLongIsRefused(wire: Bytes, eof: bool, parses: Bytes -> bool)
    requires |wire| >= 4
    ensures var announced := wire[0] as int + 256 * (wire[1] as int) + 65_536 * (wire[2] as int) + 16_777_216 * (wire[3] as int);
            RecvMeaning(wire, eof, parses) == (FrameTooLarge, wire, eof) <==> announced > 262_144
  {
    assert wire[..4][0] == wire[0] && wire[..4][1] == wire[1] && wire[..4][2] == wire[2] && wire[..4][3] == wire[3];
  }

  /** The bytes of a frame: its length, least significant byte first, then the payload. */
  lemma FrameBytes(payload: Bytes)
    requires |payload| <= 262_144
    ensures var frame := EncodeFrame(payload);
            && |frame| == 4 + |payload| && frame[4..] == payload
            && frame[0] as int + 256 * (frame[1] as int) + 65_536 * (frame[2] as int) + 16_777_216 * (frame[3] as int) == |payload|
  {
    LengthRoundTrip(|payload|);
  }

  // ----- what goes before what in the tunnel -----

  /** Until the caller's leftover is through nothing reaches the caller, and until the peer's is, the peer gets no
      more than that leftover. */
  predicate LeftoversFirst(t: Tunnel, pending: Bytes) {
    && (t.up.leftover != [] ==> t.up.delivered == [] && t.down.delivered == [] && t.up.leftover == pending)
    && (t.down.leftover != [] ==> t.up.delivered <= pending && t.down.delivered == [])
  }

  lemma StepLeftoversFirst(t: Tunnel, step: TunnelStep, pending: Bytes)
    requires LeftoversFirst(t, pending)
    ensures LeftoversFirst(TunnelNext(t, step), pending)
  {
    assert t.up.leftover != [] ==> [] + t.up.leftover == pending;
  }

  lemma {:induction false} RunLeftoversFirst(t: Tunnel, steps: seq<TunnelStep>, pending: Bytes)
    requires LeftoversFirst(t, pending)
    ensures LeftoversFirst(TunnelRun(t, steps), pending)
    decreases |steps|
  {
    if steps != [] {
      StepLeftoversFirst(t, steps[0], pending);
      RunLeftoversFirst(TunnelNext(t, steps[0]), steps[1..], pending);
    }
  }

  /** Over every run the caller's leftover goes to the peer first, then the peer's to the caller, then both copy. */
  lemma LeftoversGoFirst(fromCaller: seq<Bytes>, pending: Bytes, fromPeer: seq<Bytes>, spare: Bytes, steps: seq<TunnelStep>)
    ensures var after := TunnelRun(Tunnel(Spliced(fromCaller, pending), Spliced(fromPeer, spare)), steps);
            && (after.down.delivered != [] ==> after.up.leftover == [] && after.down.leftover == [])
            && (|after.up.delivered| > |pending| ==> after.down.leftover == [])
  {
    RunLeftoversFirst(Tunnel(Spliced(fromCaller, pending), Spliced(fromPeer, spare)), steps, pending);
  }

  /** When the peer is done talking, by its end or a failed write, the copy from the caller is aborted, and only then. */
  lemma EndOfPeerEndsTheSession(t: Tunnel)
    ensures var after := TunnelNext(t, AbortUp);
            && after.down == t.down && after.up.delivered == t.up.delivered
            && (t.down.stopped || (t.down.leftover == [] && t.down.arriving == []) ==> after.up.stopped)
            && (!t.down.stopped && (t.down.leftover != [] || t.down.arriving != []) ==> after.up == t.up)
  {
  }

  /** A first write that fails ends both directions. */
  lemma FailedLeftoverEndsBoth(t: Tunnel, n: nat)
    ensures !t.up.stopped && t.up.leftover != [] && n < |t.up.leftover| ==>
              TunnelNext(t, Up(n)).up.stopped && TunnelNext(t, Up(n)).down.stopped
    ensures t.up.leftover == [] && !t.down.stopped && t.down.leftover != [] && n < |t.down.leftover| ==>
              TunnelNext(t, Down(n)).up.stopped && TunnelNext(t, Down(n)).down.stopped
  {
  }
}
