/** Structured mode: length-prefixed requests in, length-prefixed responses out. */
module CommandStructuredMode {
  import opened Bytes
  import opened Wrappers
  import opened Framing
  import opened CommandWire
  import opened CommandProtocol
  import opened CommandHost

  // ---------- one frame ----------

  /** The framed response that goes out; none when it does not fit a 32-bit length. */
  function FramedResponse(r: Response): Option<Bytes>
  {
    var payload :- EncodedResponse(r);
    if |payload| > U32_MAX then None else Some(BigEndian(4, |payload|) + payload)
  }

  function Respond(sv: Services, h: Host, r: Response): Done
  {
    match FramedResponse(r)
    case None => Done(h, false)
    case Some(frame) => Write(sv, h, frame)
  }

  function ErrorResponse(message: Bytes): Response
  {
    Response(0, false, 1, message)
  }

  const MALFORMED: string := "Malformed structured Command request"
  const TOO_LARGE: string := "Structured Command frame exceeds configured limit"

  /** The response that a payload deserves: the request's ID and the session's answer, or ID 0
      and an error when the payload is no request. */
  function Reply(sv: Services, h: Host, payload: Bytes): (Host, Response)
  {
    match DecodedRequest(payload)
    case None => (h, ErrorResponse(Ascii(MALFORMED)))
    case Some(request) =>
      var (h', result) := Answer(sv, h.(requestId := request.id), request, StructuredCall(request));
      (h', Response(request.id, result.success, result.code, result.message))
  }

  function HandleFrame(sv: Services, h: Host, payload: Bytes): Done
  {
    var (h', response) := Reply(sv, h, payload);
    Respond(sv, h', response)
  }

  function HandleFrames(sv: Services, h: Host, payloads: seq<Bytes>): Done
    decreases |payloads|
  {
    if payloads == [] then Done(h, true)
    else
      var first := HandleFrame(sv, h, payloads[0]);
      var later := HandleFrames(sv, first.host, payloads[1..]);
      Done(later.host, first.ok && later.ok)
  }

  // ---------- feeding ----------

  /** The bytes held, with the announced length of the current frame once its prefix is gone. */
  datatype Held = Held(buffer: Bytes, expected: nat)

  /** The held bytes as they came in. */
  function Pending(s: Held): Bytes
  {
    if s.expected == 0 then s.buffer else BigEndian(4, s.expected) + s.buffer
  }

  function Unpend(p: Bytes): Held
  {
    if |p| < 4 then Held(p, 0) else Held(p[4..], FromBigEndian(p[..4]))
  }

  predicate WellFormed(maximum: nat, s: Held)
  {
    && s.expected <= maximum && s.expected <= U32_MAX
    && |s.buffer| < (if s.expected == 0 then 4 else s.expected)
  }

  function Unprefixed(frames: seq<Bytes>): (r: seq<Bytes>)
    ensures |r| == |frames|
  {
    seq(|frames|, i requires 0 <= i < |frames| => if |frames[i]| < 4 then [] else frames[i][4..])
  }

  datatype FrameFed = FrameFed(held: Held, host: Host, ok: bool)

  function FeedStructured(maximum: nat, disconnect: bool, sv: Services, s: Held, h: Host, data: Bytes): FrameFed
  {
    if |data| > maximum + 4 && s.buffer == [] then FrameFed(s, h, false)
    else
      var p := Parse(Counted(maximum), Pending(s) + data);
      var handled := HandleFrames(sv, h, Unprefixed(p.frames));
      if !p.ok then
        var wrote := Respond(sv, handled.host, ErrorResponse(Ascii(TOO_LARGE)));
        FrameFed(Held([], 0), wrote.host, !disconnect && wrote.ok)
      else if |Unpend(p.rest).buffer| > maximum then FrameFed(Held([], 0), handled.host, false)
      else FrameFed(Unpend(p.rest), handled.host, handled.ok)
  }

  function FeedChunks(maximum: nat, disconnect: bool, sv: Services, s: Held, h: Host, chunks: seq<Bytes>): FrameFed
    decreases |chunks|
  {
    if chunks == [] then FrameFed(s, h, true)
    else
      var first := FeedStructured(maximum, disconnect, sv, s, h, chunks[0]);
      var later := FeedChunks(maximum, disconnect, sv, first.held, first.host, chunks[1..]);
      later.(ok := first.ok && later.ok)
  }

  // ---------- held bytes ----------

  /** Holding a length and a part of the payload is the same as holding an incomplete frame. */
  lemma PendingIsIncomplete(maximum: nat, s: Held)
    requires WellFormed(maximum, s)
    ensures Look(Counted(maximum), Pending(s)) == Incomplete
    ensures Unpend(Pending(s)) == s
  {
    Pow256Values();
    if s.expected > 0 {
      BigEndianRoundTrip(4, s.expected);
      assert Pending(s)[0..4] == BigEndian(4, s.expected);
    }
  }

  lemma UnpendIsWellFormed(maximum: nat, p: Bytes)
    requires Look(Counted(maximum), p) == Incomplete
    ensures WellFormed(maximum, Unpend(p)) && Pending(Unpend(p)) == p
  {
    Pow256Values();
    if |p| >= 4 {
      FromBigEndianRoundTrip(p[..4]);
      assert p[0..4] == p[..4];
    }
  }

  lemma {:induction false} HandleInTwo(sv: Services, h: Host, a: seq<Bytes>, b: seq<Bytes>)
    ensures var first := HandleFrames(sv, h, a);
            var second := HandleFrames(sv, first.host, b);
            HandleFrames(sv, h, a + b) == Done(second.host, first.ok && second.ok)
    decreases |a|
  {
    hide HandleFrame;
    if a == [] {
      assert a + b == b;
    } else {
      assert (a + b)[1..] == a[1..] + b;
      HandleInTwo(sv, HandleFrame(sv, h, a[0]).host, a[1..], b);
    }
  }

  /** Over any payloads the registry is invoked for exactly the requests the policy let through. */
  lemma {:induction false} FramesPassThePolicy(sv: Services, h: Host, payloads: seq<Bytes>)
    requires OnlyLetThrough(sv, h)
    ensures OnlyLetThrough(sv, HandleFrames(sv, h, payloads).host)
    decreases |payloads|
  {
    hide OnlyLetThrough, HandleFrame;
    if payloads != [] {
      FramePassesThePolicy(sv, h, payloads[0]);
      FramesPassThePolicy(sv, HandleFrame(sv, h, payloads[0]).host, payloads[1..]);
    }
  }

  lemma FramePassesThePolicy(sv: Services, h: Host, payload: Bytes)
    requires OnlyLetThrough(sv, h)
    ensures OnlyLetThrough(sv, HandleFrame(sv, h, payload).host)
  {
    hide MatchesPassed, Passed, Answer, FramedResponse, DecodedRequest;
    if DecodedRequest(payload).Some? {
      var request := DecodedRequest(payload).value;
      PolicyDecides(sv, h.(requestId := request.id), request, StructuredCall(request));
    }
  }

  /** And what the observer was told remains what the policy or the registry answered. */
  lemma {:induction false} FramesAreDecided(sv: Services, h: Host, payloads: seq<Bytes>)
    requires AllDecided(sv, h)
    ensures AllDecided(sv, HandleFrames(sv, h, payloads).host)
    decreases |payloads|
  {
    hide AllDecided, HandleFrame;
    if payloads != [] {
      FrameIsDecided(sv, h, payloads[0]);
      FramesAreDecided(sv, HandleFrame(sv, h, payloads[0]).host, payloads[1..]);
    }
  }

  lemma FrameIsDecided(sv: Services, h: Host, payload: Bytes)
    requires AllDecided(sv, h)
    ensures AllDecided(sv, HandleFrame(sv, h, payload).host)
  {
    hide Passed, IsDecided, Answer, FramedResponse, DecodedRequest;
    if DecodedRequest(payload).Some? {
      var request := DecodedRequest(payload).value;
      AnswerIsDecided(sv, h.(requestId := request.id), request, StructuredCall(request));
    }
  }

  // ---------- a whole stream ----------

  /** With a limit of at least three bytes no residue is ever dropped: chunks that complete a
      well-framed stream are served exactly as the stream is. */
  lemma {:induction false} ChunksServeAsOne(maximum: nat, disconnect: bool, sv: Services, s: Held, h: Host, chunks: seq<Bytes>)
    requires maximum >= 3 && WellFormed(maximum, s) && ChunksAtMost(chunks, maximum + 4)
    requires Parse(Counted(maximum), Pending(s) + Flatten(chunks)).ok
    ensures var p := Parse(Counted(maximum), Pending(s) + Flatten(chunks));
            var handled := HandleFrames(sv, h, Unprefixed(p.frames));
            FeedChunks(maximum, disconnect, sv, s, h, chunks) == FrameFed(Unpend(p.rest), handled.host, handled.ok)
    decreases |chunks|
  {
    hide Look, Parse, FeedStructured, HandleFrames, WellFormed;
    var f := Counted(maximum);
    PendingIsIncomplete(maximum, s);
    if chunks == [] {
      ParseIsUnique(f, [], Pending(s));
      assert Pending(s) + [] == Pending(s) && Flatten([]) + Pending(s) == Pending(s);
      NothingHandled(sv, h);
    } else {
      var c, later := chunks[0], Flatten(chunks[1..]);
      assert Pending(s) + Flatten(chunks) == (Pending(s) + c) + later;
      ParseInTwo(f, Pending(s) + c, later);
      var p := Parse(f, Pending(s) + c);
      OneChunkIsServed(maximum, disconnect, sv, s, h, c);
      var q := Parse(f, p.rest + later);
      HandleInTwo(sv, h, Unprefixed(p.frames), Unprefixed(q.frames));
      assert Unprefixed(p.frames + q.frames) == Unprefixed(p.frames) + Unprefixed(q.frames);
      ChunksServeAsOne(maximum, disconnect, sv, Unpend(p.rest), HandleFrames(sv, h, Unprefixed(p.frames)).host, chunks[1..]);
    }
  }

  lemma OneChunkIsServed(maximum: nat, disconnect: bool, sv: Services, s: Held, h: Host, c: Bytes)
    requires maximum >= 3 && |c| <= maximum + 4
    requires Parse(Counted(maximum), Pending(s) + c).ok
    ensures var p := Parse(Counted(maximum), Pending(s) + c);
            var handled := HandleFrames(sv, h, Unprefixed(p.frames));
            && WellFormed(maximum, Unpend(p.rest)) && Pending(Unpend(p.rest)) == p.rest
            && FeedStructured(maximum, disconnect, sv, s, h, c) == FrameFed(Unpend(p.rest), handled.host, handled.ok)
  {
    hide Look, Parse, HandleFrames;
    var f := Counted(maximum);
    ParseLeavesLessThanAFrame(f, Pending(s) + c);
    UnpendIsWellFormed(maximum, Parse(f, Pending(s) + c).rest);
    WellFormedIsShort(maximum, Unpend(Parse(f, Pending(s) + c).rest));
  }

  lemma NothingHandled(sv: Services, h: Host)
    ensures HandleFrames(sv, h, Unprefixed([])) == Done(h, true)
  {
  }

  lemma WellFormedIsShort(maximum: nat, s: Held)
    requires maximum >= 3 && WellFormed(maximum, s)
    ensures |s.buffer| <= maximum
  {
  }

  /** Any list of allowed payloads, well formed or not, framed and cut into chunks of at most
      `size` bytes, is handled payload by payload. */
  ghost predicate ServesEveryStream(maximum: nat, size: nat, disconnect: bool, sv: Services, h: Host)
  {
    forall payloads: seq<Bytes>, chunks: seq<Bytes> ::
      && Allowed(Counted(maximum), payloads) && ChunksAtMost(chunks, size)
      && Flatten(chunks) == Flatten(BuildAll(Counted(maximum), payloads))
      ==>
        var handled := HandleFrames(sv, h, payloads);
        FeedChunks(maximum, disconnect, sv, Held([], 0), h, chunks) == FrameFed(Held([], 0), handled.host, handled.ok)
  }

  lemma PrefixesCut(maximum: nat, payloads: seq<Bytes>)
    requires Allowed(Counted(maximum), payloads)
    ensures Unprefixed(BuildAll(Counted(maximum), payloads)) == payloads
  {
    FramingRoundTrip(Counted(maximum), payloads);
    var frames := BuildAll(Counted(maximum), payloads);
    assert forall i :: 0 <= i < |frames| ==> frames[i][4..] == payloads[i];
  }

  lemma StreamIsServed(maximum: nat, disconnect: bool, sv: Services, h: Host, payloads: seq<Bytes>, chunks: seq<Bytes>)
    requires maximum >= 3
    requires Allowed(Counted(maximum), payloads) && ChunksAtMost(chunks, maximum + 4)
    requires Flatten(chunks) == Flatten(BuildAll(Counted(maximum), payloads))
    ensures var handled := HandleFrames(sv, h, payloads);
            FeedChunks(maximum, disconnect, sv, Held([], 0), h, chunks) == FrameFed(Held([], 0), handled.host, handled.ok)
  {
    hide FeedChunks, Parse, HandleFrames, Flatten, BuildAll, Unprefixed, Allowed;
    FramingRoundTrip(Counted(maximum), payloads);
    PrefixesCut(maximum, payloads);
    assert Pending(Held([], 0)) + Flatten(chunks) == Flatten(chunks);
    ChunksServeAsOne(maximum, disconnect, sv, Held([], 0), h, chunks);
  }

  lemma OneMoreByte(maximum: nat, disconnect: bool, sv: Services, b: Bytes, h: Host, x: byte)
    requires |b| <= maximum <= 2
    ensures FeedStructured(maximum, disconnect, sv, Held(b, 0), h, [x])
         == if |b| + 1 > maximum then FrameFed(Held([], 0), h, false) else FrameFed(Held(b + [x], 0), h, true)
  {
  }

  /** With a limit of one or two bytes, no stream that comes in byte by byte is ever served: the
      length prefix does not fit. */
  lemma {:induction false} PrefixIsLost(maximum: nat, disconnect: bool, sv: Services, b: Bytes, h: Host, chunks: seq<Bytes>)
    requires |b| <= maximum <= 2 && forall c :: c in chunks ==> |c| == 1
    ensures FeedChunks(maximum, disconnect, sv, Held(b, 0), h, chunks).host == h
    decreases |chunks|
  {
    hide FeedStructured;
    if chunks != [] {
      assert chunks[0] in chunks && forall c :: c in chunks[1..] ==> c in chunks;
      assert chunks[0] == [chunks[0][0]];
      OneMoreByte(maximum, disconnect, sv, b, h, chunks[0][0]);
      PrefixIsLost(maximum, disconnect, sv, if |b| + 1 > maximum then [] else b + chunks[0], h, chunks[1..]);
    }
  }

  /** A chunk of more than a whole frame is turned down when nothing is held, even if it begins
      with whole frames. */
  lemma {:induction false} BigChunksAreLost(maximum: nat, disconnect: bool, sv: Services, h: Host, chunks: seq<Bytes>)
    requires forall c :: c in chunks ==> |c| > maximum + 4
    ensures FeedChunks(maximum, disconnect, sv, Held([], 0), h, chunks) == FrameFed(Held([], 0), h, chunks == [])
    decreases |chunks|
  {
    if chunks != [] {
      assert chunks[0] in chunks && forall c :: c in chunks[1..] ==> c in chunks;
      BigChunksAreLost(maximum, disconnect, sv, h, chunks[1..]);
    }
  }

  lemma OneByteFrame(maximum: nat)
    requires maximum >= 1
    ensures Build(Counted(maximum), 0, [0]) == [0, 0, 0, 1, 0]
  {
    assert BigEndian(4, 1) == [0, 0, 0, 1] by {
      assert BigEndian(3, 0) == [0, 0, 0] by { assert BigEndian(2, 0) == [0, 0]; }
    }
  }

  lemma OneByteStream(maximum: nat)
    requires maximum >= 1
    ensures Allowed(Counted(maximum), [[0]])
    ensures Flatten(BuildAll(Counted(maximum), [[0]])) == Flatten([[0], [0], [0], [1], [0]])
  {
    OneByteFrame(maximum);
    hide Build;
    assert BuildAll(Counted(maximum), [[0]]) == [[0, 0, 0, 1, 0]];
    FlattenCons([0], [[0], [0], [1], [0]]);
    FlattenCons([0], [[0], [1], [0]]);
    FlattenCons([0], [[1], [0]]);
    FlattenCons([1], [[0]]);
    FlattenCons([0], []);
    FlattenCons([0, 0, 0, 1, 0], []);
  }

  function OneByteEach(n: nat): (r: seq<Bytes>)
    ensures |r| == n && forall i :: 0 <= i < n ==> r[i] == [0]
  {
    seq(n, _ => [0])
  }

  lemma {:induction false} OneByteFramesSize(maximum: nat, n: nat)
    requires maximum >= 1
    ensures |Flatten(BuildAll(Counted(maximum), OneByteEach(n)))| == 5 * n
  {
    hide Build;
    if n > 0 {
      OneByteFrame(maximum);
      OneByteFramesSize(maximum, n - 1);
      var frames := BuildAll(Counted(maximum), OneByteEach(n));
      assert frames[0] == [0, 0, 0, 1, 0];
      assert frames[1..] == BuildAll(Counted(maximum), OneByteEach(n - 1));
    }
  }

  /** A stream in five pieces of `m` bytes. */
  function FivePieces(s: Bytes, m: nat): (r: seq<Bytes>)
    requires |s| == 5 * m
    ensures forall c :: c in r ==> |c| == m
  {
    [s[..m], s[m..2 * m], s[2 * m..3 * m], s[3 * m..4 * m], s[4 * m..]]
  }

  lemma PiecesAreTheStream(s: Bytes, m: nat)
    requires |s| == 5 * m
    ensures Flatten(FivePieces(s, m)) == s
  {
    FlattenCons(s[..m], [s[m..2 * m], s[2 * m..3 * m], s[3 * m..4 * m], s[4 * m..]]);
    FlattenCons(s[m..2 * m], [s[2 * m..3 * m], s[3 * m..4 * m], s[4 * m..]]);
    FlattenCons(s[2 * m..3 * m], [s[3 * m..4 * m], s[4 * m..]]);
    FlattenCons(s[3 * m..4 * m], [s[4 * m..]]);
    FlattenCons(s[4 * m..], []);
    assert s[4 * m..] + [] == s[4 * m..];
    assert s[3 * m..4 * m] + s[4 * m..] == s[3 * m..];
    assert s[2 * m..3 * m] + s[3 * m..] == s[2 * m..];
    assert s[m..2 * m] + s[2 * m..] == s[m..];
    assert s[..m] + s[m..] == s;
    hide Flatten;
  }

  lemma ResponseSize(r: Response)
    ensures |PutResponse(r)| == 22 + |r.message|
  {
  }

  lemma SomethingIsWritten(sv: Services, h: Host, payload: Bytes)
    requires |payload| < 4
    ensures |HandleFrame(sv, h, payload).host.written| == |h.written| + 1
  {
    ResponseSize(ErrorResponse(Ascii(MALFORMED)));
  }

  lemma {:induction false} WrittenGrows(sv: Services, h: Host, payloads: seq<Bytes>)
    ensures |h.written| <= |HandleFrames(sv, h, payloads).host.written|
    decreases |payloads|
  {
    if payloads != [] {
      WrittenGrows(sv, HandleFrame(sv, h, payloads[0]).host, payloads[1..]);
    }
  }

  lemma StreamIsLost(maximum: nat, size: nat, disconnect: bool, sv: Services, h: Host, payloads: seq<Bytes>, chunks: seq<Bytes>)
    requires payloads != [] && |payloads[0]| < 4 && Allowed(Counted(maximum), payloads) && ChunksAtMost(chunks, size)
    requires Flatten(chunks) == Flatten(BuildAll(Counted(maximum), payloads))
    requires FeedChunks(maximum, disconnect, sv, Held([], 0), h, chunks).host == h
    ensures !ServesEveryStream(maximum, size, disconnect, sv, h)
  {
    hide FeedChunks, HandleFrame, Flatten, BuildAll;
    SomethingIsWritten(sv, h, payloads[0]);
    WrittenGrows(sv, HandleFrame(sv, h, payloads[0]).host, payloads[1..]);
  }

  /** Structured mode serves every well-framed stream under every cutting into chunks of up to
      `size` bytes exactly when the request limit is at least three and no chunk is longer than
      a frame of maximum size. */
  lemma StructuredModeServes(maximum: nat, size: nat, disconnect: bool, sv: Services, h: Host)
    requires maximum >= 1 && size >= 1
    ensures ServesEveryStream(maximum, size, disconnect, sv, h) <==> maximum >= 3 && size <= maximum + 4
  {
    hide FeedChunks, HandleFrames, Flatten, BuildAll;
    if maximum <= 2 {
      OneByteStream(maximum);
      PrefixIsLost(maximum, disconnect, sv, [], h, [[0], [0], [0], [1], [0]]);
      StreamIsLost(maximum, size, disconnect, sv, h, [[0]], [[0], [0], [0], [1], [0]]);
    } else if size > maximum + 4 {
      var m := maximum + 5;
      var payloads := OneByteEach(m);
      OneByteFramesSize(maximum, m);
      var s := Flatten(BuildAll(Counted(maximum), payloads));
      PiecesAreTheStream(s, m);
      BigChunksAreLost(maximum, disconnect, sv, h, FivePieces(s, m));
      StreamIsLost(maximum, size, disconnect, sv, h, payloads, FivePieces(s, m));
    } else {
      forall payloads: seq<Bytes>, chunks: seq<Bytes>
        | Allowed(Counted(maximum), payloads) && ChunksAtMost(chunks, size)
          && Flatten(chunks) == Flatten(BuildAll(Counted(maximum), payloads))
        ensures var handled := HandleFrames(sv, h, payloads);
                FeedChunks(maximum, disconnect, sv, Held([], 0), h, chunks) == FrameFed(Held([], 0), handled.host, handled.ok)
      {
        StreamIsServed(maximum, disconnect, sv, h, payloads, chunks);
      }
    }
  }
}
