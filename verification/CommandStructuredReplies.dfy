/** What a client of structured mode gets to read: the responses to its requests, in order. */
module CommandStructuredReplies {
  import opened Bytes
  import opened Wrappers
  import opened Framing
  import opened CommandWire
  import opened CommandProtocol
  import opened CommandHost
  import opened CommandStructuredMode

  /** The responses to a list of payloads, one each, with the state of the surroundings carried along. */
  function Replies(sv: Services, h: Host, payloads: seq<Bytes>): (r: seq<Response>)
    ensures |r| == |payloads|
    decreases |payloads|
  {
    if payloads == [] then []
    else [Reply(sv, h, payloads[0]).1] + Replies(sv, HandleFrame(sv, h, payloads[0]).host, payloads[1..])
  }

  /** A response whose message leaves room for the 22 bytes around it in a 32-bit length. */
  predicate Sendable(r: Response)
  {
    |r.message| + 22 <= U32_MAX
  }

  lemma ReplyKeepsWritten(sv: Services, h: Host, payload: Bytes)
    ensures Reply(sv, h, payload).0.written == h.written
    ensures Reply(sv, h, payload).1.id <= U64_MAX
    ensures Sendable(Reply(sv, h, payload).1) <==> FramedResponse(Reply(sv, h, payload).1).Some?
  {
    ResponseSize(Reply(sv, h, payload).1);
    if DecodedRequest(payload).Some? {
      DecodedWireIff(payload, DecodedWire(payload).value);
    }
  }

  /** What the client unframes and decodes from the written bytes. */
  predicate Reads(written: Bytes, responses: seq<Response>)
  {
    var p := Parse(Counted(U32_MAX), written);
    && p.ok && p.rest == [] && |p.frames| == |responses|
    && forall i :: 0 <= i < |responses| ==> |p.frames[i]| >= 4 && DecodedResponse(p.frames[i][4..]) == Some(responses[i])
  }

  function Frames(responses: seq<Response>): (r: seq<Bytes>)
    ensures |r| == |responses|
  {
    seq(|responses|, i requires 0 <= i < |responses| => Build(Counted(U32_MAX), 0, PutResponse(responses[i])))
  }

  /** The responses that fit a frame; for any other nothing is written. */
  function Written(responses: seq<Response>): seq<Response>
  {
    if responses == [] then []
    else (if Sendable(responses[0]) then [responses[0]] else []) + Written(responses[1..])
  }

  lemma {:induction false} WrittenAreSendable(responses: seq<Response>)
    ensures forall x :: x in Written(responses) ==> x in responses && Sendable(x)
    ensures (forall x :: x in responses ==> Sendable(x)) ==> Written(responses) == responses
  {
    hide Sendable;
    if responses != [] {
      WrittenAreSendable(responses[1..]);
      assert responses[0] in responses && forall x :: x in responses[1..] ==> x in responses;
      CutAt(responses, 1);
    }
  }

  lemma FramesConcat(a: seq<Response>, b: seq<Response>)
    ensures Frames(a + b) == Frames(a) + Frames(b)
  {
    hide Build, PutResponse;
  }

  lemma FramesOfWritten(responses: seq<Response>)
    requires responses != []
    ensures Frames(Written(responses))
         == (if Sendable(responses[0]) then Frames([responses[0]]) else []) + Frames(Written(responses[1..]))
  {
    hide Sendable, Frames;
    FramesConcat([responses[0]], Written(responses[1..]));
    assert [] + Written(responses[1..]) == Written(responses[1..]);
  }

  lemma {:induction false} RepliesAreWritten(sv: Services, h: Host, payloads: seq<Bytes>)
    ensures HandleFrames(sv, h, payloads).host.written == h.written + Frames(Written(Replies(sv, h, payloads)))
    decreases |payloads|
  {
    hide HandleFrame, Reply, Sendable, Frames, Written;
    if payloads == [] {
      NothingIsWritten(h.written);
    } else {
      var responses := Replies(sv, h, payloads);
      var h' := HandleFrame(sv, h, payloads[0]).host;
      assert responses[0] == Reply(sv, h, payloads[0]).1 && responses[1..] == Replies(sv, h', payloads[1..]);
      ReplyIsWritten(sv, h, payloads[0]);
      RepliesAreWritten(sv, h', payloads[1..]);
      FramesOfWritten(responses);
      Associate(h.written, if Sendable(responses[0]) then Frames([responses[0]]) else [], Frames(Written(responses[1..])));
    }
  }

  lemma NothingIsWritten(written: seq<Bytes>)
    ensures written + Frames(Written([])) == written
  {
  }

  lemma {:induction false} ReplyIdsFit(sv: Services, h: Host, payloads: seq<Bytes>)
    ensures forall r :: r in Replies(sv, h, payloads) ==> r.id <= U64_MAX
    decreases |payloads|
  {
    hide HandleFrame, Reply;
    if payloads != [] {
      ReplyIsWritten(sv, h, payloads[0]);
      ReplyIdsFit(sv, HandleFrame(sv, h, payloads[0]).host, payloads[1..]);
    }
  }

  lemma ReplyIsWritten(sv: Services, h: Host, payload: Bytes)
    ensures Reply(sv, h, payload).1.id <= U64_MAX
    ensures var r := Reply(sv, h, payload).1;
            HandleFrame(sv, h, payload).host.written == h.written + if Sendable(r) then Frames([r]) else []
  {
    hide Reply, PutResponse;
    ReplyKeepsWritten(sv, h, payload);
    assert h.written + [] == h.written;
  }

  lemma FramesAreRead(responses: seq<Response>)
    requires forall r :: r in responses ==> Sendable(r) && r.id <= U64_MAX
    ensures Reads(Flatten(Frames(responses)), responses)
  {
    var f := Counted(U32_MAX);
    var frames := Frames(responses);
    forall i | 0 <= i < |responses|
      ensures IsFrame(f, frames[i]) && |frames[i]| >= 4 && DecodedResponse(frames[i][4..]) == Some(responses[i])
    {
      var r := responses[i];
      assert r in responses;
      ResponseSize(r);
      BuildMakesAFrame(f, 0, PutResponse(r));
      ResponseRoundTrip(r, PutResponse(r));
    }
    ParseIsUnique(f, frames, []);
    assert Flatten(frames) + [] == Flatten(frames);
  }

  // ---------- which responses they are ----------

  predicate AllSendable(responses: seq<Response>)
  {
    forall r :: r in responses ==> Sendable(r)
  }

  /** The responses that payloads should have, one each, if the observer was `told` these answers
      meanwhile: a request's own ID with the answer that was told for it, and for a payload that
      is no request ID 0 and an error, of which the observer is not told. */
  predicate AreResponses(payloads: seq<Bytes>, told: seq<(Request, Result)>, responses: seq<Response>)
    decreases |payloads|
  {
    if payloads == [] then told == [] && responses == []
    else
      responses != [] &&
      match DecodedRequest(payloads[0])
      case None =>
        && responses[0] == Response(0, false, 1, Ascii(MALFORMED))
        && AreResponses(payloads[1..], told, responses[1..])
      case Some(request) =>
        && told != [] && told[0].0 == request
        && responses[0].id == request.id && IsResult(responses[0], told[0].1)
        && AreResponses(payloads[1..], told[1..], responses[1..])
  }

  predicate IsResult(response: Response, result: Result)
  {
    response.success == result.success && response.code == result.code && response.message == result.message
  }

  lemma {:induction false} RepliesAreResponses(sv: Services, h: Host, payloads: seq<Bytes>)
    ensures var z := HandleFrames(sv, h, payloads).host;
            && h.observed <= z.observed
            && AreResponses(payloads, z.observed[|h.observed|..], Replies(sv, h, payloads))
    decreases |payloads|
  {
    hide HandleFrame, Reply, DecodedRequest, AreResponses;
    if payloads == [] {
      NoResponses();
      assert h.observed[|h.observed|..] == [];
    } else {
      var m := HandleFrame(sv, h, payloads[0]).host;
      var z := HandleFrames(sv, m, payloads[1..]).host;
      RepliesAreResponses(sv, m, payloads[1..]);
      var told := OneResponse(sv, h, payloads[0]);
      CutAt(z.observed, |m.observed|);
      assert z.observed[|h.observed|..] == told + z.observed[|m.observed|..];
      var later := Replies(sv, m, payloads[1..]);
      assert ([Reply(sv, h, payloads[0]).1] + later)[1..] == later;
      OneResponseMore(payloads, told, z.observed[|m.observed|..], Replies(sv, h, payloads));
    }
  }

  lemma NoResponses()
    ensures AreResponses([], [], [])
  {
  }

  lemma OneResponseMore(payloads: seq<Bytes>, told: seq<(Request, Result)>, later: seq<(Request, Result)>, responses: seq<Response>)
    requires payloads != [] && responses != [] && AreResponses(payloads[1..], later, responses[1..])
    requires IsOneResponse(payloads[0], told, responses[0])
    ensures AreResponses(payloads, told + later, responses)
  {
    hide DecodedRequest;
    assert told == [] ==> told + later == later;
    assert |told| == 1 ==> (told + later)[1..] == later;
  }

  predicate IsOneResponse(payload: Bytes, told: seq<(Request, Result)>, r: Response)
  {
    match DecodedRequest(payload)
    case None => told == [] && r == Response(0, false, 1, Ascii(MALFORMED))
    case Some(request) => |told| == 1 && told[0].0 == request && r.id == request.id && IsResult(r, told[0].1)
  }

  /** The session's request number is that of the last request it answered. */
  lemma {:induction false} FramesSetTheNumber(sv: Services, h: Host, payloads: seq<Bytes>)
    ensures var z := HandleFrames(sv, h, payloads).host;
            && h.observed <= z.observed
            && z.requestId == if z.observed == h.observed then h.requestId else z.observed[|z.observed| - 1].0.id
    decreases |payloads|
  {
    hide HandleFrame, Reply, DecodedRequest;
    if payloads != [] {
      var told := OneResponse(sv, h, payloads[0]);
      FramesSetTheNumber(sv, HandleFrame(sv, h, payloads[0]).host, payloads[1..]);
    }
  }

  /** The answer is whether every response fitted a frame and the writer took every frame. */
  lemma {:induction false} FramesAreTaken(sv: Services, h: Host, payloads: seq<Bytes>)
    ensures var z := HandleFrames(sv, h, payloads);
            && h.written <= z.host.written
            && (z.ok <==> AllSendable(Replies(sv, h, payloads)) && AllTaken(sv, z.host.written, |h.written|))
    decreases |payloads|
  {
    hide HandleFrame, Reply, Sendable, IsOneResponse;
    if payloads != [] {
      var m, responses := HandleFrame(sv, h, payloads[0]), Replies(sv, h, payloads);
      var z := HandleFrames(sv, m.host, payloads[1..]).host;
      FramesAreTaken(sv, m.host, payloads[1..]);
      var _ := OneResponse(sv, h, payloads[0]);
      var later := Replies(sv, m.host, payloads[1..]);
      assert responses == [Reply(sv, h, payloads[0]).1] + later;
      assert AllSendable(responses) <==> Sendable(responses[0]) && AllSendable(later);
      TakenInTwo(sv, m.host.written, |h.written|, |m.host.written|, z.written);
      hide AllTaken, AllSendable;
    }
  }

  lemma OneResponse(sv: Services, h: Host, payload: Bytes) returns (told: seq<(Request, Result)>)
    ensures var m, r := HandleFrame(sv, h, payload), Reply(sv, h, payload).1;
            && m.host.observed == h.observed + told
            && (m.ok <==> Sendable(r) && AllTaken(sv, m.host.written, |h.written|))
            && h.written <= m.host.written
            && IsOneResponse(payload, told, r)
            && m.host.requestId == if told == [] then h.requestId else told[0].0.id
  {
    hide DecodedRequest, FramedResponse, Sendable;
    ReplyKeepsWritten(sv, h, payload);
    var m := HandleFrame(sv, h, payload);
    told := m.host.observed[|h.observed|..];
    assert h.observed + [] == h.observed;
    assert h.written <= m.host.written && m.host.written[..|h.written|] == h.written;
  }

  // ---------- end to end ----------

  /** What a client reads: all the responses that fit a frame. */
  ghost predicate ReadsThose(written: Bytes, responses: seq<Response>)
  {
    Reads(written, Written(responses)) && (AllSendable(responses) ==> Reads(written, responses))
  }

  /** Between `h` and `z` the payloads were answered, and after their responses the client reads
      those in `more`. */
  ghost predicate ClientReads(payloads: seq<Bytes>, more: seq<Response>, h: Host, z: Host)
  {
    h.observed <= z.observed && h.written <= z.written &&
    exists responses :: AreResponses(payloads, z.observed[|h.observed|..], responses)
                        && ReadsThose(Flatten(z.written[|h.written|..]), responses + more)
  }

  lemma {:induction false} WrittenInTwo(a: seq<Response>, b: seq<Response>)
    ensures Written(a + b) == Written(a) + Written(b)
  {
    hide Sendable;
    if a == [] {
      assert a + b == b && [] + Written(b) == Written(b);
    } else {
      assert (a + b)[0] == a[0] && (a + b)[1..] == a[1..] + b;
      WrittenInTwo(a[1..], b);
      Associate(if Sendable(a[0]) then [a[0]] else [], Written(a[1..]), Written(b));
    }
  }

  lemma FramesAreReadOff(responses: seq<Response>)
    requires forall r :: r in responses ==> r.id <= U64_MAX
    ensures ReadsThose(Flatten(Frames(Written(responses))), responses)
  {
    WrittenAreSendable(responses);
    FramesAreRead(Written(responses));
    hide Sendable, Reads, Frames, Written;
  }

  /** Structured mode end to end: framed and fed in any chunks, a list of payloads makes the
      session write bytes that unframe and decode to exactly one response per payload, in order:
      the request's ID with the answer the observer was told for it, which the policy or the
      registry gave, or ID 0 and an error for a malformed payload. Only a response that no frame
      has room for is missing. */
  lemma StructuredEndToEnd(maximum: nat, disconnect: bool, sv: Services, h: Host, payloads: seq<Bytes>, chunks: seq<Bytes>)
    requires maximum >= 3
    requires Allowed(Counted(maximum), payloads) && ChunksAtMost(chunks, maximum + 4)
    requires Flatten(chunks) == Flatten(BuildAll(Counted(maximum), payloads))
    ensures var fed := FeedChunks(maximum, disconnect, sv, Held([], 0), h, chunks);
            fed.held == Held([], 0) && ClientReads(payloads, [], h, fed.host) && (AllDecided(sv, h) ==> AllDecided(sv, fed.host))
  {
    StreamIsServed(maximum, disconnect, sv, h, payloads, chunks);
    if AllDecided(sv, h) {
      FramesAreDecided(sv, h, payloads);
    }
    ClientReadsReplies(sv, h, payloads);
    hide FeedChunks, HandleFrames, ClientReads, AllDecided, Flatten, BuildAll;
  }

  lemma ClientReadsReplies(sv: Services, h: Host, payloads: seq<Bytes>)
    ensures ClientReads(payloads, [], h, HandleFrames(sv, h, payloads).host)
  {
    var responses, z := Replies(sv, h, payloads), HandleFrames(sv, h, payloads).host;
    RepliesAreResponses(sv, h, payloads);
    RepliesAreWritten(sv, h, payloads);
    ReplyIdsFit(sv, h, payloads);
    FramesAreReadOff(responses);
    hide HandleFrames, AreResponses, ReadsThose, Frames, Written, Flatten;
    assert z.written[|h.written|..] == Frames(Written(responses));
    assert responses + [] == responses;
  }

  // ---------- after a bad length ----------

  lemma {:induction false} FeedOneMore(maximum: nat, disconnect: bool, sv: Services, s: Held, h: Host, chunks: seq<Bytes>, last: Bytes)
    ensures var before := FeedChunks(maximum, disconnect, sv, s, h, chunks);
            var after := FeedStructured(maximum, disconnect, sv, before.held, before.host, last);
            FeedChunks(maximum, disconnect, sv, s, h, chunks + [last]) == after.(ok := before.ok && after.ok)
    decreases |chunks|
  {
    hide FeedStructured;
    if chunks == [] {
      assert chunks + [last] == [last] && [last][1..] == [];
    } else {
      var first := FeedStructured(maximum, disconnect, sv, s, h, chunks[0]);
      assert (chunks + [last])[0] == chunks[0] && (chunks + [last])[1..] == chunks[1..] + [last];
      FeedOneMore(maximum, disconnect, sv, first.held, first.host, chunks[1..], last);
    }
  }

  /** A length prefix that announces nothing, or more than the limit. */
  predicate BadLength(maximum: nat, header: Bytes)
  {
    |header| == 4 && !(1 <= FromBigEndian(header) <= maximum)
  }

  lemma BadLengthIsInvalid(maximum: nat, header: Bytes, tail: Bytes)
    requires BadLength(maximum, header)
    ensures Parse(Counted(maximum), header + tail) == Parsed([], [], false)
    ensures Look(Counted(maximum), header[..3]) == Incomplete
  {
    assert (header + tail)[0..4] == header;
  }

  /** Before the fourth byte of the bad length nothing is wrong yet. */
  lemma StillGood(maximum: nat, frames: seq<Bytes>, header: Bytes, tail: Bytes, a: Bytes, b: Bytes)
    requires AllFrames(Counted(maximum), frames) && BadLength(maximum, header)
    requires a + b == Flatten(frames) + (header + tail) && |a| < |Flatten(frames)| + 4
    ensures var p := Parse(Counted(maximum), a);
            var q := Parse(Counted(maximum), p.rest + b);
            p.ok && p.frames + q.frames == frames && !q.ok
  {
    var f, good := Counted(maximum), Flatten(frames) + header[..3];
    BadLengthIsInvalid(maximum, header, tail);
    ParseIsUnique(f, frames, header[..3]);
    assert good == (a + b)[..|good|] by {
      assert header[..3] == (header + tail)[..3];
    }
    var c := good[|a|..];
    assert a == (a + b)[..|a|] && good[..|a|] == a;
    assert a + c == good;
    ParseInTwo(f, a, c);
    ParseInTwo(f, a, b);
    ParseFrames(f, frames, header + tail);
    assert frames + [] == frames;
    hide Parse, Look, AllFrames, Flatten, BadLength;
  }

  const TOO_LARGE_RESPONSE := Response(0, false, 1, Ascii(TOO_LARGE))

  lemma ErrorIsWritten(sv: Services, h: Host)
    ensures var z := Respond(sv, h, ErrorResponse(Ascii(TOO_LARGE)));
            && z.host == h.(written := h.written + Frames([TOO_LARGE_RESPONSE]))
            && (z.ok <==> LastTaken(sv, z.host.written))
    ensures Sendable(TOO_LARGE_RESPONSE) && TOO_LARGE_RESPONSE.id == 0
  {
    ResponseSize(TOO_LARGE_RESPONSE);
    var frame := Build(Counted(U32_MAX), 0, PutResponse(TOO_LARGE_RESPONSE));
    assert Frames([TOO_LARGE_RESPONSE]) == [frame];
    assert (h.written + [frame])[..|h.written|] == h.written;
  }

  ghost predicate LastTaken(sv: Services, written: seq<Bytes>)
  {
    written != [] && sv.writer(written[..|written| - 1], written[|written| - 1])
  }

  lemma ErrorIsRead(sv: Services, h: Host, payloads: seq<Bytes>)
    ensures var m := HandleFrames(sv, h, payloads).host;
            ClientReads(payloads, [TOO_LARGE_RESPONSE], h, Respond(sv, m, ErrorResponse(Ascii(TOO_LARGE))).host)
  {
    var responses, m := Replies(sv, h, payloads), HandleFrames(sv, h, payloads).host;
    RepliesAreResponses(sv, h, payloads);
    RepliesAreWritten(sv, h, payloads);
    ReplyIdsFit(sv, h, payloads);
    ErrorIsWritten(sv, m);
    hide TOO_LARGE_RESPONSE, Sendable, HandleFrames, AreResponses, ReadsThose, Frames, Respond, Flatten;
    var all := responses + [TOO_LARGE_RESPONSE];
    WrittenInTwo(responses, [TOO_LARGE_RESPONSE]);
    WrittenOne();
    FramesConcat(Written(responses), [TOO_LARGE_RESPONSE]);
    FramesAreReadOff(all);
    hide Written;
    var z := Respond(sv, m, ErrorResponse(Ascii(TOO_LARGE))).host;
    Associate(h.written, Frames(Written(responses)), Frames([TOO_LARGE_RESPONSE]));
    assert z.written[|h.written|..] == Frames(Written(all));
  }

  lemma WrittenOne()
    ensures Written([TOO_LARGE_RESPONSE]) == [TOO_LARGE_RESPONSE]
  {
    assert [TOO_LARGE_RESPONSE][1..] == [];
  }

  lemma BadChunk(maximum: nat, disconnect: bool, sv: Services, rest: Bytes, h: Host, last: Bytes)
    requires |last| <= maximum + 4 && Look(Counted(maximum), rest) == Incomplete
    requires !Parse(Counted(maximum), rest + last).ok
    ensures var q := Parse(Counted(maximum), rest + last);
            var z := Respond(sv, HandleFrames(sv, h, Unprefixed(q.frames)).host, ErrorResponse(Ascii(TOO_LARGE)));
            FeedStructured(maximum, disconnect, sv, Unpend(rest), h, last) == FrameFed(Held([], 0), z.host, !disconnect && z.ok)
  {
    UnpendIsWellFormed(maximum, rest);
    hide Parse, Look, HandleFrames, Respond;
  }

  /** Frames before a bad length are answered, one error follows, and nothing stays in the buffer.
      The answer is false if the session is configured to disconnect; it forgets what the frames
      of the last chunk came to. */
  lemma BadLengthEndsTheStream(maximum: nat, disconnect: bool, sv: Services, h: Host, payloads: seq<Bytes>,
                               header: Bytes, tail: Bytes, chunks: seq<Bytes>, last: Bytes)
    requires maximum >= 3 && Allowed(Counted(maximum), payloads) && BadLength(maximum, header)
    requires ChunksAtMost(chunks, maximum + 4) && |last| <= maximum + 4
    requires Flatten(chunks) + last == Flatten(BuildAll(Counted(maximum), payloads)) + (header + tail)
    requires |Flatten(chunks)| < |Flatten(BuildAll(Counted(maximum), payloads))| + 4
    ensures var fed := FeedChunks(maximum, disconnect, sv, Held([], 0), h, chunks + [last]);
            && fed.held == Held([], 0)
            && ClientReads(payloads, [TOO_LARGE_RESPONSE], h, fed.host)
            && (AllDecided(sv, h) ==> AllDecided(sv, fed.host))
            && (fed.ok <==> FeedChunks(maximum, disconnect, sv, Held([], 0), h, chunks).ok
                            && !disconnect && LastTaken(sv, fed.host.written))
  {
    hide TOO_LARGE_RESPONSE, Parse, Look, HandleFrames, Respond, FeedStructured, FeedChunks, ClientReads, LastTaken, BuildAll,
      Flatten, Unprefixed, BadLength, IsDecided;
    var f, frames := Counted(maximum), BuildAll(Counted(maximum), payloads);
    BuildAllMakesFrames(f, payloads);
    PrefixesCut(maximum, payloads);
    StillGood(maximum, frames, header, tail, Flatten(chunks), last);
    var p := Parse(f, Flatten(chunks));
    var q := Parse(f, p.rest + last);
    ParseLeavesLessThanAFrame(f, Flatten(chunks));
    assert Pending(Held([], 0)) + Flatten(chunks) == Flatten(chunks);
    EmptyIsWellFormed(maximum);
    ChunksServeAsOne(maximum, disconnect, sv, Held([], 0), h, chunks);
    FeedOneMore(maximum, disconnect, sv, Held([], 0), h, chunks, last);
    BadChunk(maximum, disconnect, sv, p.rest, HandleFrames(sv, h, Unprefixed(p.frames)).host, last);
    HandleInTwo(sv, h, Unprefixed(p.frames), Unprefixed(q.frames));
    UnprefixedInTwo(p.frames, q.frames);
    var m := HandleFrames(sv, h, payloads).host;
    if AllDecided(sv, h) {
      FramesAreDecided(sv, h, payloads);
    }
    ErrorIsWritten(sv, m);
    ErrorIsRead(sv, h, payloads);
  }

  lemma EmptyIsWellFormed(maximum: nat)
    ensures WellFormed(maximum, Held([], 0))
  {
  }

  lemma UnprefixedInTwo(a: seq<Bytes>, b: seq<Bytes>)
    ensures Unprefixed(a + b) == Unprefixed(a) + Unprefixed(b)
  {
  }
}
