/** The secure stream adapter: frames of a length, a protocol byte and an envelope, handed to
    the security layer one by one, with a fault that sticks until `Reset`. */
module SecuritySession {
  import opened Bytes
  import opened Wrappers
  import opened Framing
  import opened SocketFrames

  datatype Envelope = Envelope(protocol: byte, content: Bytes)

  /** What the application sees: an opened payload, or a failure. */
  datatype Notice = Received(payload: Bytes) | Failed

  /** The security layer: its answer to an envelope may depend on all it has seen before. */
  type Unprotector = (seq<Envelope>, Envelope) -> Notice

  /** The protocol byte and the envelope behind the length; every frame is long enough. */
  function EnvelopeOf(frame: Bytes): Envelope
  {
    if |frame| < 5 then Envelope(0, []) else Envelope(frame[4], frame[5..])
  }

  function Envelopes(frames: seq<Bytes>): (r: seq<Envelope>)
    ensures |r| == |frames|
  {
    seq(|frames|, i requires 0 <= i < |frames| => EnvelopeOf(frames[i]))
  }

  /** The notices that a list of envelopes causes, one each and in order. */
  function Opened(unprotect: Unprotector, seen: seq<Envelope>, envelopes: seq<Envelope>): (r: seq<Notice>)
    ensures |r| == |envelopes|
    decreases |envelopes|
  {
    if envelopes == [] then []
    else [unprotect(seen, envelopes[0])] + Opened(unprotect, seen + [envelopes[0]], envelopes[1..])
  }

  lemma {:induction false} OpenedSnoc(unprotect: Unprotector, seen: seq<Envelope>, envelopes: seq<Envelope>, e: Envelope)
    ensures Opened(unprotect, seen, envelopes + [e])
         == Opened(unprotect, seen, envelopes) + [unprotect(seen + envelopes, e)]
    decreases |envelopes|
  {
    if envelopes == [] {
      assert seen + [] == seen;
    } else {
      assert (envelopes + [e])[1..] == envelopes[1..] + [e];
      assert (seen + [envelopes[0]]) + envelopes[1..] == seen + envelopes;
      OpenedSnoc(unprotect, seen + [envelopes[0]], envelopes[1..], e);
    }
  }

  /** The frames `cut` have been handed over: the security layer saw their envelopes, and the
      application its answers. */
  predicate HandedOver(unprotect: Unprotector, seen0: seq<Envelope>, notices0: seq<Notice>, cut: seq<Bytes>,
                       seen: seq<Envelope>, notices: seq<Notice>)
  {
    seen == seen0 + Envelopes(cut) && notices == notices0 + Opened(unprotect, seen0, Envelopes(cut))
  }

  lemma HandedSoFar(unprotect: Unprotector, seen0: seq<Envelope>, notices0: seq<Notice>, cut: seq<Bytes>,
                    seen: seq<Envelope>, notices: seq<Notice>)
    ensures HandedOver(unprotect, seen0, notices0, cut, seen, notices)
       <==> seen == seen0 + Envelopes(cut) && notices == notices0 + Opened(unprotect, seen0, Envelopes(cut))
  {
  }

  lemma HandedOneMore(unprotect: Unprotector, seen0: seq<Envelope>, notices0: seq<Notice>, cut: seq<Bytes>,
                      seen: seq<Envelope>, notices: seq<Notice>, frame: Bytes)
    requires HandedOver(unprotect, seen0, notices0, cut, seen, notices)
    ensures HandedOver(unprotect, seen0, notices0, cut + [frame],
                       seen + [EnvelopeOf(frame)], notices + [unprotect(seen, EnvelopeOf(frame))])
  {
    OpenedSnoc(unprotect, seen0, Envelopes(cut), EnvelopeOf(frame));
    assert Envelopes(cut + [frame]) == Envelopes(cut) + [EnvelopeOf(frame)];
    hide Opened, Envelopes, EnvelopeOf;
  }

  // ---------- what feeding means ----------

  datatype Stream = Stream(buffer: Bytes, discarding: bool)

  datatype FedStream = FedStream(stream: Stream, envelopes: seq<Envelope>, ok: bool)

  function FeedStream(maximum: nat, s: Stream, data: Bytes): FedStream
  {
    if s.discarding then FedStream(s, [], false)
    else
      var p := Parse(Format.Secure(maximum), s.buffer + data);
      FedStream(Stream(p.rest, !p.ok), Envelopes(p.frames), p.ok)
  }

  function FeedAll(maximum: nat, s: Stream, chunks: seq<Bytes>): FedStream
    decreases |chunks|
  {
    if chunks == [] then FedStream(s, [], !s.discarding)
    else
      var first := FeedStream(maximum, s, chunks[0]);
      var later := FeedAll(maximum, first.stream, chunks[1..]);
      FedStream(later.stream, first.envelopes + later.envelopes, later.ok)
  }

  /** Feeding is a homomorphism: `a + b` at once, or `a` and then `b`, hands the security layer
      the same envelopes in the same order and ends in the same state with the same answer. */
  lemma FeedInTwo(maximum: nat, s: Stream, a: Bytes, b: Bytes)
    ensures var first := FeedStream(maximum, s, a);
            var second := FeedStream(maximum, first.stream, b);
            FeedStream(maximum, s, a + b) == FedStream(second.stream, first.envelopes + second.envelopes, second.ok)
  {
    hide Look;
    if !s.discarding {
      assert s.buffer + (a + b) == (s.buffer + a) + b;
      ParseInTwo(Format.Secure(maximum), s.buffer + a, b);
      ParseLeavesLessThanAFrame(Format.Secure(maximum), s.buffer + a);
      var p := Parse(Format.Secure(maximum), s.buffer + a);
      if p.ok {
        var q := Parse(Format.Secure(maximum), p.rest + b);
        assert Envelopes(p.frames + q.frames) == Envelopes(p.frames) + Envelopes(q.frames);
      }
    }
  }

  /** So any chunking amounts to one feed of all the bytes. */
  lemma {:induction false} ChunksFeedAsOne(maximum: nat, s: Stream, chunks: seq<Bytes>)
    requires s.discarding || Look(Format.Secure(maximum), s.buffer) == Incomplete
    ensures FeedAll(maximum, s, chunks) == FeedStream(maximum, s, Flatten(chunks))
    decreases |chunks|
  {
    hide Look;
    if chunks == [] {
      assert s.buffer + [] == s.buffer;
    } else {
      var first := FeedStream(maximum, s, chunks[0]);
      if !s.discarding {
        ParseLeavesLessThanAFrame(Format.Secure(maximum), s.buffer + chunks[0]);
      }
      ChunksFeedAsOne(maximum, first.stream, chunks[1..]);
      FeedInTwo(maximum, s, chunks[0], Flatten(chunks[1..]));
    }
  }

  // ---------- end to end ----------

  predicate Sendable(maximum: nat, e: Envelope)
  {
    1 <= |e.content| <= maximum && |e.content| <= U32_MAX
  }

  /** The bytes `Send` writes for an envelope it accepts. */
  function SentFrame(e: Envelope): Bytes
  {
    LittleEndian(4, |e.content|) + [e.protocol] + e.content
  }

  function SentFrames(envelopes: seq<Envelope>): (r: seq<Bytes>)
    ensures |r| == |envelopes|
  {
    seq(|envelopes|, i requires 0 <= i < |envelopes| => SentFrame(envelopes[i]))
  }

  /** Whatever was sent arrives unchanged and in order under any chunking, and nothing is left
      over, when the receiver's limit is at least the sender's. */
  lemma SendsArrive(senderMaximum: nat, receiverMaximum: nat, envelopes: seq<Envelope>, chunks: seq<Bytes>)
    requires senderMaximum <= receiverMaximum
    requires forall e :: e in envelopes ==> Sendable(senderMaximum, e)
    requires Flatten(chunks) == Flatten(SentFrames(envelopes))
    ensures FeedAll(receiverMaximum, Stream([], false), chunks) == FedStream(Stream([], false), envelopes, true)
  {
    var f, frames := Format.Secure(receiverMaximum), SentFrames(envelopes);
    forall i | 0 <= i < |frames|
      ensures IsFrame(f, frames[i]) && EnvelopeOf(frames[i]) == envelopes[i]
    {
      var e := envelopes[i];
      assert Sendable(senderMaximum, e);
      assert frames[i] == Build(f, e.protocol, e.content);
      BuildMakesAFrame(f, e.protocol, e.content);
      assert Payload(f, frames[i]) == frames[i][5..];
    }
    ChunksFeedAsOne(receiverMaximum, Stream([], false), chunks);
    ParseIsUnique(f, frames, []);
    assert [] + Flatten(chunks) == Flatten(frames) + [];
    assert Envelopes(frames) == envelopes;
  }

  /** A declared length the receiver does not allow stops the stream for good: nothing after it
      reaches the security layer until a reset. */
  lemma FaultSticks(maximum: nat, s: Stream, a: Bytes, b: Bytes)
    requires !FeedStream(maximum, s, a).ok
    ensures FeedStream(maximum, s, a + b) == FeedStream(maximum, s, a)
    ensures FeedStream(maximum, s, a).stream.discarding
  {
    FeedInTwo(maximum, s, a, b);
    assert FeedStream(maximum, s, a).envelopes + [] == FeedStream(maximum, s, a).envelopes;
  }

  // ---------- the session object ----------

  /** The transport's answer to a frame may depend on all it was handed before. */
  type Writer = (seq<Bytes>, Bytes) -> bool

  class SocketSecuritySession {
    const maximum: nat
    const unprotect: Unprotector
    const writer: Option<Writer>
    var buffer: Bytes
    var discarding: bool
    // the calls that left the session: to `Unprotect`, to the callbacks, to the writer
    var unprotected: seq<Envelope>
    var notices: seq<Notice>
    var written: seq<Bytes>

    function AsStream(): Stream
      reads this
    {
      Stream(buffer, discarding)
    }

    constructor (maximum: nat, unprotect: Unprotector, writer: Option<Writer>)
      ensures this.maximum == maximum && this.unprotect == unprotect && this.writer == writer
      ensures AsStream() == Stream([], false) && unprotected == [] && notices == [] && written == []
    {
      this.maximum, this.unprotect, this.writer := maximum, unprotect, writer;
      buffer, discarding, unprotected, notices, written := [], false, [], [], [];
    }

    method Reset()
      modifies this`buffer, this`discarding
      ensures AsStream() == Stream([], false)
    {
      buffer, discarding := [], false;
    }

    /** `guarded` is what `Protect` made of the payload; `report` is the detailed result, whether
        the payload was protected and fits, which is there whenever there is a writer. */
    method Send(protocol: byte, guarded: Notice) returns (ok: bool, report: Option<bool>)
      modifies this`written, this`notices
      ensures report == if writer.None? then None
                        else Some(guarded.Received? && Sendable(maximum, Envelope(protocol, guarded.payload)))
      ensures report == Some(true) ==>
        var frame := SentFrame(Envelope(protocol, guarded.payload));
        written == old(written) + [frame] && ok == writer.value(old(written), frame) && notices == old(notices)
      ensures report != Some(true) ==> !ok && written == old(written)
      ensures report == None ==> notices == old(notices)
      ensures report == Some(false) ==> notices == old(notices) + [Failed]
    {
      if writer.None? {
        return false, None;
      }
      if guarded.Failed? {
        notices := notices + [Failed];
        return false, Some(false);
      }
      var content := guarded.payload;
      if |content| == 0 || |content| > maximum || |content| > U32_MAX {
        notices := notices + [Failed];
        return false, Some(false);
      }
      var frame := Append32([], |content|);
      frame := frame + [protocol];
      frame := frame + content;
      assert frame == SentFrame(Envelope(protocol, content));
      ok := writer.value(written, frame);
      written := written + [frame];
      report := Some(true);
    }

    static method Append32(out: Bytes, value: nat) returns (r: Bytes)
      requires value <= U32_MAX
      ensures r == out + LittleEndian(4, value)
    {
      r := out;
      var rest, i := value, 0;
      while i < 4
        invariant 0 <= i <= 4
        invariant out + LittleEndian(4, value) == r + LittleEndian(4 - i, rest)
      {
        r := r + [rest % 256];
        rest := rest / 256;
        i := i + 1;
      }
      assert r + [] == r;
    }

    method Feed(data: Bytes) returns (ok: bool)
      modifies this`buffer, this`discarding, this`unprotected, this`notices
      ensures var r := FeedStream(maximum, old(AsStream()), data);
              && ok == r.ok && AsStream() == r.stream
              && unprotected == old(unprotected) + r.envelopes
              && notices == old(notices) + Opened(unprotect, old(unprotected), r.envelopes)
                          + (if !old(discarding) && !r.ok then [Failed] else [])
    {
      if discarding {
        return false;
      }
      buffer := buffer + data;
      ghost var f := Format.Secure(maximum);
      ghost var whole := Parse(f, buffer);
      ghost var cut: seq<Bytes> := [];
      ParseStarts(f, buffer);
      HandedSoFar(unprotect, unprotected, notices, cut, unprotected, notices);
      assert unprotected + [] == unprotected && notices + [] == notices;
      hide Parse, Continues, Opened, Envelopes, Look, HandedOver, EnvelopeOf;
      while true
        invariant Continues(f, whole, cut, buffer)
        invariant !discarding
        invariant HandedOver(unprotect, old(unprotected), old(notices), cut, unprotected, notices)
        decreases |buffer|
      {
        ghost var held := buffer;
        ParseGoesOn(f, whole, cut, buffer);
        ghost var seen, told := unprotected, notices;
        HandedSoFar(unprotect, old(unprotected), old(notices), cut, seen, told);
        var front := TakeFrame();
        if !front.Whole? {
          return front == Incomplete;
        }
        HandedOneMore(unprotect, old(unprotected), old(notices), cut, seen, told, held[..front.size]);
        cut := cut + [held[..front.size]];
      }
    }

    /** One turn of the loop in `Feed`. */
    method TakeFrame() returns (front: Front)
      requires !discarding
      modifies this`buffer, this`discarding, this`unprotected, this`notices
      ensures front == old(Look(Format.Secure(maximum), buffer)) && discarding == front.Invalid?
      ensures match front
              case Incomplete => buffer == old(buffer) && unprotected == old(unprotected) && notices == old(notices)
              case Invalid => buffer == [] && unprotected == old(unprotected) && notices == old(notices) + [Failed]
              case Whole(n) =>
                && 0 < n <= |old(buffer)| && buffer == old(buffer)[n..]
                && unprotected == old(unprotected) + [EnvelopeOf(old(buffer)[..n])]
                && notices == old(notices) + [unprotect(old(unprotected), EnvelopeOf(old(buffer)[..n]))]
    {
      if |buffer| < 5 {
        return Incomplete;
      }
      var length := FromLittleEndian(buffer[0..4]);
      if length == 0 || length > maximum {
        buffer := [];
        discarding := true;
        notices := notices + [Failed];
        return Invalid;
      }
      if |buffer| < 5 + length {
        return Incomplete;
      }
      assert EnvelopeOf(buffer[..5 + length]) == Envelope(buffer[4], buffer[5..5 + length]);
      ProcessEnvelope(buffer[4], buffer[5..5 + length]);
      buffer := buffer[5 + length..];
      return Whole(5 + length);
    }

    method ProcessEnvelope(protocol: byte, content: Bytes)
      modifies this`unprotected, this`notices
      ensures unprotected == old(unprotected) + [Envelope(protocol, content)]
      ensures notices == old(notices) + [unprotect(old(unprotected), Envelope(protocol, content))]
    {
      var notice := unprotect(unprotected, Envelope(protocol, content));
      unprotected := unprotected + [Envelope(protocol, content)];
      notices := notices + [notice];
    }
  }
}
