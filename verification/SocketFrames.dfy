/** The decoder objects. The State decoder consumes a frame before it calls back, so that the
    callback may feed it again; the Event decoder consumes the frame afterwards. */
module SocketFrames {
  import opened Bytes
  import opened Framing
  import opened FrameDecoder

  const EVENT_LIMIT: nat := 65536

  /** The State frame builder; the empty string is its refusal. */
  function BuildSocketStateFrame(payload: Bytes, maximum: nat): Bytes
  {
    if payload == [] || maximum == 0 || |payload| > maximum || |payload| > U32_MAX then []
    else Build(Packed(STATE_MAGIC, maximum), 0, payload)
  }

  function BuildSocketEventFrame(payload: Bytes): Bytes
  {
    if payload == [] || |payload| > EVENT_LIMIT then []
    else Build(Packed(EVENT_MAGIC, EVENT_LIMIT), 0, payload)
  }

  /** Both builders answer with a frame of the payload, or refuse exactly what no receiver
      with the same limit could be sent. */
  lemma BuildersAreExact(payload: Bytes, maximum: nat)
    ensures var f, s := Packed(STATE_MAGIC, maximum), BuildSocketStateFrame(payload, maximum);
            if 1 <= |payload| <= maximum && |payload| <= U32_MAX
            then IsFrame(f, s) && Payload(f, s) == payload else s == []
    ensures var f, s := Packed(EVENT_MAGIC, EVENT_LIMIT), BuildSocketEventFrame(payload);
            if 1 <= |payload| <= EVENT_LIMIT
            then IsFrame(f, s) && Payload(f, s) == payload else s == []
  {
    if 1 <= |payload| <= maximum && |payload| <= U32_MAX {
      BuildMakesAFrame(Packed(STATE_MAGIC, maximum), 0, payload);
    }
    if 1 <= |payload| <= EVENT_LIMIT {
      BuildMakesAFrame(Packed(EVENT_MAGIC, EVENT_LIMIT), 0, payload);
    }
  }

  // ---------- a parse carried out by a loop ----------

  /** Having cut `cut`, what is left to do on `buffer` completes the parse `whole`. */
  predicate Continues(f: Format, whole: Parsed, cut: seq<Bytes>, buffer: Bytes)
  {
    var p := Parse(f, buffer);
    whole == Parsed(cut + p.frames, p.rest, p.ok)
  }

  lemma ParseStarts(f: Format, buffer: Bytes)
    ensures Continues(f, Parse(f, buffer), [], buffer)
  {
    var p := Parse(f, buffer);
    assert [] + p.frames == p.frames;
  }

  lemma ParseGoesOn(f: Format, whole: Parsed, cut: seq<Bytes>, buffer: Bytes)
    requires Continues(f, whole, cut, buffer)
    ensures match Look(f, buffer)
            case Incomplete => whole == Parsed(cut, buffer, true)
            case Invalid => whole == Parsed(cut, [], false)
            case Whole(n) => Continues(f, whole, cut + [buffer[..n]], buffer[n..])
  {
    hide HeaderAccepted, Announced;
    assert cut + [] == cut;
    if Look(f, buffer).Whole? {
      var n := Look(f, buffer).size;
      var p := Parse(f, buffer[n..]);
      assert cut + ([buffer[..n]] + p.frames) == (cut + [buffer[..n]]) + p.frames;
    }
  }

  // ---------- callbacks that feed the decoder ----------

  /** What the callbacks of a run do, in the order they do it: each one feeds some chunks and
      then returns. A script that has run out stands for callbacks that just return. */
  datatype Action = Feed(chunk: Bytes) | Return

  function Fed(actions: seq<Action>): Bytes
  {
    if actions == [] then []
    else (if actions[0].Feed? then actions[0].chunk else []) + Fed(actions[1..])
  }

  lemma {:induction false} FedConcat(a: seq<Action>, b: seq<Action>)
    ensures Fed(a + b) == Fed(a) + Fed(b)
  {
    if a == [] {
      assert a + b == b;
    } else {
      assert (a + b)[1..] == a[1..] + b;
      FedConcat(a[1..], b);
    }
  }

  /** A rejected chunk or header, with the buffer that was dropped. */
  datatype Refusal = RefusedChunk(buffered: Bytes, chunk: Bytes) | RefusedHeader(buffered: Bytes)

  predicate Justified(f: Format, r: Refusal)
  {
    match r
    case RefusedChunk(b, c) => c != [] && !Fits(f, b, c)
    case RefusedHeader(b) => Look(f, b) == Invalid
  }

  /** The part of `before` that is gone when `after` is left. */
  function Taken(before: seq<Action>, after: seq<Action>): seq<Action>
    requires |after| <= |before|
  {
    before[..|before| - |after|]
  }

  predicate IsTail(after: seq<Action>, before: seq<Action>)
  {
    |after| <= |before| && after == before[|before| - |after|..]
  }

  lemma FedInTwo(s0: seq<Action>, s1: seq<Action>, s2: seq<Action>)
    requires IsTail(s1, s0) && IsTail(s2, s1)
    ensures IsTail(s2, s0)
    ensures Fed(Taken(s0, s2)) == Fed(Taken(s0, s1)) + Fed(Taken(s1, s2))
  {
    FedConcat(Taken(s0, s1), Taken(s1, s2));
    assert Taken(s0, s2) == Taken(s0, s1) + Taken(s1, s2);
  }

  lemma FedNothing(s: seq<Action>)
    ensures Fed(Taken(s, s)) == []
  {
  }

  lemma FedNext(s0: seq<Action>, s: seq<Action>)
    requires IsTail(s, s0) && s != []
    ensures IsTail(s[1..], s0)
    ensures Fed(Taken(s0, s[1..])) == Fed(Taken(s0, s)) + (if s[0].Feed? then s[0].chunk else [])
  {
    assert Taken(s, s[1..]) == [s[0]];
    FedInTwo(s0, s, s[1..]);
  }

  /** The start of a State frame that some limit allows, but not all of it. */
  predicate PartOfAFrame(s: Bytes)
  {
    var f := Packed(STATE_MAGIC, 0);
    |s| < 12 || (FromLittleEndian(s[0..4]) == STATE_MAGIC && s[4] == FRAME_VERSION && |s| - 12 < Announced(f, s))
  }

  lemma IncompleteIsPartOfAFrame(maximum: nat, s: Bytes)
    ensures Look(Packed(STATE_MAGIC, maximum), s) == Incomplete
       <==> PartOfAFrame(s) && (|s| < 12 || Announced(Packed(STATE_MAGIC, maximum), s) <= maximum)
  {
  }

  /** What the decoder has taken in, called back with, refused, and still has to do. */
  datatype Progress = Progress(maximum: nat, arrived: Bytes, delivered: seq<Bytes>, script: seq<Action>, refusals: seq<Refusal>)

  /** Between the two, nothing delivered or refused is forgotten, and unless something was
      refused, what arrived are the bytes `data` and those the callbacks fed. */
  predicate Grown(before: Progress, data: Bytes, after: Progress)
  {
    && after.maximum == before.maximum
    && IsTail(after.script, before.script)
    && before.delivered <= after.delivered
    && before.refusals <= after.refusals
    && (after.refusals == [] ==> after.arrived == before.arrived + data + Fed(Taken(before.script, after.script)))
  }

  lemma TailOfSameLength(after: seq<Action>, before: seq<Action>)
    requires IsTail(after, before)
    ensures |after| <= |before| && (|after| == |before| ==> after == before)
  {
  }

  lemma GrownNotAtAll(p: Progress)
    ensures Grown(p, [], p)
  {
    assert Fed(Taken(p.script, p.script)) == [];
    assert p.arrived + [] + [] == p.arrived;
  }

  lemma GrownByTaking(p: Progress, data: Bytes)
    ensures Grown(p, data, p.(arrived := p.arrived + data))
  {
    FedNothing(p.script);
    assert p.arrived + data + [] == p.arrived + data;
  }

  lemma GrownByRefusing(p: Progress, data: Bytes, r: Refusal)
    ensures Grown(p, data, p.(refusals := p.refusals + [r]))
  {
  }

  lemma GrownInTwo(a: Progress, data: Bytes, b: Progress, c: Progress)
    requires Grown(a, data, b) && Grown(b, [], c)
    ensures Grown(a, data, c)
    ensures |a.refusals| <= |b.refusals| <= |c.refusals| && c.maximum == b.maximum == a.maximum
    ensures |c.script| <= |b.script| && (|c.script| == |b.script| ==> c.script == b.script)
  {
    TailOfSameLength(c.script, b.script);
    FedInTwo(a.script, b.script, c.script);
    if c.refusals == [] {
      AddedUp(a.arrived + data, Fed(Taken(a.script, b.script)), Fed(Taken(b.script, c.script)));
    }
    hide Fed, Taken, IsTail;
  }

  lemma AddedUp(x: Bytes, f: Bytes, g: Bytes)
    ensures x + f + [] + g == x + (f + g)
  {
  }

  lemma CutOne(f: Format, frames: seq<Bytes>, buffer: Bytes, n: nat)
    requires AllFrames(f, frames) && f.Packed? && Look(f, buffer) == Whole(n)
    ensures 12 < n <= |buffer| && AllFrames(f, frames + [buffer[..n]])
    ensures Payloads(f, frames + [buffer[..n]]) == Payloads(f, frames) + [buffer[12..n]]
    ensures Flatten(frames + [buffer[..n]]) + buffer[n..] == Flatten(frames) + buffer
  {
    var frame := buffer[..n];
    FrontIsAFrame(f, buffer);
    FlattenSnoc(frames, frame);
    assert Payload(f, frame) == buffer[12..n];
    assert buffer == frame + buffer[n..];
    assert Flatten(frames) + (frame + buffer[n..]) == (Flatten(frames) + frame) + buffer[n..];
  }

  lemma GrownByReturning(p: Progress)
    requires p.script != [] && p.script[0].Return?
    ensures Grown(p, [], p.(script := p.script[1..]))
  {
    FedNext(p.script, p.script);
    FedNothing(p.script);
    assert p.arrived + [] + [] == p.arrived;
  }

  lemma GrownByFeeding(p: Progress, after: Progress)
    requires p.script != [] && p.script[0].Feed?
    requires Grown(p.(script := p.script[1..]), p.script[0].chunk, after)
    ensures Grown(p, [], after) && |after.script| < |p.script|
  {
    var chunk, s1 := p.script[0].chunk, p.script[1..];
    FedNext(p.script, p.script);
    FedNothing(p.script);
    FedInTwo(p.script, s1, after.script);
    var f := Fed(Taken(s1, after.script));
    assert Fed(Taken(p.script, s1)) == chunk;
    hide Fed, Taken;
    if after.refusals == [] {
      assert p.arrived + chunk + f == p.arrived + [] + (chunk + f);
    }
  }

  class SocketStateFrameDecoder {
    var maximumPayloadBytes: nat
    var buffer: Bytes
    // what the callbacks still have to do, and the payloads they were called with
    var script: seq<Action>
    var delivered: seq<Bytes>
    // every byte taken in, the frames cut from it, and every rejection
    ghost var arrived: Bytes
    ghost var frames: seq<Bytes>
    ghost var refusals: seq<Refusal>

    function Layout(): Format
      reads this
    {
      Packed(STATE_MAGIC, maximumPayloadBytes)
    }

    ghost predicate Valid()
      reads this
    {
      && AllFrames(Layout(), frames)
      && delivered == Payloads(Layout(), frames)
      && (forall r :: r in refusals ==> Justified(Layout(), r))
      && (refusals == [] ==> arrived == Flatten(frames) + buffer)
    }

    ghost function Now(): Progress
      reads this
    {
      Progress(maximumPayloadBytes, arrived, delivered, script, refusals)
    }

    constructor (maximum: nat, callbacks: seq<Action>)
      ensures Valid() && maximumPayloadBytes == maximum && script == callbacks
      ensures buffer == [] && delivered == [] && arrived == [] && refusals == []
    {
      maximumPayloadBytes, buffer, script, delivered := maximum, [], callbacks, [];
      arrived, frames, refusals := [], [], [];
    }

    /** The history starts afresh, too. */
    method Reset()
      modifies this`buffer, this`delivered, this`frames, this`refusals, this`arrived
      ensures Valid() && buffer == []
      ensures delivered == [] && frames == [] && refusals == [] && arrived == []
    {
      buffer := [];
      delivered, frames, refusals, arrived := [], [], [], [];
    }

    /** The history starts afresh with the new limit. What is buffered is kept if a push of the
        new limit could have left it there, and then holds no more of a frame than before,
        however often the limit is changed. */
    method SetMaximumPayloadBytes(value: nat)
      modifies this
      ensures Valid() && maximumPayloadBytes == value && script == old(script)
      ensures delivered == [] && frames == [] && refusals == [] && arrived == buffer
      ensures buffer == if |old(buffer)| > value + 12 then [] else old(buffer)
      ensures old(PartOfAFrame(buffer)) ==>
        && PartOfAFrame(buffer) && !Look(Layout(), buffer).Whole?
        && (Look(Layout(), buffer) == Invalid
            <==> 12 <= |old(buffer)| <= value + 12 && Announced(Layout(), old(buffer)) > value)
    {
      maximumPayloadBytes := value;
      if |buffer| > maximumPayloadBytes + 12 {
        buffer := [];
      }
      delivered, frames, refusals, arrived := [], [], [], buffer;
      assert Flatten([]) + buffer == buffer;
    }

    /** With any callbacks, nested to any depth: unless something was rejected, callbacks have
        started in the order of a one-shot parse of all bytes in arrival order, each frame once. */
    method Push(data: Bytes) returns (ok: bool)
      requires Valid()
      modifies this
      ensures Valid()
      ensures Grown(old(Now()), data, Now())
      ensures !ok ==> |refusals| > |old(refusals)|
      ensures refusals == [] && (data != [] || old(Look(Layout(), buffer)) == Incomplete)
        ==> Parse(Layout(), arrived) == Parsed(frames, buffer, true)
      ensures old(script) == [] && (data != [] || old(Look(Layout(), buffer)) == Incomplete)
        ==> var r := FrameDecoder.Push(old(Layout()), old(buffer), data);
            && frames == old(frames) + r.frames && buffer == r.buffer && (ok <==> r.verdict == Accepted)
      decreases |script|, 3
    {
      GrownNotAtAll(Now());
      if |data| == 0 {
        ParseIsUniqueWhenIncomplete();
        return true;
      }
      if maximumPayloadBytes == 0 || |buffer| + |data| > maximumPayloadBytes + 12 {
        GrownByRefusing(Now(), data, RefusedChunk(buffer, data));
        refusals := refusals + [RefusedChunk(buffer, data)];
        buffer := [];
        return false;
      }
      hide Look, Parse, Grown, AllFrames, Payloads, Justified, Flatten;
      assert refusals == [] ==> arrived + data == Flatten(frames) + (buffer + data);
      buffer := buffer + data;
      arrived := arrived + data;
      ghost var taken := Now();
      GrownByTaking(old(Now()), data);
      ok := DeliverFrames();
      GrownInTwo(old(Now()), data, taken, Now());
    }

    /** The loop of `Push`: call back for every whole frame at the front of the buffer. */
    method DeliverFrames() returns (ok: bool)
      requires Valid()
      modifies this
      ensures Valid()
      ensures Grown(old(Now()), [], Now())
      ensures !ok ==> |refusals| > |old(refusals)|
      ensures refusals == [] ==> Parse(Layout(), arrived) == Parsed(frames, buffer, true)
      ensures old(script) == [] ==>
        var p := Parse(Layout(), old(buffer)); frames == old(frames) + p.frames && buffer == p.rest && ok == p.ok
      decreases |script|, 2
    {
      GrownNotAtAll(Now());
      ghost var whole := Parse(Layout(), buffer);
      ghost var cut: seq<Bytes> := [];
      ParseStarts(Layout(), buffer);
      hide Look, Parse, Continues, Grown, Valid;
      while true
        invariant Valid()
        invariant Grown(old(Now()), [], Now())
        invariant old(script) == [] ==> frames == old(frames) + cut && Continues(Layout(), whole, cut, buffer)
        decreases |script|, |buffer|
      {
        ghost var before, held := Now(), buffer;
        GrownNotAtAll(before);
        GrownInTwo(old(Now()), [], before, before);
        if old(script) == [] {
          ParseGoesOn(Layout(), whole, cut, buffer);
        }
        var front := CutFrame();
        ghost var during := Now();
        GrownInTwo(old(Now()), [], before, during);
        if !front.Whole? {
          return front == Incomplete;
        }
        cut := cut + [held[..front.size]];
        Callback();
        GrownInTwo(before, [], during, Now());
        GrownInTwo(old(Now()), [], before, Now());
      }
    }

    lemma ParseIsUniqueWhenIncomplete()
      requires Valid()
      ensures refusals == [] && Look(Layout(), buffer) == Incomplete
        ==> Parse(Layout(), arrived) == Parsed(frames, buffer, true)
    {
      if Look(Layout(), buffer) == Incomplete {
        ParseIsUnique(Layout(), frames, buffer);
      }
    }

    /** One turn of the loop in `Push`: inspect the front of the buffer and, when it holds a
        whole frame, copy the payload out and erase the frame. */
    method CutFrame() returns (front: Front)
      requires Valid()
      modifies this`buffer, this`frames, this`delivered, this`refusals
      ensures Valid()
      ensures front == old(Look(Layout(), buffer))
      ensures Grown(old(Now()), [], Now())
      ensures match front
              case Incomplete =>
                && buffer == old(buffer) && frames == old(frames) && delivered == old(delivered) && refusals == old(refusals)
                && (refusals == [] ==> Parse(Layout(), arrived) == Parsed(frames, buffer, true))
              case Invalid =>
                && buffer == [] && frames == old(frames) && delivered == old(delivered)
                && refusals == old(refusals) + [RefusedHeader(old(buffer))]
              case Whole(n) =>
                && 0 < n <= old(|buffer|) && frames == old(frames) + [old(buffer)[..n]] && buffer == old(buffer)[n..]
                && |delivered| == |old(delivered)| + 1 && old(delivered) <= delivered && refusals == old(refusals)
    {
      GrownNotAtAll(Now());
      if |buffer| < 12 {
        ParseIsUnique(Layout(), frames, buffer);
        return Incomplete;
      }
      var magic, version := FromLittleEndian(buffer[0..4]), buffer[4];
      var length := FromLittleEndian(buffer[8..12]);
      if magic != STATE_MAGIC || version != FRAME_VERSION || length == 0 || length > maximumPayloadBytes {
        refusals := refusals + [RefusedHeader(buffer)];
        buffer := [];
        return Invalid;
      }
      var frameSize := 12 + length;
      if |buffer| < frameSize {
        ParseIsUnique(Layout(), frames, buffer);
        return Incomplete;
      }
      assert Look(Layout(), buffer) == Whole(frameSize);
      CutOne(Layout(), frames, buffer, frameSize);
      hide Look, AllFrames, Payloads, Flatten;
      var payload := buffer[12..frameSize];
      frames := frames + [buffer[..frameSize]];
      buffer := buffer[frameSize..];
      delivered := delivered + [payload];
      return Whole(frameSize);
    }

    /** The application's callback: whatever the script has it do before it returns. */
    method Callback()
      requires Valid()
      modifies this
      ensures Valid()
      ensures Grown(old(Now()), [], Now())
      ensures script == old(script) ==> buffer == old(buffer) && frames == old(frames)
      decreases |script|, 1
    {
      hide Grown, Valid;
      GrownNotAtAll(Now());
      if script != [] {
        var done := Act();
        if !done {
          ghost var during := Now();
          Callback();
          GrownInTwo(old(Now()), [], during, Now());
        }
      }
    }

    /** The next thing a callback does: feed a chunk, or return. */
    method Act() returns (done: bool)
      requires Valid() && script != []
      modifies this
      ensures Valid()
      ensures Grown(old(Now()), [], Now())
      ensures |script| < |old(script)|
      decreases |script|, 0
    {
      hide Look, Parse, FrameDecoder.Push, AllFrames, Payloads, Justified, Flatten, Fits;
      var action := script[0];
      script := script[1..];
      if action.Return? {
        GrownByReturning(old(Now()));
        return true;
      }
      var _ := Push(action.chunk);
      GrownByFeeding(old(Now()), Now());
      return false;
    }
  }

  class SocketEventFrameDecoder {
    var buffer: Bytes
    // the payloads the callback was called with, in order
    var delivered: seq<Bytes>
    ghost var frames: seq<Bytes>

    ghost predicate Valid()
      reads this
    {
      && AllFrames(Packed(EVENT_MAGIC, EVENT_LIMIT), frames)
      && delivered == Payloads(Packed(EVENT_MAGIC, EVENT_LIMIT), frames)
    }

    constructor ()
      ensures Valid() && buffer == [] && delivered == [] && frames == []
    {
      buffer, delivered, frames := [], [], [];
    }

    method Reset()
      modifies this`buffer
      ensures buffer == []
    {
      buffer := [];
    }

    /** With a callback that does not feed the decoder, one push is one step of the shared reading. */
    method Push(data: Bytes) returns (ok: bool)
      requires Valid()
      modifies this
      ensures Valid()
      ensures var r := FrameDecoder.Push(Packed(EVENT_MAGIC, EVENT_LIMIT), old(buffer), data);
              frames == old(frames) + r.frames && buffer == r.buffer && (ok <==> r.verdict == Accepted)
    {
      if |data| == 0 {
        return true;
      }
      if |buffer| + |data| > EVENT_LIMIT + 12 {
        buffer := [];
        return false;
      }
      buffer := buffer + data;
      ghost var f := Packed(EVENT_MAGIC, EVENT_LIMIT);
      ghost var whole := Parse(f, buffer);
      ghost var cut: seq<Bytes> := [];
      ParseStarts(f, buffer);
      hide Look, Parse, Continues, AllFrames, Payloads;
      while true
        invariant Valid() && frames == old(frames) + cut && Continues(f, whole, cut, buffer)
        decreases |buffer|
      {
        ghost var held := buffer;
        ParseGoesOn(f, whole, cut, buffer);
        var front := CutFrame();
        if !front.Whole? {
          return front == Incomplete;
        }
        cut := cut + [held[..front.size]];
      }
    }

    /** One turn of the loop in `Push`: call back with the payload in place, then erase the frame. */
    method CutFrame() returns (front: Front)
      requires Valid()
      modifies this
      ensures Valid()
      ensures front == old(Look(Packed(EVENT_MAGIC, EVENT_LIMIT), buffer))
      ensures match front
              case Incomplete => buffer == old(buffer) && frames == old(frames)
              case Invalid => buffer == [] && frames == old(frames)
              case Whole(n) =>
                0 < n <= old(|buffer|) && frames == old(frames) + [old(buffer)[..n]] && buffer == old(buffer)[n..]
    {
      if |buffer| < 12 {
        return Incomplete;
      }
      var magic, version := FromLittleEndian(buffer[0..4]), buffer[4];
      var length := FromLittleEndian(buffer[8..12]);
      if magic != EVENT_MAGIC || version != FRAME_VERSION || length == 0 || length > EVENT_LIMIT {
        buffer := [];
        return Invalid;
      }
      var frameSize := 12 + length;
      if |buffer| < frameSize {
        return Incomplete;
      }
      FrontIsAFrame(Packed(EVENT_MAGIC, EVENT_LIMIT), buffer);
      assert buffer[12..frameSize] == Payload(Packed(EVENT_MAGIC, EVENT_LIMIT), buffer[..frameSize]);
      delivered := delivered + [buffer[12..frameSize]];
      frames := frames + [buffer[..frameSize]];
      buffer := buffer[frameSize..];
      return Whole(frameSize);
    }
  }
}
