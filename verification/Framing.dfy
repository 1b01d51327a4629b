/** Length-prefixed framing of a byte stream, as the four stream protocols use it. One format
    differs from another in its header only, so what a stream means is defined here once:
    `Parse` reads it from the front, and `ParseIsUnique` says there is no other reading. */
module Framing {
  import opened Bytes

  /** The State and Event frame headers (magic, version, three reserved bytes, length),
      the secure frame header (length, protocol) and the structured Command length prefix. */
  datatype Format =
    | Packed(magic: nat, limit: nat)
    | Secure(limit: nat)
    | Counted(limit: nat)
  {
    function HeaderSize(): nat {
      match this
      case Packed(_, _) => 12
      case Secure(_) => 5
      case Counted(_) => 4
    }
  }

  const STATE_MAGIC: nat := 0x4B535453
  const EVENT_MAGIC: nat := 0x4556534B
  const FRAME_VERSION: byte := 1

  /** What the front of a buffer holds. */
  datatype Front = Incomplete | Invalid | Whole(size: nat)

  /** The payload length announced by a complete header. */
  function Announced(f: Format, s: Bytes): nat
    requires |s| >= f.HeaderSize()
  {
    match f
    case Packed(_, _) => FromLittleEndian(s[8..12])
    case Secure(_) => FromLittleEndian(s[0..4])
    case Counted(_) => FromBigEndian(s[0..4])
  }

  predicate HeaderAccepted(f: Format, s: Bytes)
    requires |s| >= f.HeaderSize()
  {
    && (f.Packed? ==> FromLittleEndian(s[0..4]) == f.magic && s[4] == FRAME_VERSION)
    && 1 <= Announced(f, s) <= f.limit
  }

  function Look(f: Format, s: Bytes): (r: Front)
    ensures r.Whole? ==> f.HeaderSize() < r.size <= |s|
  {
    if |s| < f.HeaderSize() then Incomplete
    else if !HeaderAccepted(f, s) then Invalid
    else if |s| < f.HeaderSize() + Announced(f, s) then Incomplete
    else Whole(f.HeaderSize() + Announced(f, s))
  }

  /** What follows the header of a frame. */
  function Payload(f: Format, frame: Bytes): Bytes
  {
    if |frame| < f.HeaderSize() then [] else frame[f.HeaderSize()..]
  }

  /** `s` is one complete acceptable frame and nothing else. */
  predicate IsFrame(f: Format, s: Bytes)
  {
    Look(f, s) == Whole(|s|)
  }

  predicate AllFrames(f: Format, frames: seq<Bytes>)
  {
    forall i :: 0 <= i < |frames| ==> IsFrame(f, frames[i])
  }

  function Payloads(f: Format, frames: seq<Bytes>): (r: seq<Bytes>)
    ensures |r| == |frames|
  {
    seq(|frames|, i requires 0 <= i < |frames| => Payload(f, frames[i]))
  }

  /** The frames at the front of a stream, what is left over, and whether no bad header was met. */
  datatype Parsed = Parsed(frames: seq<Bytes>, rest: Bytes, ok: bool)

  function Parse(f: Format, s: Bytes): Parsed
    decreases |s|
  {
    match Look(f, s)
    case Incomplete => Parsed([], s, true)
    case Invalid => Parsed([], [], false)
    case Whole(n) =>
      var p := Parse(f, s[n..]);
      Parsed([s[..n]] + p.frames, p.rest, p.ok)
  }

  predicate ChunksAtMost(chunks: seq<Bytes>, size: nat)
  {
    forall i :: 0 <= i < |chunks| ==> |chunks[i]| <= size
  }

  // ---------- properties of the front ----------

  /** More bytes never change what a decided front says. */
  lemma LookIsStable(f: Format, a: Bytes, b: Bytes)
    requires Look(f, a) != Incomplete
    ensures Look(f, a + b) == Look(f, a)
  {
    var s := a + b;
    assert s[0..4] == a[0..4];
    if f.Packed? {
      assert s[8..12] == a[8..12];
    }
  }

  lemma FrontIsAFrame(f: Format, s: Bytes)
    requires Look(f, s).Whole?
    ensures IsFrame(f, s[..Look(f, s).size])
  {
    var n := Look(f, s).size;
    var a := s[..n];
    assert a[0..4] == s[0..4];
    if f.Packed? {
      assert a[8..12] == s[8..12];
    }
  }

  // ---------- properties of a parse ----------

  /** Every parse yields whole frames. */
  lemma {:induction false} ParseYieldsFrames(f: Format, s: Bytes)
    ensures AllFrames(f, Parse(f, s).frames)
    decreases |s|
  {
    hide Look;
    if Look(f, s).Whole? {
      FrontIsAFrame(f, s);
      ParseYieldsFrames(f, s[Look(f, s).size..]);
    }
  }

  lemma {:induction false} ParseLeavesLessThanAFrame(f: Format, s: Bytes)
    ensures Parse(f, s).ok ==> Look(f, Parse(f, s).rest) == Incomplete
    ensures !Parse(f, s).ok ==> Parse(f, s).rest == []
    decreases |s|
  {
    hide Look;
    if Look(f, s).Whole? {
      ParseLeavesLessThanAFrame(f, s[Look(f, s).size..]);
    }
  }

  /** Unless a header was bad, a parse loses no byte. */
  lemma {:induction false} ParseConserves(f: Format, s: Bytes)
    requires Parse(f, s).ok
    ensures s == Flatten(Parse(f, s).frames) + Parse(f, s).rest
    decreases |s|
  {
    hide Look, Flatten;
    if Look(f, s).Whole? {
      var n := Look(f, s).size;
      ParseConserves(f, s[n..]);
      var p := Parse(f, s[n..]);
      FlattenCons(s[..n], p.frames);
      CutAt(s, n);
      Associate(s[..n], Flatten(p.frames), p.rest);
    } else {
      NothingCut(s);
    }
  }

  lemma NothingCut(s: Bytes)
    ensures s == Flatten([]) + s
  {
  }

  lemma ParseWhole(f: Format, x: Bytes, t: Bytes)
    requires IsFrame(f, x)
    ensures var p := Parse(f, t); Parse(f, x + t) == Parsed([x] + p.frames, p.rest, p.ok)
  {
    LookIsStable(f, x, t);
    assert (x + t)[..|x|] == x && (x + t)[|x|..] == t;
  }

  /** Whole frames at the front of a stream are parsed one by one, whatever follows. */
  lemma {:induction false} ParseFrames(f: Format, frames: seq<Bytes>, t: Bytes)
    requires AllFrames(f, frames)
    ensures var p := Parse(f, t);
            Parse(f, Flatten(frames) + t) == Parsed(frames + p.frames, p.rest, p.ok)
  {
    hide Look, Parse;
    if frames == [] {
      assert Flatten(frames) + t == t;
    } else {
      var rest := Flatten(frames[1..]) + t;
      assert Flatten(frames) + t == frames[0] + rest;
      assert IsFrame(f, frames[0]);
      ParseWhole(f, frames[0], rest);
      ParseFrames(f, frames[1..], t);
      assert frames == [frames[0]] + frames[1..];
    }
  }

  /** There is only one way to read a stream as frames followed by less than a frame. */
  lemma ParseIsUnique(f: Format, frames: seq<Bytes>, rest: Bytes)
    requires AllFrames(f, frames) && Look(f, rest) == Incomplete
    ensures Parse(f, Flatten(frames) + rest) == Parsed(frames, rest, true)
  {
    ParseFrames(f, frames, rest);
    assert frames + [] == frames;
  }

  /** Parsing in two instalments: keep the leftover, append, go on. */
  lemma ParseInTwo(f: Format, a: Bytes, b: Bytes)
    ensures var p := Parse(f, a);
            Parse(f, a + b) ==
            if p.ok then
              var q := Parse(f, p.rest + b);
              Parsed(p.frames + q.frames, q.rest, q.ok)
            else p
    decreases |a|
  {
    hide Look;
    match Look(f, a)
    case Incomplete =>
      var q := Parse(f, a + b);
      assert [] + q.frames == q.frames;
    case Invalid =>
      LookIsStable(f, a, b);
    case Whole(n) =>
      LookIsStable(f, a, b);
      assert (a + b)[..n] == a[..n];
      assert (a + b)[n..] == a[n..] + b;
      ParseInTwo(f, a[n..], b);
      var p := Parse(f, a[n..]);
      if p.ok {
        var q := Parse(f, p.rest + b);
        Associate([a[..n]], p.frames, q.frames);
      }
  }

  /** What a parse leaves over is shorter than a header plus the largest payload. */
  lemma RestIsBounded(f: Format, s: Bytes)
    requires f.limit >= 1
    ensures |Parse(f, s).rest| < f.HeaderSize() + f.limit
  {
    ParseLeavesLessThanAFrame(f, s);
  }

  // ---------- building frames ----------

  /** The header every builder writes; `tag` is the secure frame's protocol byte. */
  function Header(f: Format, tag: byte, n: nat): (h: Bytes)
    ensures |h| == f.HeaderSize()
  {
    match f
    case Packed(magic, _) => LittleEndian(4, magic) + [FRAME_VERSION, 0, 0, 0] + LittleEndian(4, n)
    case Secure(_) => LittleEndian(4, n) + [tag]
    case Counted(_) => BigEndian(4, n)
  }

  function Build(f: Format, tag: byte, payload: Bytes): Bytes
  {
    Header(f, tag, |payload|) + payload
  }

  /** A payload a format allows comes back out of its frame. */
  lemma BuildMakesAFrame(f: Format, tag: byte, payload: Bytes)
    requires 1 <= |payload| <= f.limit && |payload| <= U32_MAX
    requires f.Packed? ==> f.magic <= U32_MAX
    ensures IsFrame(f, Build(f, tag, payload))
    ensures Payload(f, Build(f, tag, payload)) == payload
    ensures f.Secure? ==> Build(f, tag, payload)[4] == tag
  {
    Pow256Values();
    LittleEndianRoundTrip(4, |payload|);
    BigEndianRoundTrip(4, |payload|);
    var s := Build(f, tag, payload);
    match f
    case Packed(magic, _) =>
      LittleEndianRoundTrip(4, magic);
      assert s[0..4] == LittleEndian(4, magic);
      assert s[8..12] == LittleEndian(4, |payload|);
    case Secure(_) =>
      assert s[0..4] == LittleEndian(4, |payload|);
    case Counted(_) =>
      assert s[0..4] == BigEndian(4, |payload|);
  }

  function BuildAll(f: Format, payloads: seq<Bytes>): (r: seq<Bytes>)
    ensures |r| == |payloads|
  {
    seq(|payloads|, i requires 0 <= i < |payloads| => Build(f, 0, payloads[i]))
  }

  predicate Allowed(f: Format, payloads: seq<Bytes>)
  {
    forall i :: 0 <= i < |payloads| ==> 1 <= |payloads[i]| <= f.limit && |payloads[i]| <= U32_MAX
  }

  lemma BuildAllMakesFrames(f: Format, payloads: seq<Bytes>)
    requires Allowed(f, payloads) && (f.Packed? ==> f.magic <= U32_MAX)
    ensures AllFrames(f, BuildAll(f, payloads))
    ensures Payloads(f, BuildAll(f, payloads)) == payloads
  {
    forall i | 0 <= i < |payloads|
      ensures IsFrame(f, BuildAll(f, payloads)[i])
      ensures Payload(f, BuildAll(f, payloads)[i]) == payloads[i]
    {
      BuildMakesAFrame(f, 0, payloads[i]);
    }
  }

  /** Any list of allowed payloads survives framing and parsing, in order. */
  lemma FramingRoundTrip(f: Format, payloads: seq<Bytes>)
    requires Allowed(f, payloads) && (f.Packed? ==> f.magic <= U32_MAX)
    ensures var p := Parse(f, Flatten(BuildAll(f, payloads)));
            && p == Parsed(BuildAll(f, payloads), [], true)
            && AllFrames(f, p.frames) && Payloads(f, p.frames) == payloads
  {
    BuildAllMakesFrames(f, payloads);
    ParseIsUnique(f, BuildAll(f, payloads), []);
    assert Flatten(BuildAll(f, payloads)) + [] == Flatten(BuildAll(f, payloads));
  }

  // ---------- what a frame is ----------

  /** The bytes of a header that say nothing to the receiver: three reserved ones, or the protocol
      of a secure frame. */
  function Spare(f: Format): nat
  {
    match f
    case Packed(_, _) => 3
    case Secure(_) => 1
    case Counted(_) => 0
  }

  function LaidOut(f: Format, spare: Bytes, payload: Bytes): Bytes
  {
    match f
    case Packed(magic, _) => LittleEndian(4, magic) + ([1] + (spare + (LittleEndian(4, |payload|) + payload)))
    case Secure(_) => LittleEndian(4, |payload|) + (spare + payload)
    case Counted(_) => BigEndian(4, |payload|) + payload
  }

  ghost predicate IsLaidOut(f: Format, s: Bytes, spare: Bytes, payload: Bytes)
  {
    && 1 <= |payload| <= f.limit && |payload| <= U32_MAX && |spare| == Spare(f)
    && s == LaidOut(f, spare, payload)
  }

  lemma LaidOutIsAFrame(f: Format, s: Bytes, spare: Bytes, payload: Bytes)
    requires (f.Packed? ==> f.magic <= U32_MAX) && IsLaidOut(f, s, spare, payload)
    ensures IsFrame(f, s) && Payload(f, s) == payload
  {
    Pow256Values();
    LittleEndianRoundTrip(4, |payload|);
    BigEndianRoundTrip(4, |payload|);
    match f
    case Packed(magic, _) =>
      LittleEndianRoundTrip(4, magic);
      assert s[0..4] == LittleEndian(4, magic) && s[8..12] == LittleEndian(4, |payload|);
    case Secure(_) => assert s[0..4] == LittleEndian(4, |payload|);
    case Counted(_) => assert s[0..4] == BigEndian(4, |payload|);
  }

  lemma TwelveBytesCut(s: Bytes)
    requires |s| >= 12
    ensures s == s[0..4] + (s[4..5] + (s[5..8] + (s[8..12] + s[12..])))
  {
    assert s[8..] == s[8..12] + s[12..];
    assert s[5..] == s[5..8] + s[8..];
    assert s[4..] == s[4..5] + s[5..];
    assert s == s[0..4] + s[4..];
  }

  lemma DigitsOf(s: Bytes)
    requires |s| == 4
    ensures LittleEndian(4, FromLittleEndian(s)) == s && FromLittleEndian(s) <= U32_MAX
    ensures BigEndian(4, FromBigEndian(s)) == s && FromBigEndian(s) <= U32_MAX
  {
    Pow256Values();
    FromLittleEndianRoundTrip(s);
    FromBigEndianRoundTrip(s);
  }

  lemma PackedIsLaidOut(f: Format, s: Bytes)
    requires f.Packed? && IsFrame(f, s)
    ensures IsLaidOut(f, s, s[5..8], s[12..])
  {
    hide FromLittleEndian, FromBigEndian, LittleEndian, BigEndian;
    DigitsOf(s[0..4]);
    DigitsOf(s[8..12]);
    TwelveBytesCut(s);
    var payload := s[12..];
    assert s[4..5] == [1];
    assert FromLittleEndian(s[0..4]) == f.magic && FromLittleEndian(s[8..12]) == |payload|;
  }

  lemma FrameIsLaidOut(f: Format, s: Bytes)
    requires IsFrame(f, s)
    ensures exists spare, payload :: IsLaidOut(f, s, spare, payload)
  {
    hide FromLittleEndian, FromBigEndian, LittleEndian, BigEndian;
    DigitsOf(s[0..4]);
    match f
    case Packed(_, _) => PackedIsLaidOut(f, s);
    case Secure(_) =>
      assert s[4..] == s[4..5] + s[5..] && s == s[0..4] + s[4..];
      assert IsLaidOut(f, s, s[4..5], s[5..]);
    case Counted(_) =>
      assert s == s[0..4] + s[4..];
      assert IsLaidOut(f, s, [], s[4..]);
  }

  /** A frame is its magic and version if the format has them, its spare bytes, the length of a
      payload that is allowed, and the payload; and nothing else is. */
  lemma FrameIsExact(f: Format, s: Bytes)
    requires f.Packed? ==> f.magic <= U32_MAX
    ensures IsFrame(f, s) <==> exists spare, payload :: IsLaidOut(f, s, spare, payload)
  {
    hide IsFrame, IsLaidOut;
    if IsFrame(f, s) {
      FrameIsLaidOut(f, s);
    }
    forall spare, payload | IsLaidOut(f, s, spare, payload) ensures IsFrame(f, s) {
      LaidOutIsAFrame(f, s, spare, payload);
    }
  }

  /** Some bytes after `s` give it a frame in front. */
  ghost predicate CanBecomeAFrame(f: Format, s: Bytes)
  {
    exists t: Bytes, n: nat :: n <= |s + t| && IsFrame(f, (s + t)[..n])
  }

  /** A complete header is turned down exactly when no frame begins with it. */
  lemma BadHeaderIsExact(f: Format, s: Bytes)
    requires |s| >= f.HeaderSize()
    ensures Look(f, s) == Invalid <==> !CanBecomeAFrame(f, s)
  {
    if Look(f, s) == Invalid {
      forall t: Bytes, n: nat | n <= |s + t| ensures !IsFrame(f, (s + t)[..n]) {
        LookIsStable(f, s, t);
        CutAt(s + t, n);
        if IsFrame(f, (s + t)[..n]) {
          LookIsStable(f, (s + t)[..n], (s + t)[n..]);
        }
      }
    } else {
      HeaderCanGoOn(f, s);
    }
    hide Look;
  }

  lemma HeaderCanGoOn(f: Format, s: Bytes)
    requires |s| >= f.HeaderSize() && Look(f, s) != Invalid
    ensures CanBecomeAFrame(f, s)
  {
    var n := f.HeaderSize() + Announced(f, s);
    var t: Bytes := seq(n, _ => 0);
    var all := s + t;
    var frame := all[..n];
    assert all[0..4] == s[0..4] && frame[0..4] == all[0..4];
    if f.Packed? {
      assert all[8..12] == s[8..12] && frame[8..12] == all[8..12] && frame[4] == s[4];
    }
    assert IsFrame(f, frame);
  }
}
