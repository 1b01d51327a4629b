/** The State and Event frame decoders: growing buffers that reject a chunk when it would
    take the buffer past one maximum-size frame. */
module FrameDecoder {
  import opened Bytes
  import opened Framing

  datatype Verdict = Accepted | TooLong | BadHeader

  /** What one `Push` delivers, keeps and answers. */
  datatype Pushed = Pushed(frames: seq<Bytes>, buffer: Bytes, verdict: Verdict)

  predicate Fits(f: Format, buffer: Bytes, chunk: Bytes)
  {
    f.limit != 0 && |buffer| + |chunk| <= f.limit + f.HeaderSize()
  }

  /** One `Push` whose callback does not feed the decoder. */
  function Push(f: Format, buffer: Bytes, chunk: Bytes): Pushed
  {
    if chunk == [] then Pushed([], buffer, Accepted)
    else if !Fits(f, buffer, chunk) then Pushed([], [], TooLong)
    else
      var p := Parse(f, buffer + chunk);
      Pushed(p.frames, p.rest, if p.ok then Accepted else BadHeader)
  }

  /** A series of pushes, up to and including the first rejected one. */
  function PushAll(f: Format, buffer: Bytes, chunks: seq<Bytes>): Pushed
    decreases |chunks|
  {
    if chunks == [] then Pushed([], buffer, Accepted)
    else
      var first := Push(f, buffer, chunks[0]);
      if first.verdict != Accepted then first
      else
        var later := PushAll(f, first.buffer, chunks[1..]);
        Pushed(first.frames + later.frames, later.buffer, later.verdict)
  }

  // ---------- chunk independence ----------

  /** As long as the size guard does not fire, chunking is invisible: the frames delivered
      before the first rejection are those of a one-shot parse of all the bytes. */
  lemma {:induction false} ChunksParseAsOne(f: Format, buffer: Bytes, chunks: seq<Bytes>)
    requires Look(f, buffer) == Incomplete
    requires PushAll(f, buffer, chunks).verdict != TooLong
    ensures var r, p := PushAll(f, buffer, chunks), Parse(f, buffer + Flatten(chunks));
            r.frames == p.frames && r.buffer == p.rest && (r.verdict == Accepted <==> p.ok)
    decreases |chunks|
  {
    hide Look;
    if chunks == [] {
      assert buffer + [] == buffer;
    } else {
      var c, later := chunks[0], Flatten(chunks[1..]);
      assert buffer + Flatten(chunks) == (buffer + c) + later;
      if c == [] {
        assert buffer + c == buffer;
        ChunksParseAsOne(f, buffer, chunks[1..]);
      } else {
        ParseInTwo(f, buffer + c, later);
        var p := Parse(f, buffer + c);
        if p.ok {
          ParseLeavesLessThanAFrame(f, buffer + c);
          ChunksParseAsOne(f, p.rest, chunks[1..]);
        }
      }
    }
  }

  /** Any two chunkings of one stream that pass the size guard deliver the same frames,
      keep the same bytes and agree on whether the stream is well formed. */
  lemma ChunkIndependence(f: Format, chunks1: seq<Bytes>, chunks2: seq<Bytes>)
    requires Flatten(chunks1) == Flatten(chunks2)
    requires PushAll(f, [], chunks1).verdict != TooLong && PushAll(f, [], chunks2).verdict != TooLong
    ensures PushAll(f, [], chunks1) == PushAll(f, [], chunks2)
  {
    ChunksParseAsOne(f, [], chunks1);
    ChunksParseAsOne(f, [], chunks2);
  }

  /** After every accepted push the buffer is shorter than a header and the largest payload. */
  lemma ResidueIsBounded(f: Format, buffer: Bytes, chunk: Bytes)
    requires f.limit >= 1 && Look(f, buffer) == Incomplete
    requires Push(f, buffer, chunk).verdict == Accepted
    ensures Look(f, Push(f, buffer, chunk).buffer) == Incomplete
    ensures |Push(f, buffer, chunk).buffer| < f.limit + f.HeaderSize()
  {
    ParseLeavesLessThanAFrame(f, buffer + chunk);
    if chunk != [] {
      RestIsBounded(f, buffer + chunk);
    }
    hide Look, Parse;
  }

  /** With a limit of zero nothing is taken in, not even a part of a header. */
  lemma {:induction false} ZeroLimitTakesNothing(f: Format, buffer: Bytes, chunks: seq<Bytes>)
    requires f.limit == 0
    ensures var r := PushAll(f, buffer, chunks);
            && r.frames == []
            && (r.verdict == Accepted <==> forall c :: c in chunks ==> c == [])
            && r.buffer == if r.verdict == Accepted then buffer else []
    decreases |chunks|
  {
    assert chunks != [] ==> chunks[0] in chunks;
    if chunks != [] && chunks[0] == [] {
      ZeroLimitTakesNothing(f, buffer, chunks[1..]);
      assert forall c :: c in chunks <==> c == [] || c in chunks[1..];
    }
  }

  // ---------- which chunk sizes are safe ----------

  function Limited(f: Format, m: nat): (r: Format)
    ensures r.HeaderSize() == f.HeaderSize()
  {
    f.(limit := m)
  }

  /** No stream of legal frames with payloads of at most `m` bytes is ever rejected, however it
      is cut into chunks of at most `size`. */
  ghost predicate SafeChunkSize(f: Format, m: nat, size: nat)
  {
    forall payloads: seq<Bytes>, chunks: seq<Bytes> ::
      Allowed(Limited(f, m), payloads) && ChunksAtMost(chunks, size) && Flatten(chunks) == Flatten(BuildAll(f, payloads))
      ==> PushAll(f, [], chunks).verdict == Accepted
  }

  lemma {:induction false} SingleBytesNeverTooLong(f: Format, buffer: Bytes, chunks: seq<Bytes>)
    requires f.limit >= 1 && Look(f, buffer) == Incomplete && ChunksAtMost(chunks, 1)
    ensures PushAll(f, buffer, chunks).verdict != TooLong
    decreases |chunks|
  {
    hide Parse;
    if chunks != [] && Push(f, buffer, chunks[0]).verdict == Accepted {
      ResidueIsBounded(f, buffer, chunks[0]);
      SingleBytesNeverTooLong(f, Push(f, buffer, chunks[0]).buffer, chunks[1..]);
    }
  }

  lemma {:induction false} PushAllInTwo(f: Format, buffer: Bytes, a: seq<Bytes>, b: seq<Bytes>)
    requires PushAll(f, buffer, a).verdict == Accepted
    ensures PushAll(f, buffer, a + b).verdict == PushAll(f, PushAll(f, buffer, a).buffer, b).verdict
    decreases |a|
  {
    hide Push;
    if a == [] {
      assert a + b == b;
    } else {
      assert (a + b)[1..] == a[1..] + b;
      PushAllInTwo(f, Push(f, buffer, a[0]).buffer, a[1..], b);
    }
  }

  function Singletons(s: Bytes): (r: seq<Bytes>)
    ensures |r| == |s| && ChunksAtMost(r, 1)
  {
    seq(|s|, i requires 0 <= i < |s| => [s[i]])
  }

  lemma {:induction false} FlattenSingletons(s: Bytes)
    ensures Flatten(Singletons(s)) == s
  {
    if s != [] {
      FlattenSingletons(s[1..]);
      assert Singletons(s)[1..] == Singletons(s[1..]);
    }
  }

  lemma ProperPrefixIsIncomplete(f: Format, frame: Bytes, n: nat)
    requires IsFrame(f, frame) && n < |frame|
    ensures Look(f, frame[..n]) == Incomplete
  {
    assert frame[..n] + frame[n..] == frame;
    if Look(f, frame[..n]) != Incomplete {
      LookIsStable(f, frame[..n], frame[n..]);
    }
  }

  /** All but the last byte of a frame arrives one byte at a time and is kept; if the next
      chunk takes the buffer past the limit it is rejected, whatever it holds. */
  lemma SeamIsRejected(f: Format, frame: Bytes, seam: Bytes, back: seq<Bytes>)
    requires f.limit >= 1 && IsFrame(f, frame) && |frame| >= 1
    requires seam != [] && !Fits(f, frame[..|frame| - 1], seam)
    ensures PushAll(f, [], Singletons(frame[..|frame| - 1]) + ([seam] + back)).verdict == TooLong
  {
    hide Look, Parse, Push, Singletons, PushAll, IsFrame, Fits;
    var held := frame[..|frame| - 1];
    ProperPrefixIsIncomplete(f, frame, |held|);
    LookOfNothing(f);
    HeldByteByByte(f, held);
    SeamIsTooLong(f, held, seam, back);
    PushAllInTwo(f, [], Singletons(held), [seam] + back);
  }

  lemma SeamIsTooLong(f: Format, held: Bytes, seam: Bytes, back: seq<Bytes>)
    requires seam != [] && !Fits(f, held, seam)
    ensures PushAll(f, held, [seam] + back).verdict == TooLong
  {
    hide Look;
  }

  lemma HeldByteByByte(f: Format, held: Bytes)
    requires f.limit >= 1 && Look(f, []) == Incomplete && Look(f, held) == Incomplete
    ensures PushAll(f, [], Singletons(held)) == Pushed([], held, Accepted)
  {
    hide Look;
    SingleBytesNeverTooLong(f, [], Singletons(held));
    ChunksParseAsOne(f, [], Singletons(held));
    FlattenSingletons(held);
    assert [] + held == held;
  }

  /** Between pushes the buffer never holds a whole frame or a bad header. */
  lemma PushLeavesLessThanAFrame(f: Format, buffer: Bytes, data: Bytes)
    requires Look(f, buffer) == Incomplete
    ensures Look(f, Push(f, buffer, data).buffer) == Incomplete
  {
    LookOfNothing(f);
    ParseLeavesLessThanAFrame(f, buffer + data);
    hide Look, Parse;
  }

  lemma LookOfNothing(f: Format)
    ensures Look(f, []) == Incomplete
  {
  }

  // ---------- chunks that are too big ----------

  lemma BuildSize(f: Format, payload: Bytes)
    ensures |Build(f, 0, payload)| == f.HeaderSize() + |payload|
  {
  }

  lemma {:induction false} RepeatedSize(frame: Bytes, count: nat)
    requires |frame| >= 1
    ensures |Flatten(seq(count, _ => frame))| >= count
    ensures count >= 1 ==> |Flatten(seq(count, _ => frame))| >= |frame| && Flatten(seq(count, _ => frame))[..|frame|] == frame
  {
    if count > 0 {
      RepeatedSize(frame, count - 1);
      assert seq(count, _ => frame)[1..] == seq(count - 1, _ => frame);
    }
  }

  /** A stream cut after `n` bytes, in one piece of `c` bytes there, and byte by byte elsewhere. */
  function CutInPieces(s: Bytes, n: nat, c: nat): seq<Bytes>
    requires n + c <= |s|
  {
    Singletons(s[..n]) + ([s[n..n + c]] + Singletons(s[n + c..]))
  }

  lemma PiecesMakeTheStream(s: Bytes, n: nat, c: nat)
    requires n + c <= |s|
    ensures Flatten(CutInPieces(s, n, c)) == s
    ensures c >= 1 ==> ChunksAtMost(CutInPieces(s, n, c), c)
  {
    var front, seam, back := Singletons(s[..n]), s[n..n + c], Singletons(s[n + c..]);
    FlattenSingletons(s[..n]);
    FlattenSingletons(s[n + c..]);
    FlattenCons(seam, back);
    FlattenConcat(front, [seam] + back);
    CutAt(s, n);
    CutAt(s[n..], c);
    assert s[n..][..c] == seam && s[n..][c..] == s[n + c..];
    hide Flatten, Singletons;
  }

  /** Frames of equal size, cut byte by byte except for one piece across the end of the first. */
  lemma BigPieceIsRejected(f: Format, payload: Bytes, c: nat, count: nat)
    requires 1 <= |payload| <= f.limit && |payload| <= U32_MAX && (f.Packed? ==> f.magic <= U32_MAX)
    requires c >= 1 && |payload| + c >= f.limit + 2 && count >= |payload| + f.HeaderSize() + c
    ensures var s, n := Flatten(seq(count, _ => Build(f, 0, payload))), |payload| + f.HeaderSize() - 1;
            n + c <= |s| && PushAll(f, [], CutInPieces(s, n, c)).verdict == TooLong
  {
    hide Look, Build, Flatten, Singletons, PushAll, IsFrame;
    var frame := Build(f, 0, payload);
    BuildMakesAFrame(f, 0, payload);
    BuildSize(f, payload);
    RepeatedSize(frame, count);
    var s, n := Flatten(seq(count, _ => frame)), |frame| - 1;
    assert s[..n] == frame[..n];
    SeamIsRejected(f, frame, s[n..n + c], Singletons(s[n + c..]));
  }

  lemma BuildAllOfEqual(f: Format, payload: Bytes, count: nat)
    ensures BuildAll(f, seq(count, _ => payload)) == seq(count, _ => Build(f, 0, payload))
  {
    hide Build;
  }

  /** The size guard counts bytes of the next frame against the current one. */
  lemma BigChunkIsRejected(f: Format, m: nat, size: nat)
    requires 1 <= m <= f.limit && m <= U32_MAX && (f.Packed? ==> f.magic <= U32_MAX)
    requires m + size > f.limit + 1
    ensures !SafeChunkSize(f, m, size)
  {
    hide Build, BuildAll, Flatten, PushAll, CutInPieces;
    var payload: Bytes := seq(m, _ => 0);
    var c := f.limit + 2 - m;
    var count := m + f.HeaderSize() + c;
    var payloads := seq(count, _ => payload);
    BigPieceIsRejected(f, payload, c, count);
    BuildAllOfEqual(f, payload, count);
    var s := Flatten(BuildAll(f, payloads));
    PiecesMakeTheStream(s, m + f.HeaderSize() - 1, c);
    assert Allowed(Limited(f, m), payloads);
    assert ChunksAtMost(CutInPieces(s, m + f.HeaderSize() - 1, c), size);
  }

  /** Two bytes at a time are too many for frames of maximum size. */
  lemma TwoByteChunkIsRejected(f: Format)
    requires 1 <= f.limit <= U32_MAX && (f.Packed? ==> f.magic <= U32_MAX)
    ensures !SafeChunkSize(f, f.limit, 2)
  {
    BigChunkIsRejected(f, f.limit, 2);
    hide SafeChunkSize;
  }

  // ---------- chunks that are small enough ----------

  /** A stream that a smaller limit allows is read alike under a larger one. */
  lemma {:induction false} LimitIsImmaterial(f: Format, m: nat, s: Bytes)
    requires m <= f.limit && Parse(Limited(f, m), s).ok
    ensures Parse(f, s) == Parse(Limited(f, m), s)
    decreases |s|
  {
    LooksAlike(f, m, s);
    hide Look;
    if Look(f, s).Whole? {
      LimitIsImmaterial(f, m, s[Look(f, s).size..]);
    }
  }

  lemma LooksAlike(f: Format, m: nat, s: Bytes)
    requires m <= f.limit && Look(Limited(f, m), s) != Invalid
    ensures Look(f, s) == Look(Limited(f, m), s)
  {
  }

  lemma {:induction false} SmallFramesNeverTooLong(f: Format, m: nat, size: nat, buffer: Bytes, chunks: seq<Bytes>)
    requires 1 <= m <= f.limit && m + size <= f.limit + 1 && ChunksAtMost(chunks, size)
    requires Look(Limited(f, m), buffer) == Incomplete && Parse(Limited(f, m), buffer + Flatten(chunks)).ok
    ensures PushAll(f, buffer, chunks).verdict == Accepted
    decreases |chunks|
  {
    if chunks != [] {
      var c, later := chunks[0], Flatten(chunks[1..]);
      Associate(buffer, c, later);
      ChunkIsSmallEnough(f, m, size, buffer, c, later);
      SmallFramesNeverTooLong(f, m, size, Push(f, buffer, c).buffer, chunks[1..]);
    }
    hide Look, Parse, Push;
  }

  lemma ChunkIsSmallEnough(f: Format, m: nat, size: nat, buffer: Bytes, c: Bytes, later: Bytes)
    requires 1 <= m <= f.limit && m + size <= f.limit + 1 && |c| <= size
    requires Look(Limited(f, m), buffer) == Incomplete && Parse(Limited(f, m), (buffer + c) + later).ok
    ensures var r := Push(f, buffer, c);
            && r.verdict == Accepted && Look(Limited(f, m), r.buffer) == Incomplete
            && Parse(Limited(f, m), r.buffer + later).ok
  {
    var g := Limited(f, m);
    ParseInTwo(g, buffer + c, later);
    LimitIsImmaterial(f, m, buffer + c);
    ParseLeavesLessThanAFrame(g, buffer + c);
    if c == [] {
      assert buffer + c == buffer;
    } else {
      IncompleteIsShort(g, buffer);
    }
    hide Look, Parse;
  }

  lemma IncompleteIsShort(f: Format, buffer: Bytes)
    requires f.limit >= 1 && Look(f, buffer) == Incomplete
    ensures |buffer| < f.HeaderSize() + f.limit
  {
  }

  lemma BuildIgnoresLimit(f: Format, m: nat, payloads: seq<Bytes>)
    ensures BuildAll(Limited(f, m), payloads) == BuildAll(f, payloads)
  {
  }

  /** Legal frames with payloads of up to `m` bytes are safe under every cutting into chunks of up
      to `size` bytes if and only if both together exceed the limit by no more than one. */
  lemma SafeChunkSizes(f: Format, m: nat, size: nat)
    requires 1 <= m <= f.limit && m <= U32_MAX && (f.Packed? ==> f.magic <= U32_MAX)
    ensures SafeChunkSize(f, m, size) <==> m + size <= f.limit + 1
  {
    hide Look, Parse, PushAll, BuildAll;
    if m + size <= f.limit + 1 {
      forall payloads: seq<Bytes>, chunks: seq<Bytes>
        | Allowed(Limited(f, m), payloads) && ChunksAtMost(chunks, size) && Flatten(chunks) == Flatten(BuildAll(f, payloads))
        ensures PushAll(f, [], chunks).verdict == Accepted
      {
        BuildIgnoresLimit(f, m, payloads);
        FramingRoundTrip(Limited(f, m), payloads);
        LookOfNothing(Limited(f, m));
        assert [] + Flatten(chunks) == Flatten(chunks);
        SmallFramesNeverTooLong(f, m, size, [], chunks);
      }
    } else {
      BigChunkIsRejected(f, m, size);
    }
  }
}
