/** State and Event frames differ in their magic only: exchange it in a stream, and the one
    decoder does with the one stream what the other does with the other. */
module FrameMagic {
  import opened Bytes
  import opened Framing
  import opened FrameDecoder

  /** The magic written over the first four bytes, or over those of them that have arrived. */
  function Retag(magic: nat, s: Bytes): (r: Bytes)
    ensures |r| == |s|
  {
    var n := if |s| < 4 then |s| else 4;
    LittleEndian(4, magic)[..n] + s[n..]
  }

  function RetagAll(magic: nat, frames: seq<Bytes>): (r: seq<Bytes>)
    ensures |r| == |frames|
  {
    seq(|frames|, i requires 0 <= i < |frames| => Retag(magic, frames[i]))
  }

  /** The stream with the magic exchanged in every header the decoder of `f` looks at. */
  function RetagStream(f: Format, magic: nat, s: Bytes): (r: Bytes)
    ensures |r| == |s|
    decreases |s|
  {
    match Look(f, s)
    case Whole(n) => Retag(magic, s[..n]) + RetagStream(f, magic, s[n..])
    case _ => Retag(magic, s)
  }

  /** No header is bad for its magic: one that is bad has a wrong version or length. */
  predicate OwnMagic(f: Format, s: Bytes)
    requires f.Packed?
    decreases |s|
  {
    match Look(f, s)
    case Incomplete => true
    case Invalid => FromLittleEndian(s[0..4]) == f.magic
    case Whole(n) => OwnMagic(f, s[n..])
  }

  lemma RetagKeepsTheFront(m1: nat, m2: nat, limit: nat, s: Bytes)
    requires m2 <= U32_MAX
    requires Look(Packed(m1, limit), s) == Invalid ==> FromLittleEndian(s[0..4]) == m1
    ensures Look(Packed(m2, limit), Retag(m2, s)) == Look(Packed(m1, limit), s)
    ensures |s| >= 12 ==> Payload(Packed(m2, limit), Retag(m2, s)) == Payload(Packed(m1, limit), s)
  {
    if |s| >= 12 {
      var t := Retag(m2, s);
      Pow256Values();
      LittleEndianRoundTrip(4, m2);
      assert t[0..4] == LittleEndian(4, m2);
      assert t[8..12] == s[8..12];
      assert t[12..] == s[12..];
    }
  }

  lemma RetagKeepsAFrame(m1: nat, m2: nat, limit: nat, s: Bytes, t: Bytes)
    requires m2 <= U32_MAX && Look(Packed(m1, limit), s).Whole?
    ensures var n := Look(Packed(m1, limit), s).size;
            Look(Packed(m2, limit), Retag(m2, s[..n]) + t) == Whole(n)
  {
    var f1, f2, n := Packed(m1, limit), Packed(m2, limit), Look(Packed(m1, limit), s).size;
    FrontIsAFrame(f1, s);
    RetagKeepsTheFront(m1, m2, limit, s[..n]);
    LookIsStable(f2, Retag(m2, s[..n]), t);
    hide Look;
  }

  /** Reading the exchanged stream gives the exchanged frames, and fails where the other fails. */
  lemma {:induction false} RetagParses(m1: nat, m2: nat, limit: nat, s: Bytes)
    requires m2 <= U32_MAX && OwnMagic(Packed(m1, limit), s)
    ensures var p := Parse(Packed(m1, limit), s);
            Parse(Packed(m2, limit), RetagStream(Packed(m1, limit), m2, s))
            == Parsed(RetagAll(m2, p.frames), if p.ok then Retag(m2, p.rest) else [], p.ok)
    decreases |s|
  {
    hide Look, Retag;
    var f1, f2 := Packed(m1, limit), Packed(m2, limit);
    if Look(f1, s).Whole? {
      var n := Look(f1, s).size;
      var t := RetagStream(f1, m2, s[n..]);
      var frame := Retag(m2, s[..n]);
      RetagParses(m1, m2, limit, s[n..]);
      RetagKeepsAFrame(m1, m2, limit, s, t);
      assert (frame + t)[..n] == frame && (frame + t)[n..] == t;
      var frames := Parse(f1, s[n..]).frames;
      assert RetagAll(m2, [s[..n]] + frames) == [frame] + RetagAll(m2, frames);
    } else {
      RetagKeepsTheFront(m1, m2, limit, s);
      assert RetagAll(m2, []) == [];
    }
  }

  lemma RetagOfPrefix(magic: nat, s: Bytes, n: nat)
    requires n <= |s|
    ensures Retag(magic, s)[..n] == Retag(magic, s[..n])
  {
  }

  lemma PrefixLooks(f: Format, s: Bytes, n: nat)
    requires n <= |s| && f.Packed?
    ensures match Look(f, s)
            case Whole(m) => Look(f, s[..n]) == if n < m then Incomplete else Whole(m)
            case Incomplete => Look(f, s[..n]) == Incomplete
            case Invalid => Look(f, s[..n]) == if n < 12 then Incomplete else Invalid
  {
    assert s[..n] + s[n..] == s;
    if Look(f, s[..n]) != Incomplete {
      LookIsStable(f, s[..n], s[n..]);
    } else if n >= 12 {
      assert s[..n][0..4] == s[0..4] && s[..n][8..12] == s[8..12];
    }
  }

  lemma {:induction false} OwnMagicOfPrefix(f: Format, s: Bytes, n: nat)
    requires f.Packed? && n <= |s| && OwnMagic(f, s)
    ensures OwnMagic(f, s[..n])
    decreases |s|
  {
    PrefixLooks(f, s, n);
    hide Look;
    if Look(f, s[..n]).Whole? {
      var m := Look(f, s[..n]).size;
      OwnMagicOfPrefix(f, s[m..], n - m);
      assert s[..n][m..] == s[m..][..n - m];
    } else if Look(f, s[..n]) == Invalid {
      assert s[..n][0..4] == s[0..4];
    }
  }

  /** Exchanging the magic goes from front to back, so it agrees with cutting the stream off. */
  lemma {:induction false} RetagStreamOfPrefix(f: Format, magic: nat, s: Bytes, n: nat)
    requires f.Packed? && n <= |s|
    ensures RetagStream(f, magic, s)[..n] == RetagStream(f, magic, s[..n])
    decreases |s|
  {
    PrefixLooks(f, s, n);
    hide Look, Retag;
    match Look(f, s)
    case Whole(m) =>
      if n < m {
        RetagOfPrefix(magic, s[..m], n);
        assert s[..m][..n] == s[..n];
      } else {
        RetagStreamOfPrefix(f, magic, s[m..], n - m);
        assert s[..n][..m] == s[..m] && s[..n][m..] == s[m..][..n - m];
        assert RetagStream(f, magic, s)[..n] == Retag(magic, s[..m]) + RetagStream(f, magic, s[m..])[..n - m];
      }
    case _ => RetagOfPrefix(magic, s, n);
  }

  /** And with taking the frames off its front. */
  lemma {:induction false} RetagStreamAfterFrames(f: Format, magic: nat, a: Bytes, b: Bytes)
    requires f.Packed? && Parse(f, a).ok
    ensures var p := Parse(f, a);
            && RetagStream(f, magic, a + b) == Flatten(RetagAll(magic, p.frames)) + RetagStream(f, magic, p.rest + b)
            && (OwnMagic(f, a + b) ==> OwnMagic(f, p.rest + b))
    decreases |a|
  {
    hide Look, Retag;
    if Look(f, a).Whole? {
      var n := Look(f, a).size;
      var p := Parse(f, a[n..]);
      LookIsStable(f, a, b);
      assert (a + b)[..n] == a[..n] && (a + b)[n..] == a[n..] + b;
      RetagStreamAfterFrames(f, magic, a[n..], b);
      assert RetagAll(magic, [a[..n]] + p.frames) == [Retag(magic, a[..n])] + RetagAll(magic, p.frames);
      FlattenCons(Retag(magic, a[..n]), RetagAll(magic, p.frames));
      Associate(Retag(magic, a[..n]), Flatten(RetagAll(magic, p.frames)), RetagStream(f, magic, p.rest + b));
    } else {
      assert RetagAll(magic, []) == [] && Flatten([]) == [];
      assert [] + RetagStream(f, magic, a + b) == RetagStream(f, magic, a + b);
    }
  }

  /** The stream `s` cut into pieces as long as the chunks. */
  function Recut(chunks: seq<Bytes>, s: Bytes): seq<Bytes>
    requires |s| == |Flatten(chunks)|
    decreases |chunks|
  {
    if chunks == [] then [] else [s[..|chunks[0]|]] + Recut(chunks[1..], s[|chunks[0]|..])
  }

  lemma {:induction false} RetagKeepsLength(magic: nat, frames: seq<Bytes>)
    ensures |Flatten(RetagAll(magic, frames))| == |Flatten(frames)|
  {
    if frames != [] {
      RetagKeepsLength(magic, frames[1..]);
      assert RetagAll(magic, frames)[1..] == RetagAll(magic, frames[1..]);
    }
  }

  /** One push of both decoders, before and after exchanging the magic. */
  lemma PushesAgree(m1: nat, m2: nat, limit: nat, buffer: Bytes, c: Bytes)
    requires m2 <= U32_MAX && Look(Packed(m1, limit), buffer) == Incomplete && OwnMagic(Packed(m1, limit), buffer + c)
    ensures var f1, f2 := Packed(m1, limit), Packed(m2, limit);
            var t := RetagStream(f1, m2, buffer + c);
            var r := Push(f1, buffer, c);
            Push(f2, t[..|buffer|], t[|buffer|..])
            == Pushed(RetagAll(m2, r.frames), if r.verdict == Accepted then Retag(m2, r.buffer) else [], r.verdict)
  {
    var f1 := Packed(m1, limit);
    var t := RetagStream(f1, m2, buffer + c);
    RetagParses(m1, m2, limit, buffer + c);
    RetagStreamOfPrefix(f1, m2, buffer + c, |buffer|);
    assert (buffer + c)[..|buffer|] == buffer;
    assert RetagStream(f1, m2, buffer) == Retag(m2, buffer);
    CutAt(t, |buffer|);
    hide Look, Parse, Retag;
    assert RetagAll(m2, []) == [];
    assert c == [] ==> t[|buffer|..] == [];
  }

  /** At equal limit, and under any chunking, the two decoders agree on every stream in which no
      magic is wrong, once it is exchanged: the same payloads in the same order, as many bytes
      kept, and the same verdict, be it that a chunk is too long or a version or length bad. */
  lemma {:induction false} MagicIsTheOnlyDifference(m1: nat, m2: nat, limit: nat, buffer: Bytes, chunks: seq<Bytes>)
    requires m2 <= U32_MAX && Look(Packed(m1, limit), buffer) == Incomplete
    requires OwnMagic(Packed(m1, limit), buffer + Flatten(chunks))
    ensures var f1, f2 := Packed(m1, limit), Packed(m2, limit);
            var t := RetagStream(f1, m2, buffer + Flatten(chunks));
            var r := PushAll(f1, buffer, chunks);
            PushAll(f2, t[..|buffer|], Recut(chunks, t[|buffer|..]))
            == Pushed(RetagAll(m2, r.frames), if r.verdict == Accepted then Retag(m2, r.buffer) else [], r.verdict)
    decreases |chunks|
  {
    hide Look, Retag, Push, RetagStream, OwnMagic, Recut, RetagAll, Flatten;
    var f1 := Packed(m1, limit);
    if chunks == [] {
      NothingPushed(m1, m2, limit, buffer);
    } else {
      NextChunk(m1, m2, limit, buffer, chunks);
      var first := Push(f1, buffer, chunks[0]);
      if first.verdict == Accepted {
        MagicIsTheOnlyDifference(m1, m2, limit, first.buffer, chunks[1..]);
        RetagAllInTwo(m2, first.frames, PushAll(f1, first.buffer, chunks[1..]).frames);
      }
    }
  }

  lemma RetagAllInTwo(magic: nat, a: seq<Bytes>, b: seq<Bytes>)
    ensures RetagAll(magic, a + b) == RetagAll(magic, a) + RetagAll(magic, b)
  {
  }

  lemma NothingPushed(m1: nat, m2: nat, limit: nat, buffer: Bytes)
    requires Look(Packed(m1, limit), buffer) == Incomplete
    ensures var t := RetagStream(Packed(m1, limit), m2, buffer + Flatten([]));
            PushAll(Packed(m2, limit), t[..|buffer|], Recut([], t[|buffer|..]))
            == Pushed(RetagAll(m2, []), Retag(m2, buffer), Accepted)
  {
    hide Look, Retag;
    assert buffer + [] == buffer;
    assert RetagStream(Packed(m1, limit), m2, buffer) == Retag(m2, buffer);
    assert RetagAll(m2, []) == [];
  }

  /** What the first chunk does, and that the rest of the exchanged stream is the exchanged rest. */
  lemma NextChunk(m1: nat, m2: nat, limit: nat, buffer: Bytes, chunks: seq<Bytes>)
    requires m2 <= U32_MAX && Look(Packed(m1, limit), buffer) == Incomplete && chunks != []
    requires OwnMagic(Packed(m1, limit), buffer + Flatten(chunks))
    ensures var f1, f2 := Packed(m1, limit), Packed(m2, limit);
            var c, rest := chunks[0], Flatten(chunks[1..]);
            var t := RetagStream(f1, m2, buffer + Flatten(chunks));
            var pieces := Recut(chunks, t[|buffer|..]);
            var r := Push(f1, buffer, c);
            && pieces != []
            && Push(f2, t[..|buffer|], pieces[0])
               == Pushed(RetagAll(m2, r.frames), if r.verdict == Accepted then Retag(m2, r.buffer) else [], r.verdict)
            && (r.verdict == Accepted ==>
                  var u := RetagStream(f1, m2, r.buffer + rest);
                  && Look(f1, r.buffer) == Incomplete && OwnMagic(f1, r.buffer + rest)
                  && u[..|r.buffer|] == Retag(m2, r.buffer)
                  && pieces[1..] == Recut(chunks[1..], u[|r.buffer|..]))
  {
    var f1 := Packed(m1, limit);
    var c, rest := chunks[0], Flatten(chunks[1..]);
    var a := buffer + c;
    var s := buffer + Flatten(chunks);
    var t := RetagStream(f1, m2, s);
    Associate(buffer, c, rest);
    assert s[..|a|] == a;
    RetagStreamOfPrefix(f1, m2, s, |a|);
    OwnMagicOfPrefix(f1, s, |a|);
    PushesAgree(m1, m2, limit, buffer, c);
    assert t[|buffer|..][..|c|] == t[..|a|][|buffer|..] && t[..|a|][..|buffer|] == t[..|buffer|];
    assert t[|buffer|..][|c|..] == t[|a|..];
    var r := Push(f1, buffer, c);
    if r.verdict == Accepted {
      PushLeavesLessThanAFrame(f1, buffer, c);
      RestIsRetagged(f1, m2, buffer, c, rest);
    }
    hide Look, Retag, Push, RetagStream, OwnMagic;
  }

  lemma RestIsRetagged(f: Format, magic: nat, buffer: Bytes, c: Bytes, rest: Bytes)
    requires f.Packed? && Look(f, buffer) == Incomplete && Push(f, buffer, c).verdict == Accepted
    requires OwnMagic(f, (buffer + c) + rest)
    ensures var r := Push(f, buffer, c);
            var t, u := RetagStream(f, magic, (buffer + c) + rest), RetagStream(f, magic, r.buffer + rest);
            && OwnMagic(f, r.buffer + rest)
            && u[..|r.buffer|] == Retag(magic, r.buffer)
            && u[|r.buffer|..] == t[|buffer + c|..]
  {
    var a, r := buffer + c, Push(f, buffer, c);
    var u := RetagStream(f, magic, r.buffer + rest);
    PushIsParse(f, buffer, c);
    RetagStreamAfterFrames(f, magic, a, rest);
    RetagKeepsLength(magic, r.frames);
    ParseConserves(f, a);
    PushLeavesLessThanAFrame(f, buffer, c);
    RetagStreamOfPrefix(f, magic, r.buffer + rest, |r.buffer|);
    assert (r.buffer + rest)[..|r.buffer|] == r.buffer;
    assert RetagStream(f, magic, r.buffer) == Retag(magic, r.buffer);
    hide Look, Retag, Push, Parse, RetagStream, OwnMagic, Flatten;
    var t, k := RetagStream(f, magic, a + rest), |Flatten(RetagAll(magic, r.frames))|;
    assert t[|a|..] == u[|r.buffer|..];
  }

  lemma PushIsParse(f: Format, buffer: Bytes, c: Bytes)
    requires Look(f, buffer) == Incomplete && Push(f, buffer, c).verdict == Accepted
    ensures var p, r := Parse(f, buffer + c), Push(f, buffer, c);
            p.ok && r.frames == p.frames && r.buffer == p.rest
  {
    assert buffer + [] == buffer;
  }

  /** Exchanging the magic changes no payload. */
  lemma RetagKeepsPayloads(m1: nat, m2: nat, limit: nat, frames: seq<Bytes>)
    requires m2 <= U32_MAX && AllFrames(Packed(m1, limit), frames)
    ensures AllFrames(Packed(m2, limit), RetagAll(m2, frames))
    ensures Payloads(Packed(m2, limit), RetagAll(m2, frames)) == Payloads(Packed(m1, limit), frames)
  {
    var f1, f2 := Packed(m1, limit), Packed(m2, limit);
    forall i | 0 <= i < |frames|
      ensures IsFrame(f2, RetagAll(m2, frames)[i])
      ensures Payload(f2, RetagAll(m2, frames)[i]) == Payload(f1, frames[i])
    {
      assert IsFrame(f1, frames[i]);
      RetagKeepsTheFront(m1, m2, limit, frames[i]);
    }
  }
}
