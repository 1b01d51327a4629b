/** Line mode: a per-byte machine, and the splitting into lines that it carries out. */
module CommandLineMode {
  import opened Bytes
  import opened CommandProtocol
  import opened CommandHost

  datatype LineConfig = LineConfig(maximum: nat, disconnect: bool, ignoreEmpty: bool)

  // ---------- one line ----------

  function HandleLine(cfg: LineConfig, sv: Services, h: Host, line: Bytes): Done
  {
    var text := Trim(line);
    if text == [] && cfg.ignoreEmpty then Done(h, true)
    else
      var id := (h.requestId + 1) % (U64_MAX + 1);
      var h1 := h.(requestId := id);
      var parsed := sv.tokenize(text);
      if parsed.error != [] then Write(sv, h1, LineReply(Error(parsed.error)))
      else if parsed.tokens == [] then Write(sv, h1, LineReply(Error(Ascii(NO_COMMAND))))
      else
        var (h2, result) := Answer(sv, h1, Request(id, [parsed.tokens[0]], [], [], text), TextCall(text));
        Write(sv, h2, LineReply(result))
  }

  const NO_COMMAND: string := "No command supplied"
  const TOO_LONG: string := "Command exceeds maximum request length"

  /** What a whole line gets: an error when it is longer than the limit, else its handling. */
  function ServeLine(cfg: LineConfig, sv: Services, h: Host, line: Bytes): Done
  {
    if |line| > cfg.maximum then Write(sv, h, LineReply(Error(Ascii(TOO_LONG))))
    else HandleLine(cfg, sv, h, line)
  }

  function ServeLines(cfg: LineConfig, sv: Services, h: Host, lines: seq<Bytes>): Done
    decreases |lines|
  {
    if lines == [] then Done(h, true)
    else
      var first := ServeLine(cfg, sv, h, lines[0]);
      var later := ServeLines(cfg, sv, first.host, lines[1..]);
      Done(later.host, first.ok && later.ok)
  }

  // ---------- the machine ----------

  datatype LineInput = LineInput(line: Bytes, discarding: bool)

  datatype LineFed = LineFed(input: LineInput, host: Host, ok: bool)

  function FeedLine(cfg: LineConfig, sv: Services, input: LineInput, h: Host, data: Bytes): LineFed
    decreases |data|
  {
    if data == [] then LineFed(input, h, true)
    else
      var c, rest := data[0], data[1..];
      if c == RETURN then FeedLine(cfg, sv, input, h, rest)
      else if c == NEWLINE then
        if input.discarding then
          var wrote := Write(sv, h, LineReply(Error(Ascii(TOO_LONG))));
          if cfg.disconnect then LineFed(LineInput([], false), wrote.host, false)
          else
            var later := FeedLine(cfg, sv, LineInput([], false), wrote.host, rest);
            later.(ok := wrote.ok && later.ok)
        else
          var served := HandleLine(cfg, sv, h, input.line);
          var later := FeedLine(cfg, sv, LineInput([], false), served.host, rest);
          later.(ok := served.ok && later.ok)
      else if input.discarding then FeedLine(cfg, sv, input, h, rest)
      else if |input.line| >= cfg.maximum then FeedLine(cfg, sv, LineInput([], true), h, rest)
      else FeedLine(cfg, sv, LineInput(input.line + [c], false), h, rest)
  }

  // ---------- what it means ----------

  /** The stream without carriage returns. */
  function Clean(s: Bytes): Bytes
  {
    if s == [] then []
    else (if s[0] == RETURN then [] else [s[0]]) + Clean(s[1..])
  }

  /** The newline-terminated lines of a stream and the unterminated rest. */
  datatype Lines = Lines(lines: seq<Bytes>, tail: Bytes)

  function Split(s: Bytes): Lines
  {
    if s == [] then Lines([], [])
    else
      var r := Split(s[1..]);
      if s[0] == NEWLINE then Lines([[]] + r.lines, r.tail)
      else if r.lines == [] then Lines([], [s[0]] + r.tail)
      else Lines([[s[0]] + r.lines[0]] + r.lines[1..], r.tail)
  }

  /** The lines that are answered: with `disconnect`, none after the first oversized one. */
  function Answered(cfg: LineConfig, lines: seq<Bytes>): seq<Bytes>
  {
    if lines == [] then []
    else if cfg.disconnect && |lines[0]| > cfg.maximum then [lines[0]]
    else [lines[0]] + Answered(cfg, lines[1..])
  }

  /** How the machine holds a partial line. */
  function Held(cfg: LineConfig, partial: Bytes): (r: LineInput)
    ensures |r.line| <= cfg.maximum
  {
    if |partial| > cfg.maximum then LineInput([], true) else LineInput(partial, false)
  }

  lemma {:induction false} SplitAtNewline(partial: Bytes, s: Bytes)
    requires NEWLINE !in partial
    ensures Split(partial + [NEWLINE] + s) == Lines([partial] + Split(s).lines, Split(s).tail)
  {
    if partial == [] {
      assert (partial + [NEWLINE] + s)[1..] == s;
    } else {
      var t := partial[1..] + [NEWLINE] + s;
      assert (partial + [NEWLINE] + s)[1..] == t;
      SplitAtNewline(partial[1..], s);
      assert [partial[0]] + partial[1..] == partial;
      assert Split(t).lines[1..] == Split(s).lines;
    }
  }

  lemma {:induction false} SplitNoNewline(partial: Bytes)
    requires NEWLINE !in partial
    ensures Split(partial) == Lines([], partial)
  {
    if partial != [] {
      SplitNoNewline(partial[1..]);
      assert partial == [partial[0]] + partial[1..];
    }
  }

  /** The machine, holding `partial`, serves exactly the lines that splitting yields and holds
      what is left over. With `disconnect` it stops after the first oversized line, answers
      false and holds nothing. */
  ghost predicate Refines(cfg: LineConfig, sv: Services, partial: Bytes, h: Host, data: Bytes)
  {
    IsServiceOf(cfg, sv, h, partial + Clean(data), FeedLine(cfg, sv, Held(cfg, partial), h, data))
  }

  ghost predicate HasOversized(cfg: LineConfig, lines: seq<Bytes>)
  {
    exists x :: x in lines && |x| > cfg.maximum
  }

  ghost predicate IsServiceOf(cfg: LineConfig, sv: Services, h: Host, text: Bytes, r: LineFed)
  {
    var s := Split(text);
    var served := ServeLines(cfg, sv, h, Answered(cfg, s.lines));
    && r.host == served.host
    && if cfg.disconnect && HasOversized(cfg, s.lines)
       then r.input == LineInput([], false) && !r.ok
       else r.input == Held(cfg, s.tail) && r.ok == served.ok
  }

  /** It does so from any partial line and for any bytes. */
  lemma {:induction false} FeedSplits(cfg: LineConfig, sv: Services, partial: Bytes, h: Host, data: Bytes)
    requires NEWLINE !in partial
    ensures Refines(cfg, sv, partial, h, data)
    decreases |data|, 1
  {
    hide Refines;
    if data == [] {
      FeedNothing(cfg, sv, partial, h);
    } else {
      var c, rest := data[0], data[1..];
      assert data == [c] + rest;
      if c == NEWLINE {
        FeedNewline(cfg, sv, partial, h, rest);
      } else {
        FeedSplits(cfg, sv, if c == RETURN then partial else partial + [c], h, rest);
        FeedOther(cfg, sv, partial, h, c, rest);
      }
    }
  }

  lemma FeedNothing(cfg: LineConfig, sv: Services, partial: Bytes, h: Host)
    requires NEWLINE !in partial
    ensures Refines(cfg, sv, partial, h, [])
  {
    assert partial + [] == partial;
    SplitNoNewline(partial);
  }

  lemma FeedOther(cfg: LineConfig, sv: Services, partial: Bytes, h: Host, c: byte, rest: Bytes)
    requires c != NEWLINE && Refines(cfg, sv, if c == RETURN then partial else partial + [c], h, rest)
    ensures Refines(cfg, sv, partial, h, [c] + rest)
  {
    CleanOther(c, rest);
    FeedOneByte(cfg, sv, partial, h, c, rest);
    hide IsServiceOf, FeedLine, Clean, Held;
    if c != RETURN {
      Associate(partial, [c], Clean(rest));
    }
  }

  lemma CleanOther(c: byte, rest: Bytes)
    requires c != NEWLINE
    ensures Clean([c] + rest) == if c == RETURN then Clean(rest) else [c] + Clean(rest)
  {
    assert ([c] + rest)[1..] == rest;
    assert [] + Clean(rest) == Clean(rest);
  }

  lemma FeedOneByte(cfg: LineConfig, sv: Services, partial: Bytes, h: Host, c: byte, rest: Bytes)
    requires c != NEWLINE
    ensures FeedLine(cfg, sv, Held(cfg, partial), h, [c] + rest)
         == FeedLine(cfg, sv, Held(cfg, if c == RETURN then partial else partial + [c]), h, rest)
  {
    assert ([c] + rest)[1..] == rest && ([c] + rest)[0] == c;
  }

  lemma {:induction false} FeedNewline(cfg: LineConfig, sv: Services, partial: Bytes, h: Host, rest: Bytes)
    requires NEWLINE !in partial
    ensures Refines(cfg, sv, partial, h, [NEWLINE] + rest)
    decreases |rest| + 1, 0
  {
    hide Split, Clean, HandleLine, Write;
    var first := ServeLine(cfg, sv, h, partial);
    var s := Split(Clean(rest));
    var lines := [partial] + s.lines;
    FeedSplits(cfg, sv, [], first.host, rest);
    assert [] + Clean(rest) == Clean(rest);
    CleanNewline(rest);
    assert partial + Clean([NEWLINE] + rest) == partial + [NEWLINE] + Clean(rest);
    SplitAtNewline(partial, Clean(rest));
    assert ([NEWLINE] + rest)[1..] == rest;
    assert lines[1..] == s.lines && lines[0] == partial;
    assert forall x :: x in lines <==> x == partial || x in s.lines;
    assert [partial][1..] == [];
    assert ([partial] + Answered(cfg, s.lines))[1..] == Answered(cfg, s.lines);
    var r, later := FeedLine(cfg, sv, Held(cfg, partial), h, [NEWLINE] + rest), FeedLine(cfg, sv, Held(cfg, []), first.host, rest);
    var stops := cfg.disconnect && |partial| > cfg.maximum;
    assert Held(cfg, []) == LineInput([], false);
    assert r == if stops then LineFed(LineInput([], false), first.host, false) else later.(ok := first.ok && later.ok);
    assert Answered(cfg, lines) == if stops then [partial] else [partial] + Answered(cfg, s.lines);
    assert ServeLines(cfg, sv, h, [partial]).host == first.host;
    assert stops ==> partial in lines;
    assert HasOversized(cfg, lines) <==> |partial| > cfg.maximum || HasOversized(cfg, s.lines);
  }

  lemma CleanNewline(rest: Bytes)
    ensures Clean([NEWLINE] + rest) == [NEWLINE] + Clean(rest)
  {
    assert ([NEWLINE] + rest)[1..] == rest;
  }

  // ---------- chunks ----------

  /** With `disconnect`, feeding ends at the newline of a line that is being discarded. */
  predicate Stops(cfg: LineConfig, input: LineInput, data: Bytes)
    decreases |data|
  {
    cfg.disconnect && data != []
    && var c, rest := data[0], data[1..];
       if c == NEWLINE then input.discarding || Stops(cfg, LineInput([], false), rest)
       else if c == RETURN || input.discarding then Stops(cfg, input, rest)
       else if |input.line| >= cfg.maximum then Stops(cfg, LineInput([], true), rest)
       else Stops(cfg, LineInput(input.line + [c], false), rest)
  }

  /** It ends early exactly if it completes a line longer than the limit. */
  lemma {:induction false} StopsExactly(cfg: LineConfig, partial: Bytes, data: Bytes)
    requires NEWLINE !in partial
    ensures Stops(cfg, Held(cfg, partial), data)
       <==> cfg.disconnect && HasOversized(cfg, Split(partial + Clean(data)).lines)
    decreases |data|
  {
    assert Clean([]) == [];
    hide Split, Clean;
    if data == [] {
      assert partial + [] == partial;
      SplitNoNewline(partial);
    } else {
      var c, rest := data[0], data[1..];
      assert data == [c] + rest;
      if c == NEWLINE {
        StopsExactly(cfg, [], rest);
        assert [] + Clean(rest) == Clean(rest);
        CleanNewline(rest);
        Associate(partial, [NEWLINE], Clean(rest));
        SplitAtNewline(partial, Clean(rest));
      } else {
        CleanOther(c, rest);
        StopsExactly(cfg, if c == RETURN then partial else partial + [c], rest);
        Associate(partial, [c], Clean(rest));
      }
    }
  }

  /** A series of feeds, up to and including the first that ends early. */
  function FeedLineChunks(cfg: LineConfig, sv: Services, input: LineInput, h: Host, chunks: seq<Bytes>): LineFed
    decreases |chunks|
  {
    if chunks == [] then LineFed(input, h, true)
    else
      var first := FeedLine(cfg, sv, input, h, chunks[0]);
      if Stops(cfg, input, chunks[0]) then first
      else
        var later := FeedLineChunks(cfg, sv, first.input, first.host, chunks[1..]);
        later.(ok := first.ok && later.ok)
  }

  lemma {:induction false} FeedLineInTwo(cfg: LineConfig, sv: Services, input: LineInput, h: Host, a: Bytes, b: Bytes)
    ensures var first := FeedLine(cfg, sv, input, h, a);
            var second := FeedLine(cfg, sv, first.input, first.host, b);
            FeedLine(cfg, sv, input, h, a + b)
            == if Stops(cfg, input, a) then first else second.(ok := first.ok && second.ok)
    decreases |a|
  {
    hide HandleLine, Write;
    if a == [] {
      assert a + b == b;
    } else {
      var rest := a[1..];
      assert (a + b)[1..] == rest + b && (a + b)[0] == a[0];
      var c := a[0];
      if c == NEWLINE {
        var next := if input.discarding then Write(sv, h, LineReply(Error(Ascii(TOO_LONG)))) else HandleLine(cfg, sv, h, input.line);
        FeedLineInTwo(cfg, sv, LineInput([], false), next.host, rest, b);
      } else if c == RETURN || input.discarding {
        FeedLineInTwo(cfg, sv, input, h, rest, b);
      } else if |input.line| >= cfg.maximum {
        FeedLineInTwo(cfg, sv, LineInput([], true), h, rest, b);
      } else {
        FeedLineInTwo(cfg, sv, LineInput(input.line + [c], false), h, rest, b);
      }
    }
  }

  lemma {:induction false} LineChunksFeedAsOne(cfg: LineConfig, sv: Services, input: LineInput, h: Host, chunks: seq<Bytes>)
    ensures FeedLineChunks(cfg, sv, input, h, chunks) == FeedLine(cfg, sv, input, h, Flatten(chunks))
    decreases |chunks|
  {
    if chunks != [] {
      var first := FeedLine(cfg, sv, input, h, chunks[0]);
      LineChunksFeedAsOne(cfg, sv, first.input, first.host, chunks[1..]);
      FeedLineInTwo(cfg, sv, input, h, chunks[0], Flatten(chunks[1..]));
    }
  }

  /** Line mode end to end: under any chunking of any stream, a new session's replies are those
      of a map over the lines, in order, and it holds at most `maximum` bytes of the rest. With
      `disconnect` the map ends with the first oversized line. */
  lemma LineModeRefinesSplitting(cfg: LineConfig, sv: Services, h: Host, chunks: seq<Bytes>)
    ensures var text, r := Clean(Flatten(chunks)), FeedLineChunks(cfg, sv, LineInput([], false), h, chunks);
            var s := Split(text);
            var served := ServeLines(cfg, sv, h, s.lines);
            && IsServiceOf(cfg, sv, h, text, r)
            && (!cfg.disconnect ==> r == LineFed(Held(cfg, s.tail), served.host, served.ok))
  {
    LineChunksFeedAsOne(cfg, sv, LineInput([], false), h, chunks);
    FeedSplits(cfg, sv, [], h, Flatten(chunks));
    hide FeedLine, Split, ServeLines, Clean;
    assert [] + Clean(Flatten(chunks)) == Clean(Flatten(chunks));
    if !cfg.disconnect {
      AllAnswered(cfg, Split(Clean(Flatten(chunks))).lines);
    }
  }

  lemma {:induction false} AllAnswered(cfg: LineConfig, lines: seq<Bytes>)
    requires !cfg.disconnect
    ensures Answered(cfg, lines) == lines
  {
    if lines != [] {
      AllAnswered(cfg, lines[1..]);
    }
  }

  // ---------- the policy ----------

  /** Over any lines, and from any state in which that was so, the registry is invoked for exactly
      the calls that the policy was asked about and let through. */
  lemma {:induction false} LinesPassThePolicy(cfg: LineConfig, sv: Services, h: Host, lines: seq<Bytes>)
    requires OnlyLetThrough(sv, h)
    ensures OnlyLetThrough(sv, ServeLines(cfg, sv, h, lines).host)
    decreases |lines|
  {
    hide OnlyLetThrough, ServeLine;
    if lines != [] {
      LinePassesThePolicy(cfg, sv, h, lines[0]);
      LinesPassThePolicy(cfg, sv, ServeLine(cfg, sv, h, lines[0]).host, lines[1..]);
    }
  }

  lemma LinePassesThePolicy(cfg: LineConfig, sv: Services, h: Host, line: Bytes)
    requires OnlyLetThrough(sv, h)
    ensures OnlyLetThrough(sv, ServeLine(cfg, sv, h, line).host)
  {
    hide MatchesPassed, Passed, Answer, LineReply;
    var text := Trim(line);
    var parsed := sv.tokenize(text);
    if parsed.tokens != [] {
      var id := (h.requestId + 1) % (U64_MAX + 1);
      PolicyDecides(sv, h.(requestId := id), Request(id, [parsed.tokens[0]], [], [], text), TextCall(text));
    }
  }

  lemma {:induction false} LinesAreDecided(cfg: LineConfig, sv: Services, h: Host, lines: seq<Bytes>)
    requires AllDecided(sv, h)
    ensures AllDecided(sv, ServeLines(cfg, sv, h, lines).host)
    decreases |lines|
  {
    hide AllDecided, ServeLine;
    if lines != [] {
      LineIsDecided(cfg, sv, h, lines[0]);
      LinesAreDecided(cfg, sv, ServeLine(cfg, sv, h, lines[0]).host, lines[1..]);
    }
  }

  lemma LineIsDecided(cfg: LineConfig, sv: Services, h: Host, line: Bytes)
    requires AllDecided(sv, h)
    ensures AllDecided(sv, ServeLine(cfg, sv, h, line).host)
  {
    hide Passed, IsDecided, Answer, LineReply;
    var text := Trim(line);
    var parsed := sv.tokenize(text);
    if parsed.tokens != [] {
      var id := (h.requestId + 1) % (U64_MAX + 1);
      AnswerIsDecided(sv, h.(requestId := id), Request(id, [parsed.tokens[0]], [], [], text), TextCall(text));
    }
  }

  // ---------- counting ----------

  /** Neither too long nor an ignored blank: the line reaches the text parser. */
  predicate IsParsed(cfg: LineConfig, line: Bytes)
  {
    |line| <= cfg.maximum && (Trim(line) != [] || !cfg.ignoreEmpty)
  }

  function CountParsed(cfg: LineConfig, lines: seq<Bytes>): nat
  {
    if lines == [] then 0
    else (if IsParsed(cfg, lines[0]) then 1 else 0) + CountParsed(cfg, lines[1..])
  }

  function CountReplies(cfg: LineConfig, lines: seq<Bytes>): nat
  {
    if lines == [] then 0
    else (if IsParsed(cfg, lines[0]) || |lines[0]| > cfg.maximum then 1 else 0) + CountReplies(cfg, lines[1..])
  }

  /** The request counter grows by the lines passed to the parser, modulo 2^64, and every line
      but an ignored blank gets exactly one reply. */
  lemma {:induction false} LinesAreCounted(cfg: LineConfig, sv: Services, h: Host, lines: seq<Bytes>)
    requires h.requestId <= U64_MAX
    ensures var r := ServeLines(cfg, sv, h, lines).host;
            && r.requestId == (h.requestId + CountParsed(cfg, lines)) % (U64_MAX + 1)
            && |r.written| == |h.written| + CountReplies(cfg, lines)
    decreases |lines|
  {
    hide ServeLine, IsParsed;
    if lines != [] {
      LineIsCounted(cfg, sv, h, lines[0]);
      LinesAreCounted(cfg, sv, ServeLine(cfg, sv, h, lines[0]).host, lines[1..]);
      CountsGoRound(h.requestId, if IsParsed(cfg, lines[0]) then 1 else 0, CountParsed(cfg, lines[1..]));
    }
  }

  lemma CountsGoRound(x: nat, d: nat, n: nat)
    ensures ((x + d) % (U64_MAX + 1) + n) % (U64_MAX + 1) == (x + (d + n)) % (U64_MAX + 1)
  {
    var m := U64_MAX + 1;
    var q, r := (x + d) / m, ((x + d) % m + n) / m;
    assert x + (d + n) == (q + r) * m + ((x + d) % m + n) % m;
  }

  lemma LineIsCounted(cfg: LineConfig, sv: Services, h: Host, line: Bytes)
    requires h.requestId <= U64_MAX
    ensures var r := ServeLine(cfg, sv, h, line).host;
            && r.requestId == (h.requestId + if IsParsed(cfg, line) then 1 else 0) % (U64_MAX + 1)
            && |r.written| == |h.written| + if IsParsed(cfg, line) || |line| > cfg.maximum then 1 else 0
  {
  }
}
