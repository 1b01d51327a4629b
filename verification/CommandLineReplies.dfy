/** What a client of line mode gets to read: the results of its lines, in order. */
module CommandLineReplies {
  import opened Bytes
  import opened Wrappers
  import opened CommandProtocol
  import opened CommandHost
  import opened CommandLineMode

  /** The results that lines should have, one for each but an ignored blank, if `id` was the last
      request number and the observer was `told` these answers meanwhile: a line that reaches a
      command has the answer that was told for its text, its first word and its own number. */
  predicate AreResults(cfg: LineConfig, tokenize: Bytes -> Tokens, id: nat, lines: seq<Bytes>,
                       told: seq<(Request, Result)>, results: seq<Result>)
    decreases |lines|
  {
    if lines == [] then told == [] && results == []
    else
      var text, next, rest := Trim(lines[0]), (id + 1) % (U64_MAX + 1), lines[1..];
      var parsed := tokenize(text);
      if |lines[0]| <= cfg.maximum && text == [] && cfg.ignoreEmpty then AreResults(cfg, tokenize, id, rest, told, results)
      else
        results != [] &&
        if |lines[0]| > cfg.maximum then
          results[0] == Result(false, 1, Ascii(TOO_LONG)) && AreResults(cfg, tokenize, id, rest, told, results[1..])
        else if parsed.error != [] || parsed.tokens == [] then
          && results[0] == Result(false, 1, if parsed.error != [] then parsed.error else Ascii(NO_COMMAND))
          && AreResults(cfg, tokenize, next, rest, told, results[1..])
        else
          && told != [] && told[0] == (Request(next, [parsed.tokens[0]], [], [], text), results[0])
          && AreResults(cfg, tokenize, next, rest, told[1..], results[1..])
  }

  function LineReplies(results: seq<Result>): (r: seq<Bytes>)
    ensures |r| == |results|
  {
    seq(|results|, i requires 0 <= i < |results| => LineReply(results[i]))
  }

  /** From `h` to `z` lines were answered: the observer was told the answers, in order, every
      result was written, and nothing else was observed or written. */
  ghost predicate AreAnswered(cfg: LineConfig, sv: Services, lines: seq<Bytes>, h: Host, z: Host)
  {
    h.observed <= z.observed && h.written <= z.written &&
    exists results :: AreResults(cfg, sv.tokenize, h.requestId, lines, z.observed[|h.observed|..], results)
                      && z.written[|h.written|..] == LineReplies(results)
  }

  lemma {:induction false} LinesAreAnswered(cfg: LineConfig, sv: Services, h: Host, lines: seq<Bytes>)
    ensures AreAnswered(cfg, sv, lines, h, ServeLines(cfg, sv, h, lines).host)
    ensures ServeLines(cfg, sv, h, lines).ok <==> AllTaken(sv, ServeLines(cfg, sv, h, lines).host.written, |h.written|)
    decreases |lines|
  {
    hide ServeLine, AreAnswered;
    if lines == [] {
      NoneAnswered(cfg, sv, h);
    } else {
      var m := ServeLine(cfg, sv, h, lines[0]);
      var z := ServeLines(cfg, sv, m.host, lines[1..]);
      LinesAreAnswered(cfg, sv, m.host, lines[1..]);
      var told, results := LineIsAnswered(cfg, sv, h, lines[0]);
      AnsweredInTwo(cfg, sv, lines, h, told, results, m.host, z.host);
      TakenInTwo(sv, m.host.written, |h.written|, |m.host.written|, z.host.written);
    }
  }

  lemma NoneAnswered(cfg: LineConfig, sv: Services, h: Host)
    ensures AreAnswered(cfg, sv, [], h, h)
  {
    assert LineReplies([]) == [];
    assert AreResults(cfg, sv.tokenize, h.requestId, [], h.observed[|h.observed|..], []);
  }

  lemma AnsweredInTwo(cfg: LineConfig, sv: Services, lines: seq<Bytes>, h: Host,
                      told: seq<(Request, Result)>, results: seq<Result>, m: Host, z: Host)
    requires lines != [] && AreResults(cfg, sv.tokenize, h.requestId, [lines[0]], told, results)
    requires m.observed == h.observed + told && m.written == h.written + LineReplies(results)
    requires m.requestId == NumberAfter(cfg, h.requestId, lines[0])
    requires AreAnswered(cfg, sv, lines[1..], m, z)
    ensures AreAnswered(cfg, sv, lines, h, z) && m.written <= z.written
  {
    hide AreResults, LineReply, NumberAfter;
    var toldLater, writtenLater := z.observed[|m.observed|..], z.written[|m.written|..];
    var later :| AreResults(cfg, sv.tokenize, m.requestId, lines[1..], toldLater, later) && writtenLater == LineReplies(later);
    OneLineMore(cfg, sv.tokenize, h.requestId, lines, told, results, toldLater, later);
    CutAt(z.observed, |m.observed|);
    CutAt(z.written, |m.written|);
    assert z.observed[|h.observed|..] == told + toldLater;
    assert z.written[|h.written|..] == LineReplies(results) + writtenLater;
    assert LineReplies(results + later) == LineReplies(results) + LineReplies(later);
  }

  function NumberAfter(cfg: LineConfig, id: nat, line: Bytes): nat
  {
    if IsParsed(cfg, line) then (id + 1) % (U64_MAX + 1) else id
  }

  lemma OneLineMore(cfg: LineConfig, tokenize: Bytes -> Tokens, id: nat, lines: seq<Bytes>,
                    told: seq<(Request, Result)>, results: seq<Result>, toldLater: seq<(Request, Result)>, later: seq<Result>)
    requires lines != [] && AreResults(cfg, tokenize, id, [lines[0]], told, results)
    requires AreResults(cfg, tokenize, NumberAfter(cfg, id, lines[0]), lines[1..], toldLater, later)
    ensures AreResults(cfg, tokenize, id, lines, told + toldLater, results + later)
  {
    var one := [lines[0]];
    assert one[1..] == [];
    assert told != [] ==> (told + toldLater)[1..] == told[1..] + toldLater;
    assert results != [] ==> (results + later)[1..] == results[1..] + later;
    assert [] + toldLater == toldLater && [] + later == later;
    hide Trim, Ascii;
  }

  lemma LineIsAnswered(cfg: LineConfig, sv: Services, h: Host, line: Bytes)
    returns (told: seq<(Request, Result)>, results: seq<Result>)
    ensures var m := ServeLine(cfg, sv, h, line);
            && AreResults(cfg, sv.tokenize, h.requestId, [line], told, results)
            && m.host.observed == h.observed + told && m.host.written == h.written + LineReplies(results)
            && m.host.requestId == NumberAfter(cfg, h.requestId, line)
            && (m.ok <==> AllTaken(sv, m.host.written, |h.written|))
  {
    hide Trim, LineReply, Ascii;
    var text := Trim(line);
    var one := [line];
    assert one[1..] == [];
    var m := ServeLine(cfg, sv, h, line);
    if |line| <= cfg.maximum && text == [] && cfg.ignoreEmpty {
      told, results := [], [];
      assert h.observed + [] == h.observed && h.written + [] == h.written;
    } else {
      var parsed, id := sv.tokenize(text), (h.requestId + 1) % (U64_MAX + 1);
      if |line| > cfg.maximum || parsed.error != [] || parsed.tokens == [] {
        told := [];
        results := [Error(if |line| > cfg.maximum then Ascii(TOO_LONG)
                          else if parsed.error != [] then parsed.error else Ascii(NO_COMMAND))];
        assert h.observed + [] == h.observed;
      } else {
        var (_, result) := Answer(sv, h.(requestId := id), Request(id, [parsed.tokens[0]], [], [], text), TextCall(text));
        told, results := [(Request(id, [parsed.tokens[0]], [], [], text), result)], [result];
      }
      assert LineReplies(results) == [LineReply(results[0])];
      assert m.host.written[..|h.written|] == h.written;
    }
  }

  // ---------- what the client reads ----------

  /** What a client reads of a reply. */
  predicate AreRead(replies: seq<Bytes>, results: seq<Result>)
  {
    && |replies| == |results|
    && forall i :: 0 <= i < |results| ==>
         ReadReply(replies[i]) == Some((results[i].success, results[i].code as int, results[i].message))
  }

  lemma RepliesAreRead(results: seq<Result>)
    ensures AreRead(LineReplies(results), results)
  {
    hide LineReply, ReadReply;
    forall i | 0 <= i < |results|
      ensures ReadReply(LineReply(results[i])) == Some((results[i].success, results[i].code as int, results[i].message))
    {
      ReplyIsRead(results[i]);
    }
  }

  /** What a client reads are the results its lines should have. */
  ghost predicate ClientReads(cfg: LineConfig, sv: Services, lines: seq<Bytes>, h: Host, z: Host)
  {
    h.observed <= z.observed && h.written <= z.written &&
    exists results :: AreResults(cfg, sv.tokenize, h.requestId, lines, z.observed[|h.observed|..], results)
                      && AreRead(z.written[|h.written|..], results)
  }

  /** Line mode end to end: whatever bytes arrive in whatever chunks, a client reads one result for
      each line that the splitting of the stream yields, blank ones that are ignored excepted, and
      the results are those that the observer was told, which the policy or the registry gave. */
  lemma LineModeEndToEnd(cfg: LineConfig, sv: Services, h: Host, chunks: seq<Bytes>)
    ensures var lines := Answered(cfg, Split(Clean(Flatten(chunks))).lines);
            var z := FeedLineChunks(cfg, sv, LineInput([], false), h, chunks).host;
            ClientReads(cfg, sv, lines, h, z) && (AllDecided(sv, h) ==> AllDecided(sv, z))
  {
    var lines := Answered(cfg, Split(Clean(Flatten(chunks))).lines);
    LineModeRefinesSplitting(cfg, sv, h, chunks);
    LinesAreAnswered(cfg, sv, h, lines);
    if AllDecided(sv, h) {
      LinesAreDecided(cfg, sv, h, lines);
    }
    var z := ServeLines(cfg, sv, h, lines).host;
    hide ServeLines, FeedLineChunks, AreResults, Split, Clean, Flatten, AllDecided, AreRead, LineReplies, Held, HasOversized;
    var results :| AreResults(cfg, sv.tokenize, h.requestId, lines, z.observed[|h.observed|..], results)
                   && z.written[|h.written|..] == LineReplies(results);
    RepliesAreRead(results);
  }
}
