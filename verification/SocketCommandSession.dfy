/** The Command session object: its feed loops are proved equal to the two mode modules. */
module SocketCommandSession {
  import opened Bytes
  import opened Wrappers
  import opened Framing
  import opened SocketFrames
  import opened CommandWire
  import opened CommandProtocol
  import opened CommandHost
  import opened CommandLineMode
  import opened CommandStructuredMode

  datatype Mode = Line | StructuredBinary

  datatype Config = Config(mode: Mode, maximum: nat, disconnect: bool, ignoreEmpty: bool)
  {
    function ForLines(): LineConfig {
      LineConfig(maximum, disconnect, ignoreEmpty)
    }
  }

  /** A registry that has not been set, as before `Initialize` and after `Shutdown`. */
  const NO_SERVICES := Services(_ => Tokens([], []), None, (_, _) => Error([]), (_, _) => false)

  class SocketCommandSession {
    var config: Config
    var services: Services
    var host: Host
    var line: Bytes
    var structured: Bytes
    var discardUntilNewline: bool
    var expectedStructuredBytes: nat
    var initialized: bool

    predicate Valid()
      reads this
    {
      WellFormed(config.maximum, Held(structured, expectedStructuredBytes))
    }

    predicate InputIsEmpty()
      reads this
    {
      line == [] && structured == [] && !discardUntilNewline && expectedStructuredBytes == 0
    }

    constructor ()
      ensures Valid() && InputIsEmpty() && !initialized
    {
      config, services := Config(Line, 1024, false, true), NO_SERVICES;
      host := Host(0, [], [], []);
      line, structured, discardUntilNewline, expectedStructuredBytes, initialized := [], [], false, 0, false;
    }

    /** A session used before starts from no input, like a new one. `hasWriter` says whether
        replies can be written. */
    method Initialize(config: Config, services: Services, hasWriter: bool, host: Host) returns (ok: bool)
      modifies this
      ensures Valid() && InputIsEmpty() && initialized == ok
      ensures ok <==> hasWriter && config.maximum != 0
      ensures !ok ==> this.host == old(this.host) && this.services == NO_SERVICES
      ensures ok ==> this.config == config && this.services == services && this.host == host
    {
      Shutdown();
      if !hasWriter || config.maximum == 0 {
        return false;
      }
      this.config, this.services, this.host := config, services, host;
      initialized := true;
      return true;
    }

    method Shutdown()
      modifies this
      ensures Valid() && InputIsEmpty() && !initialized && services == NO_SERVICES
      ensures host == old(host)
    {
      services := NO_SERVICES;
      ResetInput();
      initialized := false;
    }

    method ResetInput()
      modifies this`line, this`structured, this`discardUntilNewline, this`expectedStructuredBytes
      ensures Valid() && InputIsEmpty()
    {
      line, structured, discardUntilNewline, expectedStructuredBytes := [], [], false, 0;
    }

    method Feed(data: Bytes) returns (ok: bool)
      requires Valid()
      modifies this
      ensures Valid() && config == old(config) && services == old(services) && initialized == old(initialized)
      ensures !initialized ==>
        && !ok && host == old(host) && line == old(line) && structured == old(structured)
        && discardUntilNewline == old(discardUntilNewline) && expectedStructuredBytes == old(expectedStructuredBytes)
      ensures initialized && config.mode == Line ==>
        && LineFed(LineInput(line, discardUntilNewline), host, ok)
           == CommandLineMode.FeedLine(config.ForLines(), services, old(LineInput(line, discardUntilNewline)), old(host), data)
        && structured == old(structured) && expectedStructuredBytes == old(expectedStructuredBytes)
      ensures initialized && config.mode == StructuredBinary ==>
        && FrameFed(Held(structured, expectedStructuredBytes), host, ok)
           == CommandStructuredMode.FeedStructured(config.maximum, config.disconnect, services,
                old(Held(structured, expectedStructuredBytes)), old(host), data)
        && line == old(line) && discardUntilNewline == old(discardUntilNewline)
    {
      if !initialized {
        return false;
      }
      if config.mode == Line {
        ok := FeedLine(data);
      } else {
        ok := FeedStructured(data);
      }
    }

    // ---------- effects ----------

    method Write(reply: Bytes) returns (ok: bool)
      modifies this`host
      ensures Done(host, ok) == CommandHost.Write(services, old(host), reply)
    {
      ok := services.writer(host.written, reply);
      host := host.(written := host.written + [reply]);
    }

    /** The registry hears of the call exactly if the policy does not object, the observer is told
        the one answer given, and nothing is written. */
    method Execute(context: Request, call: Call) returns (result: Result)
      modifies this`host
      ensures (host, result) == Answer(services, old(host), context, call)
      ensures host.observed == old(host.observed) + [(context, result)]
      ensures host.written == old(host.written) && host.requestId == old(host.requestId)
      ensures host.calls == if Objects(services, old(host.observed), context) then old(host.calls) else old(host.calls) + [call]
      ensures Concerns(services, context, call) && OnlyLetThrough(services, old(host)) ==> OnlyLetThrough(services, host)
    {
      if Concerns(services, context, call) && OnlyLetThrough(services, host) {
        PolicyDecides(services, host, context, call);
      }
      hide OnlyLetThrough;
      if services.policy.Some? {
        result := services.policy.value(host.observed, context);
        if !result.success {
          host := host.(observed := host.observed + [(context, result)]);
          return;
        }
      }
      result := services.registry(host.calls, call);
      host := host.(calls := host.calls + [call], observed := host.observed + [(context, result)]);
    }

    // ---------- line mode ----------

    method HandleLine(line: Bytes) returns (ok: bool)
      modifies this`host
      ensures Done(host, ok) == CommandLineMode.HandleLine(config.ForLines(), services, old(host), line)
    {
      hide Trim, LineReply, Answer, CommandHost.Write, Ascii;
      var text := Trim(line);
      if text == [] && config.ignoreEmpty {
        return true;
      }
      var id := (host.requestId + 1) % (U64_MAX + 1);
      host := host.(requestId := id);
      var parsed := services.tokenize(text);
      if parsed.error != [] {
        ok := Write(LineReply(Error(parsed.error)));
        return;
      }
      if parsed.tokens == [] {
        ok := Write(LineReply(Error(Ascii(NO_COMMAND))));
        return;
      }
      var result := Execute(Request(id, [parsed.tokens[0]], [], [], text), TextCall(text));
      ok := Write(LineReply(result));
    }

    method FeedLine(data: Bytes) returns (success: bool)
      requires Valid()
      modifies this`line, this`discardUntilNewline, this`host
      ensures LineFed(LineInput(line, discardUntilNewline), host, success)
           == CommandLineMode.FeedLine(config.ForLines(), services, old(LineInput(line, discardUntilNewline)), old(host), data)
    {
      hide CommandLineMode.HandleLine, CommandHost.Write, LineReply;
      success := true;
      for i := 0 to |data|
        invariant
          var later := CommandLineMode.FeedLine(config.ForLines(), services, LineInput(line, discardUntilNewline), host, data[i..]);
          CommandLineMode.FeedLine(config.ForLines(), services, old(LineInput(line, discardUntilNewline)), old(host), data)
          == later.(ok := success && later.ok)
      {
        var c := data[i];
        assert data[i..][0] == c && data[i..][1..] == data[i + 1..];
        if c == RETURN {
        } else if c == NEWLINE {
          if discardUntilNewline {
            discardUntilNewline := false;
            line := [];
            var wrote := Write(LineReply(Error(Ascii(TOO_LONG))));
            if config.disconnect {
              return false;
            }
            success := wrote && success;
          } else {
            var whole := line;
            line := [];
            var handled := HandleLine(whole);
            success := handled && success;
          }
        } else if discardUntilNewline {
        } else if |line| >= config.maximum {
          line := [];
          discardUntilNewline := true;
        } else {
          line := line + [c];
        }
      }
    }

    // ---------- structured mode ----------

    method WriteResponse(response: Response) returns (ok: bool)
      modifies this`host
      ensures Done(host, ok) == Respond(services, old(host), response)
    {
      var encoded, payload := EncodeResponse(response);
      if !encoded {
        return false;
      }
      var framed, frame := FrameStructuredPayload(payload);
      if !framed {
        return false;
      }
      ok := Write(frame);
    }

    method HandleStructuredFrame(payload: Bytes) returns (ok: bool)
      modifies this`host
      ensures Done(host, ok) == HandleFrame(services, old(host), payload)
    {
      var decoded, request := DecodeRequest(payload);
      if !decoded {
        ok := WriteResponse(ErrorResponse(Ascii(MALFORMED)));
        return;
      }
      host := host.(requestId := request.id);
      var result := Execute(request, StructuredCall(request));
      ok := WriteResponse(Response(request.id, result.success, result.code, result.message));
    }

    method FeedStructured(data: Bytes) returns (ok: bool)
      requires Valid()
      modifies this`structured, this`expectedStructuredBytes, this`host
      ensures Valid()
      ensures FrameFed(Held(structured, expectedStructuredBytes), host, ok)
           == CommandStructuredMode.FeedStructured(config.maximum, config.disconnect, services,
                old(Held(structured, expectedStructuredBytes)), old(host), data)
    {
      hide Look, HandleFrame, HandleFrames, Respond, Parse, Continues, Pending, Unpend;
      if |data| > config.maximum + 4 && structured == [] {
        return false;
      }
      ghost var f := Counted(config.maximum);
      structured := structured + data;
      PendingGrows(old(structured), expectedStructuredBytes, data);
      ghost var whole := Parse(f, Pending(Held(structured, expectedStructuredBytes)));
      ghost var cut: seq<Bytes> := [];
      ParseStarts(f, Pending(Held(structured, expectedStructuredBytes)));
      NothingHandled(services, host);
      var success := true;
      while true
        invariant expectedStructuredBytes <= config.maximum && expectedStructuredBytes <= U32_MAX
        invariant Continues(f, whole, cut, Pending(Held(structured, expectedStructuredBytes)))
        invariant Done(host, success) == HandleFrames(services, old(host), Unprefixed(cut))
        decreases |Pending(Held(structured, expectedStructuredBytes))|
      {
        ghost var held := Pending(Held(structured, expectedStructuredBytes));
        ParseGoesOn(f, whole, cut, held);
        var front, payload := TakeFrame();
        if front == Incomplete {
          break;
        }
        if front == Invalid {
          var wrote := WriteResponse(ErrorResponse(Ascii(TOO_LARGE)));
          return if config.disconnect then false else wrote;
        }
        var handled := HandleStructuredFrame(payload);
        HandleOneMore(services, old(host), cut, held[..front.size]);
        success := handled && success;
        cut := cut + [held[..front.size]];
      }
      if |structured| > config.maximum {
        structured, expectedStructuredBytes := [], 0;
        return false;
      }
      return success;
    }

    /** One turn of the loop in `FeedStructured`: read and check the length unless that was done
        before, and take the payload out once it is complete. */
    method TakeFrame() returns (front: Front, payload: Bytes)
      requires expectedStructuredBytes <= config.maximum && expectedStructuredBytes <= U32_MAX
      modifies this`structured, this`expectedStructuredBytes
      ensures front == Look(Counted(config.maximum), old(Pending(Held(structured, expectedStructuredBytes))))
      ensures var held := old(Pending(Held(structured, expectedStructuredBytes)));
              match front
              case Incomplete => Held(structured, expectedStructuredBytes) == Unpend(held) && Valid()
              case Invalid => structured == [] && expectedStructuredBytes == 0
              case Whole(n) =>
                && 4 < n <= |held| && payload == held[..n][4..]
                && structured == held[n..] && expectedStructuredBytes == 0
                && Pending(Held(structured, expectedStructuredBytes)) == structured
    {
      ghost var held := Pending(Held(structured, expectedStructuredBytes));
      LookAtPending(config.maximum, held);
      if Look(Counted(config.maximum), held) == Incomplete {
        UnpendIsWellFormed(config.maximum, held);
      }
      if expectedStructuredBytes > 0 {
        UnpendOfPending(structured, expectedStructuredBytes);
      }
      hide Look, FromBigEndian;
      payload := [];
      if expectedStructuredBytes == 0 {
        if |structured| < 4 {
          return Incomplete, payload;
        }
        expectedStructuredBytes := FromBigEndian(structured[..4]);
        structured := structured[4..];
        if expectedStructuredBytes == 0 || expectedStructuredBytes > config.maximum {
          structured, expectedStructuredBytes := [], 0;
          return Invalid, payload;
        }
      }
      assert held[4..] == structured;
      if |structured| < expectedStructuredBytes {
        return Incomplete, payload;
      }
      front := Whole(4 + expectedStructuredBytes);
      payload := structured[..expectedStructuredBytes];
      assert payload == held[..front.size][4..];
      structured := structured[expectedStructuredBytes..];
      assert structured == held[front.size..];
      expectedStructuredBytes := 0;
    }
  }

  /** The request a client frames; the empty answer is the refusal of an oversized payload. */
  method FrameStructuredPayload(payload: Bytes) returns (ok: bool, frame: Bytes)
    ensures ok <==> |payload| <= U32_MAX
    ensures ok ==> frame == Build(Counted(U32_MAX), 0, payload)
  {
    if |payload| > U32_MAX {
      return false, [];
    }
    frame := AppendUnsigned([], 4, |payload|);
    return true, frame + payload;
  }

  lemma PendingGrows(buffer: Bytes, expected: nat, data: Bytes)
    ensures Pending(Held(buffer + data, expected)) == Pending(Held(buffer, expected)) + data
  {
    Associate(BigEndian(4, expected), buffer, data);
  }

  lemma UnpendOfPending(buffer: Bytes, expected: nat)
    requires 0 < expected <= U32_MAX
    ensures Unpend(Pending(Held(buffer, expected))) == Held(buffer, expected)
  {
    Pow256Values();
    BigEndianRoundTrip(4, expected);
    assert Pending(Held(buffer, expected))[..4] == BigEndian(4, expected);
  }

  /** The session's own tests on the held bytes are the shared inspection of the front. */
  lemma LookAtPending(maximum: nat, p: Bytes)
    ensures Look(Counted(maximum), p) ==
      if |p| < 4 then Incomplete
      else if Unpend(p).expected == 0 || Unpend(p).expected > maximum then Invalid
      else if |Unpend(p).buffer| < Unpend(p).expected then Incomplete
      else Whole(4 + Unpend(p).expected)
    ensures |p| >= 4 ==> Unpend(p).expected <= U32_MAX
  {
    if |p| >= 4 {
      Pow256Values();
      FromBigEndianRoundTrip(p[..4]);
      assert p[0..4] == p[..4];
    }
  }

  lemma HandleOneMore(sv: Services, h: Host, cut: seq<Bytes>, frame: Bytes)
    requires |frame| >= 4
    ensures var first := HandleFrames(sv, h, Unprefixed(cut));
            var next := HandleFrame(sv, first.host, frame[4..]);
            HandleFrames(sv, h, Unprefixed(cut + [frame])) == Done(next.host, first.ok && next.ok)
  {
    hide HandleFrame;
    HandleInTwo(sv, h, Unprefixed(cut), [frame[4..]]);
    assert Unprefixed(cut + [frame]) == Unprefixed(cut) + [frame[4..]];
    var one := [frame[4..]];
    assert one[1..] == [];
  }
}
