/** What a Command session does to its surroundings: it asks the policy, invokes the registry,
    informs the observer and writes replies. */
module CommandHost {
  import opened Bytes
  import opened Wrappers
  import opened CommandProtocol

  datatype Result = Result(success: bool, code: int32, message: Bytes)

  datatype Call = TextCall(line: Bytes) | StructuredCall(request: Request)

  datatype Tokens = Tokens(tokens: seq<Bytes>, error: Bytes)

  /** The libraries around a session. The registry may answer by everything invoked so far, the
      policy by every answer given so far, its own refusals among them, and the writer by
      everything written so far. */
  datatype Services = Services(
    tokenize: Bytes -> Tokens,
    policy: Option<(seq<(Request, Result)>, Request) -> Result>,
    registry: (seq<Call>, Call) -> Result,
    writer: (seq<Bytes>, Bytes) -> bool)

  /** The session's request counter and all its effects so far. */
  datatype Host = Host(
    requestId: nat,
    calls: seq<Call>,
    observed: seq<(Request, Result)>,
    written: seq<Bytes>)

  /** A new state of the surroundings and whether all replies were written. */
  datatype Done = Done(host: Host, ok: bool)

  function Ascii(s: string): Bytes
  {
    seq(|s|, i requires 0 <= i < |s| => s[i] as int % 256)
  }

  function Error(message: Bytes): Result
  {
    Result(false, 1, message)
  }

  function Write(sv: Services, h: Host, reply: Bytes): Done
  {
    Done(h.(written := h.written + [reply]), sv.writer(h.written, reply))
  }

  predicate Objects(sv: Services, observed: seq<(Request, Result)>, context: Request)
  {
    sv.policy.Some? && !sv.policy.value(observed, context).success
  }

  /** The writer took every reply from the `from`-th on. */
  ghost predicate AllTaken(sv: Services, written: seq<Bytes>, from: nat)
  {
    forall i :: from <= i < |written| ==> sv.writer(written[..i], written[i])
  }

  lemma TakenInTwo(sv: Services, written: seq<Bytes>, a: nat, b: nat, z: seq<Bytes>)
    requires a <= b == |written| && written <= z
    ensures AllTaken(sv, z, a) <==> AllTaken(sv, written, a) && AllTaken(sv, z, b)
  {
    assert forall i :: 0 <= i < b ==> z[..i] == written[..i];
  }

  /** The policy can answer in place of the registry; the observer sees the answer. */
  function Answer(sv: Services, h: Host, context: Request, call: Call): (Host, Result)
  {
    if Objects(sv, h.observed, context) then
      var denied := sv.policy.value(h.observed, context);
      (h.(observed := h.observed + [(context, denied)]), denied)
    else
      var result := sv.registry(h.calls, call);
      (h.(calls := h.calls + [call], observed := h.observed + [(context, result)]), result)
  }

  /** The context that the policy is shown is that of the call. */
  predicate Concerns(sv: Services, context: Request, call: Call)
  {
    match call
    case StructuredCall(request) => context == request
    case TextCall(line) =>
      && context.raw == line && sv.tokenize(line).tokens != []
      && context.path == [sv.tokenize(line).tokens[0]]
  }

  /** The contexts to which the policy, if there is one, did not object when it was asked. */
  function Passed(sv: Services, observed: seq<(Request, Result)>): seq<Request>
  {
    if observed == [] then []
    else
      var n := |observed| - 1;
      Passed(sv, observed[..n]) + if Objects(sv, observed[..n], observed[n].0) then [] else [observed[n].0]
  }

  /** The registry has been invoked for exactly those, in order. */
  ghost predicate OnlyLetThrough(sv: Services, h: Host)
  {
    MatchesPassed(sv, h.calls, Passed(sv, h.observed))
  }

  ghost predicate MatchesPassed(sv: Services, calls: seq<Call>, passed: seq<Request>)
  {
    |calls| == |passed| && forall i :: 0 <= i < |passed| ==> Concerns(sv, passed[i], calls[i])
  }

  /** The registry hears of exactly what the policy lets through; whoever decides, the observer is
      told the one answer that is given, and nothing is written yet. */
  lemma PolicyDecides(sv: Services, h: Host, context: Request, call: Call)
    requires Concerns(sv, context, call) && OnlyLetThrough(sv, h)
    ensures var (z, result) := Answer(sv, h, context, call);
            && OnlyLetThrough(sv, z)
            && z.calls == (if Objects(sv, h.observed, context) then h.calls else h.calls + [call])
            && (z.calls == h.calls ==> !result.success)
            && z.observed == h.observed + [(context, result)]
            && z.written == h.written && z.requestId == h.requestId
  {
    var (z, _) := Answer(sv, h, context, call);
    var n := |h.observed|;
    assert z.observed[..n] == h.observed && z.observed[n].0 == context;
  }

  /** The `n`-th answer that the observer was told is the policy's refusal if the policy objected,
      and otherwise what the registry made of the next call, which was that of the context. */
  predicate IsDecided(sv: Services, calls: seq<Call>, observed: seq<(Request, Result)>, n: nat)
    requires n < |observed|
  {
    var before, (context, result) := observed[..n], observed[n];
    var m := |Passed(sv, before)|;
    if Objects(sv, before, context) then result == sv.policy.value(before, context)
    else m < |calls| && Concerns(sv, context, calls[m]) && result == sv.registry(calls[..m], calls[m])
  }

  /** Every answer was, and there were no other calls. */
  ghost predicate AllDecided(sv: Services, h: Host)
  {
    && |h.calls| == |Passed(sv, h.observed)|
    && forall n :: 0 <= n < |h.observed| ==> IsDecided(sv, h.calls, h.observed, n)
  }

  lemma LaterCallsDecideNothing(sv: Services, h: Host, z: Host, n: nat)
    requires n < |h.observed| && IsDecided(sv, h.calls, h.observed, n)
    requires h.calls <= z.calls && h.observed <= z.observed
    ensures IsDecided(sv, z.calls, z.observed, n)
  {
    assert z.observed[..n] == h.observed[..n];
    var m := |Passed(sv, h.observed[..n])|;
    if m < |h.calls| {
      assert z.calls[..m] == h.calls[..m];
    }
    hide Passed, Concerns, Objects;
  }

  /** The session answers what the policy or the registry answered, and nothing of its own. */
  lemma AnswerIsDecided(sv: Services, h: Host, context: Request, call: Call)
    requires Concerns(sv, context, call) && AllDecided(sv, h)
    ensures var (z, result) := Answer(sv, h, context, call);
            AllDecided(sv, z) && z.observed == h.observed + [(context, result)]
  {
    var (z, result) := Answer(sv, h, context, call);
    var n := |h.observed|;
    assert z.observed[..n] == h.observed && z.observed[n] == (context, result);
    assert z.calls[..|h.calls|] == h.calls;
    hide Concerns;
    forall k | 0 <= k < |z.observed| ensures IsDecided(sv, z.calls, z.observed, k) {
      if k < n {
        LaterCallsDecideNothing(sv, h, z, k);
      }
    }
  }

  // ---------- text replies ----------

  const SPACE: byte := 32
  const NEWLINE: byte := 10
  const RETURN: byte := 13

  function Digits(n: nat): (r: Bytes)
    ensures forall b :: b in r ==> 48 <= b <= 57
  {
    if n < 10 then [48 + n] else Digits(n / 10) + [48 + n % 10]
  }

  function Decimal(n: int): (r: Bytes)
    ensures forall b :: b in r ==> 45 <= b <= 57
  {
    if n < 0 then [45] + Digits(-n) else Digits(n)
  }

  function LineReply(r: Result): Bytes
  {
    (if r.success then Ascii("OK ") else Ascii("ERR "))
    + Decimal(r.code) + (if r.message == [] then [] else [SPACE] + r.message) + [NEWLINE]
  }

  lemma StatusHasNoNewline()
    ensures NEWLINE !in Ascii("OK ") && NEWLINE !in Ascii("ERR ")
  {
    assert Ascii("OK ") == [79, 75, 32] && Ascii("ERR ") == [69, 82, 82, 32];
  }

  /** A reply is one line exactly when the message brings no newline of its own: nothing is
      escaped, so a client that reads lines can tell replies apart only then. */
  lemma ReplyIsOneLine(r: Result)
    ensures var reply := LineReply(r);
            && reply[|reply| - 1] == NEWLINE
            && (NEWLINE in reply[..|reply| - 1] <==> NEWLINE in r.message)
  {
    var status := if r.success then Ascii("OK ") else Ascii("ERR ");
    StatusHasNoNewline();
    hide Ascii, Decimal;
    var message := if r.message == [] then [] else [SPACE] + r.message;
    var reply := LineReply(r);
    var line := status + Decimal(r.code) + message;
    assert reply == line + [NEWLINE];
    assert reply[..|reply| - 1] == line;
    assert NEWLINE in line <==> NEWLINE in message;
    if NEWLINE in r.message {
      assert NEWLINE in message;
    }
  }

  /** For instance, a result with the message `a` newline `b` is written as two lines. */
  lemma ReplyOfTwoLines()
    ensures LineReply(Result(true, 0, Ascii("a\nb"))) == Ascii("OK 0 a\nb\n")
    ensures Ascii("OK 0 a\nb\n") == Ascii("OK 0 a") + [NEWLINE] + Ascii("b") + [NEWLINE]
  {
    assert Decimal(0) == [48];
  }

  // ---------- reading a text reply ----------

  /** The number that decimal digits stand for. */
  function Number(digits: Bytes): int
  {
    if digits == [] then 0 else 10 * Number(digits[..|digits| - 1]) + (digits[|digits| - 1] as int - 48)
  }

  function LeadingDigits(s: Bytes): (n: nat)
    ensures n <= |s|
  {
    if s == [] || !(48 <= s[0] <= 57) then 0 else 1 + LeadingDigits(s[1..])
  }

  /** What a client makes of a reply: success, code and message. */
  type Reading = Option<(bool, int, Bytes)>

  /** A status word, a number, and after a space the message, up to the final newline. */
  function ReadReply(s: Bytes): Reading
  {
    if s == [] || s[|s| - 1] != NEWLINE then None
    else
      var line := s[..|s| - 1];
      if Ascii("OK ") <= line then ReadAnswer(true, line[3..])
      else if Ascii("ERR ") <= line then ReadAnswer(false, line[4..])
      else None
  }

  function ReadAnswer(success: bool, s: Bytes): Reading
  {
    if s != [] && s[0] == 45 then ReadNumber(success, -1, s[1..]) else ReadNumber(success, 1, s)
  }

  function ReadNumber(success: bool, sign: int, s: Bytes): Reading
  {
    var n := LeadingDigits(s);
    if n == 0 || (n < |s| && s[n] != SPACE) then None
    else Some((success, sign * Number(s[..n]), if n == |s| then [] else s[n + 1..]))
  }

  lemma {:induction false} DigitsAreRead(n: nat, t: Bytes)
    requires t == [] || !(48 <= t[0] <= 57)
    ensures Digits(n) != [] && Number(Digits(n)) == n && LeadingDigits(Digits(n) + t) == |Digits(n)|
  {
    NumberOfDigits(n);
    DigitsLead(Digits(n), t);
    hide Digits, Number;
  }

  lemma {:induction false} NumberOfDigits(n: nat)
    ensures Digits(n) != [] && Number(Digits(n)) == n
  {
    if n >= 10 {
      NumberOfDigits(n / 10);
      assert Digits(n)[..|Digits(n)| - 1] == Digits(n / 10);
    } else {
      assert Digits(n)[..0] == [];
    }
  }

  lemma {:induction false} DigitsLead(digits: Bytes, t: Bytes)
    requires forall b :: b in digits ==> 48 <= b <= 57
    requires t == [] || !(48 <= t[0] <= 57)
    ensures LeadingDigits(digits + t) == |digits|
  {
    if digits == [] {
      assert digits + t == t;
    } else {
      assert (digits + t)[1..] == digits[1..] + t && (digits + t)[0] == digits[0];
      assert digits[0] in digits && forall b :: b in digits[1..] ==> b in digits;
      DigitsLead(digits[1..], t);
    }
  }

  lemma NumberIsRead(success: bool, sign: int, n: nat, t: Bytes)
    requires t == [] || t[0] == SPACE
    ensures ReadNumber(success, sign, Digits(n) + t) == Some((success, sign * n, if t == [] then [] else t[1..]))
  {
    DigitsAreRead(n, t);
    hide Digits, Number, LeadingDigits;
    var s, k := Digits(n) + t, |Digits(n)|;
    assert s[..k] == Digits(n) && s[k..] == t;
    assert t != [] ==> s[k] == t[0] && s[k + 1..] == t[1..];
  }

  lemma DigitsAreNoSign(n: nat, t: Bytes)
    ensures Digits(n) != [] && (Digits(n) + t)[0] != 45
  {
    NumberOfDigits(n);
    assert Digits(n)[0] in Digits(n);
  }

  lemma AnswerIsRead(success: bool, code: int, t: Bytes)
    requires t == [] || t[0] == SPACE
    ensures ReadAnswer(success, Decimal(code) + t) == Some((success, code, if t == [] then [] else t[1..]))
  {
    hide Digits, ReadNumber;
    if code < 0 {
      NumberIsRead(success, -1, -code, t);
      Associate([45], Digits(-code), t);
      assert ([45] + (Digits(-code) + t))[1..] == Digits(-code) + t;
    } else {
      NumberIsRead(success, 1, code, t);
      DigitsAreNoSign(code, t);
    }
  }

  lemma StatusIsRead(success: bool, answer: Bytes)
    ensures ReadReply((if success then Ascii("OK ") else Ascii("ERR ")) + answer + [NEWLINE]) == ReadAnswer(success, answer)
  {
    assert Ascii("OK ") == [79, 75, 32] && Ascii("ERR ") == [69, 82, 82, 32];
    hide ReadAnswer, Ascii;
    var status := if success then Ascii("OK ") else Ascii("ERR ");
    var line := status + answer;
    assert (line + [NEWLINE])[..|line|] == line;
    assert status <= line && line[|status|..] == answer;
    assert !success ==> line[0] == 69;
  }

  /** A client reads back from the reply what the command came to: success or failure, the code
      and the message. */
  lemma ReplyIsRead(r: Result)
    ensures ReadReply(LineReply(r)) == Some((r.success, r.code as int, r.message))
  {
    hide Decimal, ReadAnswer, ReadReply, Ascii;
    var status := if r.success then Ascii("OK ") else Ascii("ERR ");
    var message := if r.message == [] then [] else [SPACE] + r.message;
    AnswerIsRead(r.success, r.code, message);
    StatusIsRead(r.success, Decimal(r.code) + message);
    Associate(status, Decimal(r.code), message);
  }

  // ---------- trimming ----------

  /** `std::isspace` in the C locale. */
  predicate IsSpace(b: byte)
  {
    b == 32 || 9 <= b <= 13
  }

  function TrimLeft(s: Bytes): Bytes
  {
    if s != [] && IsSpace(s[0]) then TrimLeft(s[1..]) else s
  }

  function TrimRight(s: Bytes): Bytes
  {
    if s != [] && IsSpace(s[|s| - 1]) then TrimRight(s[..|s| - 1]) else s
  }

  function Trim(s: Bytes): Bytes
  {
    TrimRight(TrimLeft(s))
  }

  predicate AllSpace(s: Bytes)
  {
    forall i :: 0 <= i < |s| ==> IsSpace(s[i])
  }

  /** `t` is `s` without its outer spaces. */
  ghost predicate IsTrimOf(t: Bytes, s: Bytes)
  {
    && (exists a: Bytes, b: Bytes :: AllSpace(a) && AllSpace(b) && s == a + t + b)
    && (t != [] ==> !IsSpace(t[0]) && !IsSpace(t[|t| - 1]))
  }

  lemma {:induction false} TrimLeftCuts(s: Bytes) returns (a: Bytes)
    ensures AllSpace(a) && s == a + TrimLeft(s)
    ensures TrimLeft(s) != [] ==> !IsSpace(TrimLeft(s)[0])
  {
    if s != [] && IsSpace(s[0]) {
      a := TrimLeftCuts(s[1..]);
      a := [s[0]] + a;
    } else {
      a := [];
    }
  }

  lemma {:induction false} TrimRightCuts(s: Bytes) returns (b: Bytes)
    ensures AllSpace(b) && s == TrimRight(s) + b
    ensures TrimRight(s) != [] ==> !IsSpace(TrimRight(s)[|TrimRight(s)| - 1]) && TrimRight(s)[0] == s[0]
  {
    if s != [] && IsSpace(s[|s| - 1]) {
      b := TrimRightCuts(s[..|s| - 1]);
      b := b + [s[|s| - 1]];
    } else {
      b := [];
    }
  }

  lemma TrimIsExact(s: Bytes)
    ensures IsTrimOf(Trim(s), s)
  {
    var a := TrimLeftCuts(s);
    var b := TrimRightCuts(TrimLeft(s));
    assert s == a + Trim(s) + b;
  }
}
