/** Structured Command requests and responses: what encoding and decoding mean, the laws
    between them, and the loops that carry them out. */
module CommandProtocol {
  import opened Bytes
  import opened Wrappers
  import opened KeyOrder
  import opened CommandWire

  /** A parameter value: its native kind, and the string it converts to. */
  datatype Kind = Text | Boolean | Integer | Real

  datatype CommandValue = Null | Scalar(kind: Kind, text: Bytes)

  datatype Request = Request(
    id: nat,
    path: seq<Bytes>,
    positional: seq<CommandValue>,
    named: seq<(Bytes, CommandValue)>,
    raw: Bytes)

  /** What the source's types promise of a request: a 64-bit ID and an ordered map. */
  predicate WellTyped(r: Request)
  {
    r.id <= U64_MAX && Ordered(r.named)
  }

  // ---------- values become strings ----------

  predicate Writable(v: CommandValue)
  {
    v.Scalar? && |v.text| <= U16_MAX
  }

  function Normal(v: CommandValue): CommandValue
  {
    if v.Null? then v else Scalar(Text, v.text)
  }

  function Texts(vs: seq<CommandValue>): (r: seq<Bytes>)
    ensures |r| == |vs|
  {
    seq(|vs|, i requires 0 <= i < |vs| => if vs[i].Null? then [] else vs[i].text)
  }

  function TextPairs(ps: seq<(Bytes, CommandValue)>): (r: seq<(Bytes, Bytes)>)
    ensures |r| == |ps|
  {
    seq(|ps|, i requires 0 <= i < |ps| => (ps[i].0, if ps[i].1.Null? then [] else ps[i].1.text))
  }

  function Values(vs: seq<Bytes>): (r: seq<CommandValue>)
    ensures |r| == |vs|
  {
    seq(|vs|, i requires 0 <= i < |vs| => Scalar(Text, vs[i]))
  }

  function ValuePairs(ps: seq<(Bytes, Bytes)>): (r: seq<(Bytes, CommandValue)>)
    ensures |r| == |ps|
  {
    seq(|ps|, i requires 0 <= i < |ps| => (ps[i].0, Scalar(Text, ps[i].1)))
  }

  /** The request with every value replaced by its string form. */
  function Normalized(r: Request): Request
  {
    r.(positional := seq(|r.positional|, i requires 0 <= i < |r.positional| => Normal(r.positional[i])),
       named := seq(|r.named|, i requires 0 <= i < |r.named| => (r.named[i].0, Normal(r.named[i].1))))
  }

  function ToWire(r: Request): WireRequest
  {
    WireRequest(r.id, r.path, Texts(r.positional), TextPairs(r.named), r.raw)
  }

  function FromWire(w: WireRequest): Request
  {
    Request(w.id, w.path, Values(w.positional), EmplaceAll([], ValuePairs(w.named)), w.raw)
  }

  // ---------- encoding and decoding ----------

  predicate RequestAccepted(r: Request)
  {
    && |r.path| <= U16_MAX && |r.positional| <= U16_MAX && |r.named| <= U16_MAX
    && Short(r.path)
    && (forall i :: 0 <= i < |r.positional| ==> Writable(r.positional[i]))
    && (forall i :: 0 <= i < |r.named| ==> |r.named[i].0| <= U16_MAX && Writable(r.named[i].1))
    && |r.raw| <= U32_MAX
  }

  function EncodedRequest(r: Request): Option<Bytes>
  {
    if RequestAccepted(r) then Some(PutRequest(ToWire(r))) else None
  }

  function DecodedWire(data: Bytes): Option<WireRequest>
  {
    var (w, rest) :- GetRequest(data);
    if rest == [] && w.path != [] then Some(w) else None
  }

  function DecodedRequest(data: Bytes): Option<Request>
  {
    var w :- DecodedWire(data);
    Some(FromWire(w))
  }

  function EncodedResponse(r: Response): Option<Bytes>
  {
    if |r.message| <= U32_MAX then Some(PutResponse(r)) else None
  }

  function DecodedResponse(data: Bytes): Option<Response>
  {
    var (r, rest) :- GetResponse(data);
    if rest == [] then Some(r) else None
  }

  // ---------- round trips ----------

  lemma DecodedWireIff(data: Bytes, w: WireRequest)
    ensures DecodedWire(data) == Some(w) <==> RequestFits(w) && w.path != [] && data == PutRequest(w)
  {
    hide GetRequest, PutRequest, RequestFits;
    if GetRequest(data).Some? {
      PutGetRequest(data);
    }
    if RequestFits(w) {
      GetPutRequest(w, []);
    }
    assert PutRequest(w) + [] == PutRequest(w);
    assert DecodedWire(data) == Some(w) ==> PutRequest(w) + GetRequest(data).value.1 == PutRequest(w);
  }

  lemma WireOfNormalized(r: Request)
    requires Ordered(r.named) && RequestAccepted(r)
    ensures FromWire(ToWire(r)) == Normalized(r)
  {
    var pairs := ValuePairs(TextPairs(r.named));
    assert Normalized(r).named == pairs;
    assert Normalized(r).positional == Values(Texts(r.positional));
    assert Ordered([] + pairs);
    EmplaceInOrder([], pairs);
    assert [] + pairs == pairs;
  }

  /** Every request with a path that encoding accepts is decoded to the same request, with
      each value replaced by its string form. */
  lemma RequestRoundTrip(r: Request)
    requires WellTyped(r) && r.path != []
    requires EncodedRequest(r).Some?
    ensures DecodedRequest(EncodedRequest(r).value) == Some(Normalized(r))
  {
    DecodedWireIff(EncodedRequest(r).value, ToWire(r));
    WireOfNormalized(r);
  }

  /** Every response survives, negative codes included, and no other bytes decode to it. */
  lemma ResponseRoundTrip(r: Response, data: Bytes)
    requires r.id <= U64_MAX
    ensures EncodedResponse(r) == Some(data) <==> DecodedResponse(data) == Some(r)
  {
    hide GetResponse, PutResponse;
    if ResponseFits(r) {
      GetPutResponse(r, []);
      assert PutResponse(r) + [] == PutResponse(r);
    }
    if GetResponse(data).Some? {
      PutGetResponse(data);
      var (q, rest) := GetResponse(data).value;
      assert rest == [] ==> PutResponse(q) + rest == PutResponse(q);
    }
  }

  // ---------- canonical re-encoding ----------

  lemma TextsOfValues(w: WireRequest)
    ensures Texts(Values(w.positional)) == w.positional
    ensures TextPairs(ValuePairs(w.named)) == w.named
    ensures Ordered(w.named) <==> Ordered(ValuePairs(w.named))
  {
    if Ordered(ValuePairs(w.named)) {
      forall i, j | 0 <= i < j < |w.named| ensures Less(w.named[i].0, w.named[j].0) {
        assert Less(ValuePairs(w.named)[i].0, ValuePairs(w.named)[j].0);
      }
    }
  }

  lemma {:induction false} EmplaceAllAddsNothingElse<V>(m: seq<(Bytes, V)>, pairs: seq<(Bytes, V)>)
    ensures forall p :: p in EmplaceAll(m, pairs) ==> p in m || p in pairs
    decreases |pairs|
  {
    if pairs != [] {
      EmplaceAddsNothingElse(m, pairs[0].0, pairs[0].1);
      EmplaceAllAddsNothingElse(Emplace(m, pairs[0].0, pairs[0].1), pairs[1..]);
    }
  }

  lemma {:induction false} EmplaceAllIsNoLonger<V>(m: seq<(Bytes, V)>, pairs: seq<(Bytes, V)>)
    ensures |EmplaceAll(m, pairs)| <= |m| + |pairs|
    decreases |pairs|
  {
    if pairs != [] {
      EmplaceGrowsByOne(m, pairs[0].0, pairs[0].1);
      EmplaceAllIsNoLonger(Emplace(m, pairs[0].0, pairs[0].1), pairs[1..]);
    }
  }

  lemma {:induction false} EmplaceGrowsByOne<V>(m: seq<(Bytes, V)>, key: Bytes, value: V)
    ensures |Emplace(m, key, value)| <= |m| + 1
  {
    if m != [] {
      EmplaceGrowsByOne(m[1..], key, value);
    }
  }

  /** Whatever is decoded can be encoded again. */
  lemma DecodedIsAccepted(w: WireRequest)
    requires RequestFits(w)
    ensures RequestAccepted(FromWire(w))
  {
    var pairs := ValuePairs(w.named);
    EmplaceAllAddsNothingElse([], pairs);
    EmplaceAllIsNoLonger([], pairs);
    var named := EmplaceAll([], pairs);
    forall i | 0 <= i < |named|
      ensures |named[i].0| <= U16_MAX && Writable(named[i].1)
    {
      assert named[i] in named;
    }
  }

  /** Decoding and encoding again gives back the very bytes exactly when the named keys are
      strictly increasing on the wire; duplicates and disorder are what is not preserved. */
  lemma CanonicalReencoding(data: Bytes)
    requires DecodedWire(data).Some?
    ensures DecodedRequest(data).Some?
    ensures EncodedRequest(DecodedRequest(data).value) == Some(data) <==> Ordered(DecodedWire(data).value.named)
  {
    hide GetRequest, PutRequest, RequestAccepted, RequestFits, FromWire, ToWire, Ordered;
    var w := DecodedWire(data).value;
    var r := FromWire(w);
    DecodedWireIff(data, w);
    DecodedIsAccepted(w);
    RewrittenWire(w);
    DecodedWireIff(data, ToWire(r));
  }

  /** Decoding leaves the wire form as it was exactly when its keys come in order. */
  lemma RewrittenWire(w: WireRequest)
    ensures ToWire(FromWire(w)) == w <==> Ordered(w.named)
    ensures RequestFits(w) ==> RequestFits(ToWire(FromWire(w)))
    ensures ToWire(FromWire(w)).path == w.path
  {
    TextsOfValues(w);
    RewrittenNames(w.named);
    if RequestFits(w) {
      DecodedIsAccepted(w);
      AcceptedFits(FromWire(w));
    }
  }

  lemma AcceptedFits(r: Request)
    requires RequestAccepted(r) && r.id <= U64_MAX
    ensures RequestFits(ToWire(r))
  {
  }

  lemma RewrittenNames(named: seq<(Bytes, Bytes)>)
    ensures TextPairs(EmplaceAll([], ValuePairs(named))) == named <==> Ordered(named)
  {
    var pairs := ValuePairs(named);
    var stored := EmplaceAll([], pairs);
    assert [] + pairs == pairs;
    EmplaceAllKeepsOrder([], pairs);
    if Ordered(named) {
      EmplaceInOrder([], pairs);
      assert TextPairs(pairs) == named;
    } else if TextPairs(stored) == named {
      forall i, j | 0 <= i < j < |named| ensures Less(named[i].0, named[j].0) {
        assert Less(stored[i].0, stored[j].0);
      }
      assert false;
    }
  }

  /** What a decoded named map answers: the first pair on the wire with the key. */
  lemma DecodedNamedLookup(data: Bytes, key: Bytes)
    requires DecodedWire(data).Some?
    ensures Ordered(DecodedRequest(data).value.named)
    ensures Lookup(DecodedRequest(data).value.named, key) == Lookup(ValuePairs(DecodedWire(data).value.named), key)
  {
    var pairs := ValuePairs(DecodedWire(data).value.named);
    EmplaceAllKeepsOrder([], pairs);
    FirstPairWins([], pairs, key);
  }

  // ---------- prefix-freeness ----------

  /** No proper extension of an accepted message is accepted; read the other way round, no
      proper prefix of an accepted message is. */
  lemma PrefixFree(data: Bytes, more: Bytes)
    requires more != []
    ensures !(DecodedRequest(data).Some? && DecodedRequest(data + more).Some?)
    ensures !(DecodedResponse(data).Some? && DecodedResponse(data + more).Some?)
  {
    if DecodedRequest(data).Some? {
      var w := DecodedWire(data).value;
      DecodedWireIff(data, w);
      GetPutRequest(w, more);
    }
    if DecodedResponse(data).Some? {
      var r := DecodedResponse(data).value;
      PutGetResponse(data);
      assert PutResponse(r) + [] == PutResponse(r);
      GetPutResponse(r, more);
    }
  }

  // ---------- the reader ----------

  /** The cursor over received bytes; `Valid` says it never passes the end. */
  class Reader {
    const data: Bytes
    var offset: nat

    predicate Valid()
      reads this
    {
      offset <= |data|
    }

    function Rest(): Bytes
      requires Valid()
      reads this
    {
      data[offset..]
    }

    constructor (data: Bytes)
      ensures Valid() && this.data == data && Rest() == data && fresh(this)
    {
      this.data, offset := data, 0;
    }

    /** `U8`, `U16`, `U32` and `U64` for widths 1, 2, 4 and 8. */
    method Unsigned(width: nat) returns (ok: bool, value: nat)
      requires Valid()
      modifies this
      ensures Valid()
      ensures match GetInt(width, old(Rest()))
              case None => !ok && offset == old(offset)
              case Some(got) => ok && value == got.0 && value < Pow256(width) && Rest() == got.1
    {
      if GetInt(width, Rest()).Some? {
        PutGetInt(width, Rest());
      }
      value := 0;
      if width > |data| - offset {
        return false, value;
      }
      var i := 0;
      while i < width
        invariant 0 <= i <= width
        invariant value == FromBigEndian(Rest()[..i])
      {
        assert Rest()[..i + 1][..i] == Rest()[..i];
        value := value * 256 + data[offset + i];
        i := i + 1;
      }
      offset := offset + width;
      return true, value;
    }

    /** `String16` and `String32` for widths 2 and 4. */
    method String(width: nat) returns (ok: bool, value: Bytes)
      requires Valid()
      modifies this
      ensures Valid()
      ensures match GetString(width, old(Rest()))
              case None => !ok
              case Some(got) => ok && value == got.0 && Rest() == got.1
    {
      var known, length := Unsigned(width);
      if !known || length > |data| - offset {
        return false, [];
      }
      value := data[offset..offset + length];
      offset := offset + length;
      return true, value;
    }

    method Strings(count: nat) returns (ok: bool, values: seq<Bytes>)
      requires Valid()
      modifies this
      ensures Valid()
      ensures match GetStrings(count, old(Rest()))
              case None => !ok
              case Some(got) => ok && values == got.0 && Rest() == got.1
    {
      hide GetStrings, GetString, StringsContinue;
      values := [];
      var i := 0;
      StringsStart(count, Rest());
      while i < count
        invariant 0 <= i <= count && Valid()
        invariant StringsContinue(count, old(Rest()), values, count - i, Rest())
      {
        StringsStep(count, old(Rest()), values, count - i, Rest());
        var read, value := String(2);
        if !read {
          return false, values;
        }
        values := values + [value];
        i := i + 1;
      }
      StringsStep(count, old(Rest()), values, 0, Rest());
      return true, values;
    }

    method Pair() returns (ok: bool, key: Bytes, value: Bytes)
      requires Valid()
      modifies this
      ensures Valid()
      ensures match GetPair(old(Rest()))
              case None => !ok
              case Some(got) => ok && (key, value) == got.0 && Rest() == got.1
    {
      hide GetString;
      value := [];
      ok, key := String(2);
      if ok {
        ok, value := String(2);
      }
    }

    /** Keys and values straight into the ordered map. */
    method Pairs(count: nat) returns (ok: bool, named: seq<(Bytes, CommandValue)>)
      requires Valid()
      modifies this
      ensures Valid()
      ensures match GetPairs(count, old(Rest()))
              case None => !ok
              case Some(got) => ok && named == EmplaceAll([], ValuePairs(got.0)) && Rest() == got.1
    {
      hide GetPairs, GetPair, EmplaceAll, Emplace, PairsContinue, ValuePairs;
      named := [];
      var i := 0;
      ghost var pairs: seq<(Bytes, Bytes)> := [];
      PairsStart(count, Rest());
      while i < count
        invariant 0 <= i <= count && Valid()
        invariant PairsContinue(count, old(Rest()), named, pairs, count - i, Rest())
      {
        PairsStep(count, old(Rest()), named, pairs, count - i, Rest());
        var read, key, value := Pair();
        if !read {
          return false, named;
        }
        named := Emplace(named, key, Scalar(Text, value));
        pairs := pairs + [(key, value)];
        i := i + 1;
      }
      PairsStep(count, old(Rest()), named, pairs, 0, Rest());
      return true, named;
    }

    method Preamble(magic: nat) returns (ok: bool, id: nat)
      requires Valid()
      modifies this
      ensures Valid()
      ensures match GetPreamble(magic, old(Rest()))
              case None => !ok
              case Some(got) => ok && id == got.0 && Rest() == got.1
    {
      hide GetInt;
      var read, found, version;
      read, found := Unsigned(4);
      if !read || found != magic {
        return false, 0;
      }
      read, version := Unsigned(1);
      if !read || version != VERSION {
        return false, 0;
      }
      ok, id := Unsigned(8);
    }

    method List() returns (ok: bool, values: seq<Bytes>)
      requires Valid()
      modifies this
      ensures Valid()
      ensures match GetList(old(Rest()))
              case None => !ok
              case Some(got) => ok && values == got.0 && Rest() == got.1
    {
      hide GetInt, GetStrings;
      var read, count := Unsigned(2);
      if !read {
        return false, [];
      }
      ok, values := Strings(count);
    }

    method PairList() returns (ok: bool, named: seq<(Bytes, CommandValue)>)
      requires Valid()
      modifies this
      ensures Valid()
      ensures match GetPairList(old(Rest()))
              case None => !ok
              case Some(got) => ok && named == EmplaceAll([], ValuePairs(got.0)) && Rest() == got.1
    {
      hide GetInt, GetPairs, EmplaceAll;
      var read, count := Unsigned(2);
      if !read {
        return false, [];
      }
      ok, named := Pairs(count);
    }
  }

  /** Having read `values`, reading `left` more from `s` completes a list of `count`. */
  predicate StringsContinue(count: nat, s0: Bytes, values: seq<Bytes>, left: nat, s: Bytes)
  {
    match GetStrings(left, s)
    case None => GetStrings(count, s0).None?
    case Some(got) => GetStrings(count, s0) == Some((values + got.0, got.1))
  }

  lemma StringsStart(count: nat, s0: Bytes)
    ensures StringsContinue(count, s0, [], count, s0)
  {
    if GetStrings(count, s0).Some? {
      assert [] + GetStrings(count, s0).value.0 == GetStrings(count, s0).value.0;
    }
  }

  lemma StringsStep(count: nat, s0: Bytes, values: seq<Bytes>, left: nat, s: Bytes)
    requires StringsContinue(count, s0, values, left, s)
    ensures left == 0 ==> GetStrings(count, s0) == Some((values, s))
    ensures left > 0 ==> match GetString(2, s)
                         case None => GetStrings(count, s0).None?
                         case Some(got) => StringsContinue(count, s0, values + [got.0], left - 1, got.1)
  {
    hide GetString;
    assert values + [] == values;
    if left > 0 && GetStrings(left, s).Some? {
      var (v, r) := GetString(2, s).value;
      var (vs, _) := GetStrings(left - 1, r).value;
      assert values + ([v] + vs) == (values + [v]) + vs;
    }
  }

  function GetPair(s: Bytes): Option<((Bytes, Bytes), Bytes)>
  {
    match GetString(2, s)
    case None => None
    case Some(key) =>
      match GetString(2, key.1)
      case None => None
      case Some(value) => Some(((key.0, value.0), value.1))
  }

  /** Likewise for pairs, which go into the ordered map `named` as they are read. */
  predicate PairsContinue(count: nat, s0: Bytes, named: seq<(Bytes, CommandValue)>, pairs: seq<(Bytes, Bytes)>, left: nat, s: Bytes)
  {
    && named == EmplaceAll([], ValuePairs(pairs))
    && match GetPairs(left, s)
       case None => GetPairs(count, s0).None?
       case Some(got) => GetPairs(count, s0) == Some((pairs + got.0, got.1))
  }

  lemma PairsStart(count: nat, s0: Bytes)
    ensures PairsContinue(count, s0, [], [], count, s0)
  {
    hide EmplaceAll, ValuePairs, GetPairs;
    NoPairs();
    if GetPairs(count, s0).Some? {
      assert [] + GetPairs(count, s0).value.0 == GetPairs(count, s0).value.0;
    }
  }

  lemma NoPairs()
    ensures EmplaceAll([], ValuePairs([])) == []
  {
  }

  lemma PairsStep(count: nat, s0: Bytes, named: seq<(Bytes, CommandValue)>, pairs: seq<(Bytes, Bytes)>, left: nat, s: Bytes)
    requires PairsContinue(count, s0, named, pairs, left, s)
    ensures left == 0 ==> GetPairs(count, s0) == Some((pairs, s)) && named == EmplaceAll([], ValuePairs(pairs))
    ensures left > 0 ==> match GetPair(s)
                         case None => GetPairs(count, s0).None?
                         case Some(got) =>
                           PairsContinue(count, s0, Emplace(named, got.0.0, Scalar(Text, got.0.1)), pairs + [got.0], left - 1, got.1)
  {
    hide GetString, Emplace, EmplaceAll, ValuePairs;
    assert pairs + [] == pairs;
    if left > 0 && GetPair(s).Some? {
      var (pair, r) := GetPair(s).value;
      OnePairMore(pairs, pair.0, pair.1);
      if GetPairs(left, s).Some? {
        var (ps, _) := GetPairs(left - 1, r).value;
        assert pairs + ([pair] + ps) == (pairs + [pair]) + ps;
      }
    }
  }

  lemma {:induction false} EmplaceAllSnoc<V>(m: seq<(Bytes, V)>, pairs: seq<(Bytes, V)>, key: Bytes, value: V)
    ensures EmplaceAll(m, pairs + [(key, value)]) == Emplace(EmplaceAll(m, pairs), key, value)
    decreases |pairs|
  {
    if pairs != [] {
      assert (pairs + [(key, value)])[1..] == pairs[1..] + [(key, value)];
      EmplaceAllSnoc(Emplace(m, pairs[0].0, pairs[0].1), pairs[1..], key, value);
    }
  }

  lemma OnePairMore(pairs: seq<(Bytes, Bytes)>, key: Bytes, value: Bytes)
    ensures EmplaceAll([], ValuePairs(pairs + [(key, value)]))
         == Emplace(EmplaceAll([], ValuePairs(pairs)), key, Scalar(Text, value))
  {
    EmplaceAllSnoc([], ValuePairs(pairs), key, Scalar(Text, value));
    assert ValuePairs(pairs + [(key, value)]) == ValuePairs(pairs) + [(key, Scalar(Text, value))];
  }

  method DecodeRequest(data: Bytes) returns (ok: bool, request: Request)
    ensures DecodedRequest(data) == if ok then Some(request) else None
  {
    hide GetPreamble, GetList, GetPairList, GetString, EmplaceAll, Values, ValuePairs;
    request := Request(0, [], [], [], []);
    var reader := new Reader(data);
    var read, id, path, positional, named, raw;
    read, id := reader.Preamble(REQUEST_MAGIC);
    if !read {
      return false, request;
    }
    read, path := reader.List();
    if !read {
      return false, request;
    }
    read, positional := reader.List();
    if !read {
      return false, request;
    }
    read, named := reader.PairList();
    if !read {
      return false, request;
    }
    read, raw := reader.String(4);
    if !read {
      return false, request;
    }
    request := Request(id, path, Values(positional), named, raw);
    assert reader.Rest() == [] <==> reader.offset == |data|;
    return reader.offset == |data| && path != [], request;
  }

  method DecodeResponse(data: Bytes) returns (ok: bool, response: Response)
    ensures DecodedResponse(data) == if ok then Some(response) else None
  {
    hide GetPreamble, GetString, GetInt;
    Pow256Values();
    response := Response(0, false, 0, []);
    var reader := new Reader(data);
    var read, id, success, code, message;
    read, id := reader.Preamble(RESPONSE_MAGIC);
    if !read {
      return false, response;
    }
    read, success := reader.Unsigned(1);
    if !read || success > 1 {
      return false, response;
    }
    read, code := reader.Unsigned(4);
    if !read {
      return false, response;
    }
    read, message := reader.String(4);
    assert read && reader.Rest() == [] <==> read && reader.offset == |data|;
    if !read || reader.offset != |data| {
      return false, response;
    }
    return true, Response(id, success != 0, ToSigned(code), message);
  }

  // ---------- the appenders ----------

  /** `AppendU8`, `AppendU16`, `AppendU32` and `AppendU64`: bytes from the highest shift down. */
  method AppendUnsigned(out: Bytes, width: nat, value: nat) returns (r: Bytes)
    ensures r == out + BigEndian(width, value)
  {
    r := out;
    var i := 0;
    while i < width
      invariant 0 <= i <= width
      invariant r == out + BigEndian(i, ShiftRight(value, width - i))
    {
      ShiftOneMore(value, width - 1 - i);
      r := r + [ShiftRight(value, width - 1 - i) % 256];
      i := i + 1;
    }
  }

  method AppendString(out: Bytes, width: nat, value: Bytes) returns (ok: bool, r: Bytes)
    ensures ok <==> |value| < Pow256(width)
    ensures ok ==> r == out + PutString(width, value)
  {
    if |value| >= Pow256(width) {
      return false, out;
    }
    r := AppendUnsigned(out, width, |value|);
    return true, r + value;
  }

  method AppendCommandValue(out: Bytes, value: CommandValue) returns (ok: bool, r: Bytes)
    ensures ok <==> Writable(value)
    ensures ok ==> r == out + PutString(2, value.text)
  {
    Pow256Values();
    if value.Null? {
      return false, out;
    }
    ok, r := AppendString(out, 2, value.text);
  }

  lemma {:induction false} PutStringsSnoc(vs: seq<Bytes>, v: Bytes)
    ensures PutStrings(vs + [v]) == PutStrings(vs) + PutString(2, v)
  {
    hide PutString;
    if vs != [] {
      assert (vs + [v])[1..] == vs[1..] + [v];
      PutStringsSnoc(vs[1..], v);
    }
  }

  lemma {:induction false} PutPairsSnoc(ps: seq<(Bytes, Bytes)>, k: Bytes, v: Bytes)
    ensures PutPairs(ps + [(k, v)]) == PutPairs(ps) + (PutString(2, k) + PutString(2, v))
  {
    hide PutString, PutPairs;
    if ps == [] {
      PutOnePair(k, v);
      assert ps + [(k, v)] == [(k, v)];
    } else {
      var later := ps[1..] + [(k, v)];
      assert ps + [(k, v)] == [(ps[0].0, ps[0].1)] + later && ps == [(ps[0].0, ps[0].1)] + ps[1..];
      PutPairsSnoc(ps[1..], k, v);
      PutPairsCons(ps[0].0, ps[0].1, later, []);
      PutPairsCons(ps[0].0, ps[0].1, ps[1..], []);
      assert forall x: Bytes :: x + [] == x;
    }
  }

  lemma PutOnePair(k: Bytes, v: Bytes)
    ensures PutPairs([(k, v)]) == PutString(2, k) + PutString(2, v) && PutPairs([]) == []
  {
    hide PutString;
    assert PutPairs([(k, v)][1..]) == [];
  }

  lemma NothingPut()
    ensures PutStrings([]) == [] && PutPairs([]) == []
  {
  }

  method AppendPath(out: Bytes, path: seq<Bytes>) returns (ok: bool, r: Bytes)
    requires |path| <= U16_MAX
    ensures ok <==> Short(path)
    ensures ok ==> r == out + PutList(path)
  {
    Pow256Values();
    hide PutString, BigEndian, Pow256;
    r := AppendUnsigned(out, 2, |path|);
    NothingPut();
    for i := 0 to |path|
      invariant Short(path[..i])
      invariant r == out + (BigEndian(2, |path|) + PutStrings(path[..i]))
    {
      var appended;
      PutStringsSnoc(path[..i], path[i]);
      assert path[..i + 1] == path[..i] + [path[i]];
      appended, r := AppendString(r, 2, path[i]);
      if !appended {
        return false, r;
      }
    }
    assert path[..|path|] == path;
    return true, r;
  }

  method AppendPositional(out: Bytes, values: seq<CommandValue>) returns (ok: bool, r: Bytes)
    requires |values| <= U16_MAX
    ensures ok <==> forall i :: 0 <= i < |values| ==> Writable(values[i])
    ensures ok ==> r == out + PutList(Texts(values))
  {
    ghost var texts := Texts(values);
    hide PutString, BigEndian, Pow256;
    NothingPut();
    r := AppendUnsigned(out, 2, |values|);
    for i := 0 to |values|
      invariant forall j :: 0 <= j < i ==> Writable(values[j])
      invariant r == out + (BigEndian(2, |values|) + PutStrings(texts[..i]))
    {
      var appended;
      PutStringsSnoc(texts[..i], texts[i]);
      assert texts[..i + 1] == texts[..i] + [texts[i]];
      appended, r := AppendCommandValue(r, values[i]);
      if !appended {
        return false, r;
      }
    }
    assert texts[..|values|] == texts;
    return true, r;
  }

  method AppendNamed(out: Bytes, named: seq<(Bytes, CommandValue)>) returns (ok: bool, r: Bytes)
    requires |named| <= U16_MAX
    ensures ok <==> forall i :: 0 <= i < |named| ==> |named[i].0| <= U16_MAX && Writable(named[i].1)
    ensures ok ==> r == out + PutPairList(TextPairs(named))
  {
    Pow256Values();
    ghost var texts := TextPairs(named);
    hide PutString, BigEndian, Pow256, PutPairs;
    NothingPut();
    r := AppendUnsigned(out, 2, |named|);
    for i := 0 to |named|
      invariant forall j :: 0 <= j < i ==> |named[j].0| <= U16_MAX && Writable(named[j].1)
      invariant r == out + (BigEndian(2, |named|) + PutPairs(texts[..i]))
    {
      var appended;
      PutPairsSnoc(texts[..i], texts[i].0, texts[i].1);
      assert texts[..i + 1] == texts[..i] + [texts[i]];
      appended, r := AppendString(r, 2, named[i].0);
      if !appended {
        return false, r;
      }
      appended, r := AppendCommandValue(r, named[i].1);
      if !appended {
        return false, r;
      }
    }
    assert texts[..|named|] == texts;
    return true, r;
  }

  method AppendPreamble(magic: nat, id: nat) returns (out: Bytes)
    ensures out == PutPreamble(magic, id)
  {
    out := AppendUnsigned([], 4, magic);
    out := AppendUnsigned(out, 1, VERSION);
    out := AppendUnsigned(out, 8, id);
  }

  method EncodeRequest(request: Request) returns (ok: bool, out: Bytes)
    ensures EncodedRequest(request) == if ok then Some(out) else None
  {
    Pow256Values();
    hide PutPreamble, PutList, PutPairList, PutString, Pow256, Short, Texts, TextPairs;
    out := AppendPreamble(REQUEST_MAGIC, request.id);
    if |request.path| > U16_MAX || |request.positional| > U16_MAX || |request.named| > U16_MAX {
      return false, out;
    }
    ok, out := AppendPath(out, request.path);
    if !ok {
      return false, out;
    }
    ok, out := AppendPositional(out, request.positional);
    if !ok {
      return false, out;
    }
    ok, out := AppendNamed(out, request.named);
    if !ok {
      return false, out;
    }
    ok, out := AppendString(out, 4, request.raw);
  }

  method EncodeResponse(response: Response) returns (ok: bool, out: Bytes)
    ensures EncodedResponse(response) == if ok then Some(out) else None
  {
    Pow256Values();
    hide PutPreamble, PutString, Pow256, BigEndian;
    out := AppendPreamble(RESPONSE_MAGIC, response.id);
    out := AppendUnsigned(out, 1, if response.success then 1 else 0);
    out := AppendUnsigned(out, 4, ToUnsigned(response.code));
    ok, out := AppendString(out, 4, response.message);
  }
}
