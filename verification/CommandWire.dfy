/** The structured Command messages as printer and parser: a `Put` function writes a value,
    the `Get` function of the same name reads it from the front of a byte string. */
module CommandWire {
  import opened Bytes
  import opened Wrappers

  const REQUEST_MAGIC: nat := 0x45534351
  const RESPONSE_MAGIC: nat := 0x45534352
  const VERSION: nat := 1

  // ---------- integers ----------

  function GetInt(width: nat, s: Bytes): Option<(nat, Bytes)>
  {
    if |s| < width then None else Some((FromBigEndian(s[..width]), s[width..]))
  }

  lemma GetPutInt(width: nat, v: nat, t: Bytes)
    requires v < Pow256(width)
    ensures GetInt(width, BigEndian(width, v) + t) == Some((v, t))
  {
    BigEndianRoundTrip(width, v);
    assert (BigEndian(width, v) + t)[..width] == BigEndian(width, v);
  }

  lemma PutGetInt(width: nat, s: Bytes)
    requires GetInt(width, s).Some?
    ensures var (v, t) := GetInt(width, s).value; v < Pow256(width) && s == BigEndian(width, v) + t
  {
    FromBigEndianRoundTrip(s[..width]);
  }

  // ---------- length-prefixed strings ----------

  function PutString(width: nat, v: Bytes): Bytes
  {
    BigEndian(width, |v|) + v
  }

  function GetString(width: nat, s: Bytes): Option<(Bytes, Bytes)>
  {
    var (n, r) :- GetInt(width, s);
    if |r| < n then None else Some((r[..n], r[n..]))
  }

  lemma GetPutString(width: nat, v: Bytes, t: Bytes)
    requires |v| < Pow256(width)
    ensures GetString(width, PutString(width, v) + t) == Some((v, t))
  {
    GetPutInt(width, |v|, v + t);
    assert PutString(width, v) + t == BigEndian(width, |v|) + (v + t);
  }

  lemma PutGetString(width: nat, s: Bytes)
    requires GetString(width, s).Some?
    ensures var (v, t) := GetString(width, s).value; |v| < Pow256(width) && s == PutString(width, v) + t
  {
    PutGetInt(width, s);
    var (n, r) := GetInt(width, s).value;
    assert r == r[..n] + r[n..];
  }

  // ---------- lists of short strings ----------

  function PutStrings(vs: seq<Bytes>): Bytes
  {
    if vs == [] then [] else PutString(2, vs[0]) + PutStrings(vs[1..])
  }

  function GetStrings(n: nat, s: Bytes): Option<(seq<Bytes>, Bytes)>
  {
    if n == 0 then Some(([], s)) else
      var (v, r) :- GetString(2, s);
      var (vs, t) :- GetStrings(n - 1, r);
      Some(([v] + vs, t))
  }

  predicate Short(vs: seq<Bytes>)
  {
    forall i :: 0 <= i < |vs| ==> |vs[i]| <= U16_MAX
  }

  lemma GetPutOneMore(v: Bytes, vs: seq<Bytes>, t: Bytes)
    requires |v| <= U16_MAX && GetStrings(|vs|, PutStrings(vs) + t) == Some((vs, t))
    ensures GetStrings(|vs| + 1, PutString(2, v) + PutStrings(vs) + t) == Some(([v] + vs, t))
  {
    Pow256Values();
    hide GetString, PutString, PutStrings, BigEndian, Pow256;
    GetPutString(2, v, PutStrings(vs) + t);
    assert PutString(2, v) + PutStrings(vs) + t == PutString(2, v) + (PutStrings(vs) + t);
  }

  lemma {:induction false} GetPutStrings(vs: seq<Bytes>, t: Bytes)
    requires Short(vs)
    ensures GetStrings(|vs|, PutStrings(vs) + t) == Some((vs, t))
  {
    hide GetStrings, PutString;
    if vs == [] {
      NoStrings(t);
    } else {
      GetPutStrings(vs[1..], t);
      GetPutOneMore(vs[0], vs[1..], t);
      assert vs == [vs[0]] + vs[1..];
    }
  }

  lemma NoStrings(t: Bytes)
    ensures GetStrings(0, PutStrings([]) + t) == Some(([], t))
    ensures GetPairs(0, PutPairs([]) + t) == Some(([], t))
  {
    assert [] + t == t;
  }

  lemma {:induction false} PutGetStrings(n: nat, s: Bytes)
    requires GetStrings(n, s).Some?
    ensures var (vs, t) := GetStrings(n, s).value; |vs| == n && Short(vs) && s == PutStrings(vs) + t
  {
    if n == 0 {
      assert s == [] + s;
    } else {
      Pow256Values();
      hide GetString, PutString, BigEndian, Pow256;
      PutGetString(2, s);
      var (v, r) := GetString(2, s).value;
      PutGetStrings(n - 1, r);
      var (vs, t) := GetStrings(n - 1, r).value;
      assert ([v] + vs)[1..] == vs;
      Associate(PutString(2, v), PutStrings(vs), t);
    }
  }

  // ---------- lists of key and value ----------

  function PutPairs(ps: seq<(Bytes, Bytes)>): Bytes
  {
    if ps == [] then [] else PutString(2, ps[0].0) + (PutString(2, ps[0].1) + PutPairs(ps[1..]))
  }

  function GetPairs(n: nat, s: Bytes): Option<(seq<(Bytes, Bytes)>, Bytes)>
  {
    if n == 0 then Some(([], s)) else
      var (k, r) :- GetString(2, s);
      var (v, r') :- GetString(2, r);
      var (ps, t) :- GetPairs(n - 1, r');
      Some(([(k, v)] + ps, t))
  }

  predicate ShortPairs(ps: seq<(Bytes, Bytes)>)
  {
    forall i :: 0 <= i < |ps| ==> |ps[i].0| <= U16_MAX && |ps[i].1| <= U16_MAX
  }

  lemma GetPutOneMorePair(k: Bytes, v: Bytes, ps: seq<(Bytes, Bytes)>, t: Bytes)
    requires |k| <= U16_MAX && |v| <= U16_MAX && GetPairs(|ps|, PutPairs(ps) + t) == Some((ps, t))
    ensures GetPairs(|ps| + 1, PutString(2, k) + (PutString(2, v) + PutPairs(ps)) + t) == Some(([(k, v)] + ps, t))
  {
    Pow256Values();
    hide GetString, PutString, PutPairs, BigEndian, Pow256;
    var later := PutString(2, v) + (PutPairs(ps) + t);
    GetPutString(2, k, later);
    GetPutString(2, v, PutPairs(ps) + t);
    assert PutString(2, k) + (PutString(2, v) + PutPairs(ps)) + t == PutString(2, k) + later;
  }

  lemma {:induction false} GetPutPairs(ps: seq<(Bytes, Bytes)>, t: Bytes)
    requires ShortPairs(ps)
    ensures GetPairs(|ps|, PutPairs(ps) + t) == Some((ps, t))
  {
    hide GetPairs, PutString;
    if ps == [] {
      NoStrings(t);
    } else {
      GetPutPairs(ps[1..], t);
      GetPutOneMorePair(ps[0].0, ps[0].1, ps[1..], t);
      assert ps == [(ps[0].0, ps[0].1)] + ps[1..];
    }
  }

  lemma PutPairsCons(k: Bytes, v: Bytes, ps: seq<(Bytes, Bytes)>, t: Bytes)
    ensures PutPairs([(k, v)] + ps) + t == PutString(2, k) + (PutString(2, v) + (PutPairs(ps) + t))
  {
    hide PutString;
    assert ([(k, v)] + ps)[1..] == ps;
  }

  lemma {:induction false} PutGetPairs(n: nat, s: Bytes)
    requires GetPairs(n, s).Some?
    ensures var (ps, t) := GetPairs(n, s).value; |ps| == n && ShortPairs(ps) && s == PutPairs(ps) + t
  {
    hide GetPairs, GetString, PutString, PutPairs, ShortPairs;
    if n == 0 {
      PutGetNoPairs(s);
    } else {
      PutGetOneMorePair(n, s);
      PutGetPairs(n - 1, GetString(2, GetString(2, s).value.1).value.1);
    }
  }

  lemma PutGetNoPairs(s: Bytes)
    ensures GetPairs(0, s) == Some(([], s)) && ShortPairs([]) && s == PutPairs([]) + s
  {
    assert s == [] + s;
  }

  lemma PutGetOneMorePair(n: nat, s: Bytes)
    requires n > 0 && GetPairs(n, s).Some?
    ensures GetString(2, s).Some? && GetString(2, GetString(2, s).value.1).Some?
    ensures var (k, r) := GetString(2, s).value;
            var (v, r') := GetString(2, r).value;
            && |k| <= U16_MAX && |v| <= U16_MAX && GetPairs(n - 1, r').Some?
            && var (ps, t) := GetPairs(n - 1, r').value;
               && GetPairs(n, s).value == ([(k, v)] + ps, t)
               && (ShortPairs(ps) ==> ShortPairs([(k, v)] + ps))
               && (r' == PutPairs(ps) + t ==> s == PutPairs([(k, v)] + ps) + t)
  {
    Pow256Values();
    hide GetString, PutString, PutPairs, BigEndian, Pow256;
    PutGetString(2, s);
    var (k, r) := GetString(2, s).value;
    PutGetString(2, r);
    var (v, r') := GetString(2, r).value;
    var (ps, t) := GetPairs(n - 1, r').value;
    PutPairsCons(k, v, ps, t);
  }

  // ---------- counted lists ----------

  function PutList(vs: seq<Bytes>): Bytes
  {
    BigEndian(2, |vs|) + PutStrings(vs)
  }

  function GetList(s: Bytes): Option<(seq<Bytes>, Bytes)>
  {
    var (n, r) :- GetInt(2, s);
    GetStrings(n, r)
  }

  function PutPairList(ps: seq<(Bytes, Bytes)>): Bytes
  {
    BigEndian(2, |ps|) + PutPairs(ps)
  }

  function GetPairList(s: Bytes): Option<(seq<(Bytes, Bytes)>, Bytes)>
  {
    var (n, r) :- GetInt(2, s);
    GetPairs(n, r)
  }

  lemma GetPutLists(vs: seq<Bytes>, ps: seq<(Bytes, Bytes)>, t: Bytes)
    requires |vs| <= U16_MAX && Short(vs) && |ps| <= U16_MAX && ShortPairs(ps)
    ensures GetList(PutList(vs) + t) == Some((vs, t))
    ensures GetPairList(PutPairList(ps) + t) == Some((ps, t))
  {
    Pow256Values();
    GetPutInt(2, |vs|, PutStrings(vs) + t);
    GetPutStrings(vs, t);
    assert PutList(vs) + t == BigEndian(2, |vs|) + (PutStrings(vs) + t);
    GetPutInt(2, |ps|, PutPairs(ps) + t);
    GetPutPairs(ps, t);
    assert PutPairList(ps) + t == BigEndian(2, |ps|) + (PutPairs(ps) + t);
  }

  lemma PutGetList(s: Bytes)
    requires GetList(s).Some?
    ensures var (vs, t) := GetList(s).value; |vs| <= U16_MAX && Short(vs) && s == PutList(vs) + t
  {
    Pow256Values();
    hide GetStrings, PutStrings, BigEndian, Pow256;
    PutGetInt(2, s);
    var (n, r) := GetInt(2, s).value;
    PutGetStrings(n, r);
    var (vs, t) := GetStrings(n, r).value;
    assert BigEndian(2, n) + (PutStrings(vs) + t) == PutList(vs) + t;
  }

  lemma PutGetPairList(s: Bytes)
    requires GetPairList(s).Some?
    ensures var (ps, t) := GetPairList(s).value; |ps| <= U16_MAX && ShortPairs(ps) && s == PutPairList(ps) + t
  {
    Pow256Values();
    hide GetPairs, PutPairs, BigEndian, Pow256;
    PutGetInt(2, s);
    var (n, r) := GetInt(2, s).value;
    PutGetPairs(n, r);
    var (ps, t) := GetPairs(n, r).value;
    assert BigEndian(2, n) + (PutPairs(ps) + t) == PutPairList(ps) + t;
  }

  // ---------- requests ----------

  /** A request as it is on the wire: values are strings, named pairs come in any order. */
  datatype WireRequest = WireRequest(
    id: nat,
    path: seq<Bytes>,
    positional: seq<Bytes>,
    named: seq<(Bytes, Bytes)>,
    raw: Bytes)

  predicate RequestFits(w: WireRequest)
  {
    && w.id <= U64_MAX
    && |w.path| <= U16_MAX && Short(w.path)
    && |w.positional| <= U16_MAX && Short(w.positional)
    && |w.named| <= U16_MAX && ShortPairs(w.named)
    && |w.raw| <= U32_MAX
  }

  /** The magic, the version and the correlation ID that start both messages. */
  function PutPreamble(magic: nat, id: nat): Bytes
  {
    BigEndian(4, magic) + BigEndian(1, VERSION) + BigEndian(8, id)
  }

  function GetPreamble(magic: nat, s: Bytes): Option<(nat, Bytes)>
  {
    var (m, r) :- GetInt(4, s);
    if m != magic then None else
      var (v, r') :- GetInt(1, r);
      if v != VERSION then None else GetInt(8, r')
  }

  lemma GetPutPreamble(magic: nat, id: nat, t: Bytes)
    requires magic <= U32_MAX && id <= U64_MAX
    ensures GetPreamble(magic, PutPreamble(magic, id) + t) == Some((id, t))
  {
    Pow256Values();
    var s2 := BigEndian(8, id) + t;
    var s1 := BigEndian(1, VERSION) + s2;
    assert PutPreamble(magic, id) + t == BigEndian(4, magic) + s1;
    GetPutInt(4, magic, s1);
    GetPutInt(1, VERSION, s2);
    GetPutInt(8, id, t);
  }

  lemma PutGetPreamble(magic: nat, s: Bytes)
    requires GetPreamble(magic, s).Some?
    ensures var (id, t) := GetPreamble(magic, s).value; id <= U64_MAX && s == PutPreamble(magic, id) + t
  {
    Pow256Values();
    PutGetInt(4, s);
    var (m, r) := GetInt(4, s).value;
    PutGetInt(1, r);
    var (v, r') := GetInt(1, r).value;
    PutGetInt(8, r');
    var (id, t) := GetInt(8, r').value;
    assert BigEndian(4, m) + (BigEndian(1, v) + (BigEndian(8, id) + t)) == PutPreamble(m, id) + t;
  }

  function PutRequest(w: WireRequest): Bytes
  {
    PutPreamble(REQUEST_MAGIC, w.id)
    + PutList(w.path) + PutList(w.positional) + PutPairList(w.named) + PutString(4, w.raw)
  }

  function GetRequest(s: Bytes): Option<(WireRequest, Bytes)>
  {
    var (id, s1) :- GetPreamble(REQUEST_MAGIC, s);
    var (path, s2) :- GetList(s1);
    var (positional, s3) :- GetList(s2);
    var (named, s4) :- GetPairList(s3);
    var (raw, t) :- GetString(4, s4);
    Some((WireRequest(id, path, positional, named, raw), t))
  }

  lemma GetPutRequest(w: WireRequest, t: Bytes)
    requires RequestFits(w)
    ensures GetRequest(PutRequest(w) + t) == Some((w, t))
  {
    Pow256Values();
    hide PutPreamble, GetPreamble, PutList, GetList, PutPairList, GetPairList, PutString, GetString;
    var s4 := PutString(4, w.raw) + t;
    var s3 := PutPairList(w.named) + s4;
    var s2 := PutList(w.positional) + s3;
    var s1 := PutList(w.path) + s2;
    assert PutRequest(w) + t == PutPreamble(REQUEST_MAGIC, w.id) + s1;
    GetPutPreamble(REQUEST_MAGIC, w.id, s1);
    GetPutLists(w.path, [], s2);
    GetPutLists(w.positional, [], s3);
    GetPutLists([], w.named, s4);
    GetPutString(4, w.raw, t);
  }

  lemma PutGetRequest(s: Bytes)
    requires GetRequest(s).Some?
    ensures var (w, t) := GetRequest(s).value; RequestFits(w) && s == PutRequest(w) + t
  {
    Pow256Values();
    hide PutPreamble, GetPreamble, PutList, GetList, PutPairList, GetPairList, PutString, GetString;
    PutGetPreamble(REQUEST_MAGIC, s);
    var (id, s1) := GetPreamble(REQUEST_MAGIC, s).value;
    PutGetList(s1);
    var (path, s2) := GetList(s1).value;
    PutGetList(s2);
    var (positional, s3) := GetList(s2).value;
    PutGetPairList(s3);
    var (named, s4) := GetPairList(s3).value;
    PutGetString(4, s4);
    var (raw, t) := GetString(4, s4).value;
    var w := WireRequest(id, path, positional, named, raw);
    assert s == PutRequest(w) + t;
  }

  // ---------- responses ----------

  datatype Response = Response(id: nat, success: bool, code: int32, message: Bytes)

  /** Two's complement, as the signed code travels. */
  function ToUnsigned(i: int32): (u: nat)
    ensures u <= U32_MAX
  {
    if i < 0 then i + 0x1_0000_0000 else i
  }

  function ToSigned(u: nat): int32
    requires u <= U32_MAX
  {
    if u >= 0x8000_0000 then u - 0x1_0000_0000 else u
  }

  predicate ResponseFits(r: Response)
  {
    r.id <= U64_MAX && |r.message| <= U32_MAX
  }

  function PutResponse(r: Response): Bytes
  {
    PutPreamble(RESPONSE_MAGIC, r.id)
    + BigEndian(1, if r.success then 1 else 0) + BigEndian(4, ToUnsigned(r.code)) + PutString(4, r.message)
  }

  function GetResponse(s: Bytes): Option<(Response, Bytes)>
  {
    var (id, s1) :- GetPreamble(RESPONSE_MAGIC, s);
    var (success, s2) :- GetInt(1, s1);
    if success > 1 then None else
      var (code, s3) :- GetInt(4, s2);
      var (message, t) :- GetString(4, s3);
      Pow256Values(); PutGetInt(4, s2);
      Some((Response(id, success != 0, ToSigned(code), message), t))
  }

  lemma GetPutResponse(r: Response, t: Bytes)
    requires ResponseFits(r)
    ensures GetResponse(PutResponse(r) + t) == Some((r, t))
  {
    Pow256Values();
    hide PutPreamble, GetPreamble, PutString, GetString, GetInt;
    var success := if r.success then 1 else 0;
    var s3 := PutString(4, r.message) + t;
    var s2 := BigEndian(4, ToUnsigned(r.code)) + s3;
    var s1 := BigEndian(1, success) + s2;
    assert PutResponse(r) + t == PutPreamble(RESPONSE_MAGIC, r.id) + s1;
    GetPutPreamble(RESPONSE_MAGIC, r.id, s1);
    GetPutInt(1, success, s2);
    GetPutInt(4, ToUnsigned(r.code), s3);
    GetPutString(4, r.message, t);
  }

  lemma PutGetResponse(s: Bytes)
    requires GetResponse(s).Some?
    ensures var (r, t) := GetResponse(s).value; ResponseFits(r) && s == PutResponse(r) + t
  {
    Pow256Values();
    hide PutPreamble, GetPreamble, PutString, GetString, GetInt;
    PutGetPreamble(RESPONSE_MAGIC, s);
    var (id, s1) := GetPreamble(RESPONSE_MAGIC, s).value;
    PutGetInt(1, s1);
    var (success, s2) := GetInt(1, s1).value;
    PutGetInt(4, s2);
    var (code, s3) := GetInt(4, s2).value;
    PutGetString(4, s3);
    var (message, t) := GetString(4, s3).value;
    var r := Response(id, success != 0, ToSigned(code), message);
    assert s == PutResponse(r) + t;
  }
}
