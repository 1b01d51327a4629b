/** The ordered string map that carries named parameters: keys in byte order, first one wins. */
module KeyOrder {
  import opened Bytes
  import opened Wrappers

  /** The byte order of strings. */
  predicate Less(a: Bytes, b: Bytes)
  {
    b != [] && (a == [] || a[0] < b[0] || (a[0] == b[0] && Less(a[1..], b[1..])))
  }

  lemma {:induction false} LessIsTransitive(a: Bytes, b: Bytes, c: Bytes)
    requires Less(a, b) && Less(b, c)
    ensures Less(a, c)
  {
    if a != [] && a[0] == b[0] == c[0] {
      LessIsTransitive(a[1..], b[1..], c[1..]);
    }
  }

  lemma {:induction false} LessIsTotal(a: Bytes, b: Bytes)
    ensures Less(a, b) || Less(b, a) || a == b
  {
    if a != [] && b != [] && a[0] == b[0] {
      LessIsTotal(a[1..], b[1..]);
      assert a == [a[0]] + a[1..] && b == [b[0]] + b[1..];
    }
  }

  lemma {:induction false} LessIsIrreflexive(a: Bytes)
    ensures !Less(a, a)
  {
    if a != [] {
      LessIsIrreflexive(a[1..]);
    }
  }

  /** Keys strictly increasing, as the source's ordered map iterates over them. */
  predicate Ordered<V>(m: seq<(Bytes, V)>)
  {
    forall i, j :: 0 <= i < j < |m| ==> Less(m[i].0, m[j].0)
  }

  /** Insert unless the key is there already. */
  function Emplace<V>(m: seq<(Bytes, V)>, key: Bytes, value: V): seq<(Bytes, V)>
  {
    if m == [] then [(key, value)]
    else if key == m[0].0 then m
    else if Less(key, m[0].0) then [(key, value)] + m
    else [m[0]] + Emplace(m[1..], key, value)
  }

  function EmplaceAll<V>(m: seq<(Bytes, V)>, pairs: seq<(Bytes, V)>): seq<(Bytes, V)>
    decreases |pairs|
  {
    if pairs == [] then m
    else EmplaceAll(Emplace(m, pairs[0].0, pairs[0].1), pairs[1..])
  }

  /** The value of the first pair with a key. */
  function Lookup<V>(pairs: seq<(Bytes, V)>, key: Bytes): Option<V>
  {
    if pairs == [] then None
    else if pairs[0].0 == key then Some(pairs[0].1)
    else Lookup(pairs[1..], key)
  }

  lemma {:induction false} EmplaceAddsNothingElse<V>(m: seq<(Bytes, V)>, key: Bytes, value: V)
    ensures forall p :: p in Emplace(m, key, value) ==> p in m || p == (key, value)
  {
    if m != [] && key != m[0].0 && !Less(key, m[0].0) {
      EmplaceAddsNothingElse(m[1..], key, value);
    }
  }

  lemma {:induction false} EmplaceKeepsOrder<V>(m: seq<(Bytes, V)>, key: Bytes, value: V)
    requires Ordered(m)
    ensures Ordered(Emplace(m, key, value))
  {
    if m != [] && key != m[0].0 {
      if Less(key, m[0].0) {
        forall j | 0 < j < |m| ensures Less(key, m[j].0) {
          LessIsTransitive(key, m[0].0, m[j].0);
        }
      } else {
        LessIsTotal(key, m[0].0);
        var later := Emplace(m[1..], key, value);
        EmplaceKeepsOrder(m[1..], key, value);
        EmplaceAddsNothingElse(m[1..], key, value);
        forall j | 0 <= j < |later| ensures Less(m[0].0, later[j].0) {
          assert later[j] in later;
        }
      }
    }
  }

  lemma {:induction false} EmplaceAllKeepsOrder<V>(m: seq<(Bytes, V)>, pairs: seq<(Bytes, V)>)
    requires Ordered(m)
    ensures Ordered(EmplaceAll(m, pairs))
    decreases |pairs|
  {
    if pairs != [] {
      EmplaceKeepsOrder(m, pairs[0].0, pairs[0].1);
      EmplaceAllKeepsOrder(Emplace(m, pairs[0].0, pairs[0].1), pairs[1..]);
    }
  }

  lemma {:induction false} EmplaceLast<V>(m: seq<(Bytes, V)>, key: Bytes, value: V)
    requires forall p :: p in m ==> Less(p.0, key)
    ensures Emplace(m, key, value) == m + [(key, value)]
  {
    if m != [] {
      assert Less(m[0].0, key);
      if Less(key, m[0].0) {
        LessIsTransitive(key, m[0].0, key);
      }
      LessIsIrreflexive(key);
      EmplaceLast(m[1..], key, value);
      assert m == [m[0]] + m[1..];
    }
  }

  /** Pairs that already come in key order are stored just as they come. */
  lemma {:induction false} EmplaceInOrder<V>(m: seq<(Bytes, V)>, pairs: seq<(Bytes, V)>)
    requires Ordered(m + pairs)
    ensures EmplaceAll(m, pairs) == m + pairs
    decreases |pairs|
  {
    if pairs == [] {
      assert m + pairs == m;
    } else {
      var all := m + pairs;
      forall p | p in m ensures Less(p.0, pairs[0].0) {
        var i :| 0 <= i < |m| && m[i] == p;
        assert all[i] == p && all[|m|] == pairs[0];
      }
      EmplaceLast(m, pairs[0].0, pairs[0].1);
      assert (m + [pairs[0]]) + pairs[1..] == all;
      EmplaceInOrder(m + [pairs[0]], pairs[1..]);
    }
  }

  lemma {:induction false} LookupOfEmplace<V>(m: seq<(Bytes, V)>, key: Bytes, value: V, k: Bytes)
    requires Ordered(m)
    ensures Lookup(Emplace(m, key, value), k)
         == if Lookup(m, k).Some? then Lookup(m, k) else if k == key then Some(value) else None
  {
    if m != [] && key != m[0].0 {
      if Less(key, m[0].0) {
        if k == key {
          KeyBelowIsAbsent(m, k);
        }
        assert ([(key, value)] + m)[1..] == m;
      } else {
        LookupOfEmplace(m[1..], key, value, k);
        assert ([m[0]] + Emplace(m[1..], key, value))[1..] == Emplace(m[1..], key, value);
      }
    }
  }

  lemma {:induction false} KeyBelowIsAbsent<V>(m: seq<(Bytes, V)>, k: Bytes)
    requires Ordered(m) && (m != [] ==> Less(k, m[0].0))
    ensures Lookup(m, k).None?
  {
    if m != [] {
      LessIsIrreflexive(k);
      if |m| > 1 {
        LessIsTransitive(k, m[0].0, m[1].0);
      }
      KeyBelowIsAbsent(m[1..], k);
    }
  }

  /** A map filled from a list of pairs answers with the first pair of a key. */
  lemma {:induction false} FirstPairWins<V>(m: seq<(Bytes, V)>, pairs: seq<(Bytes, V)>, k: Bytes)
    requires Ordered(m)
    ensures Lookup(EmplaceAll(m, pairs), k)
         == if Lookup(m, k).Some? then Lookup(m, k) else Lookup(pairs, k)
    decreases |pairs|
  {
    if pairs != [] {
      LookupOfEmplace(m, pairs[0].0, pairs[0].1, k);
      EmplaceKeepsOrder(m, pairs[0].0, pairs[0].1);
      FirstPairWins(Emplace(m, pairs[0].0, pairs[0].1), pairs[1..], k);
    }
  }
}
