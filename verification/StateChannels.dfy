/** Small facts about what a channel will do, used by the convergence proof. */
module StateChannels {
  import opened StateSession
  import opened StateConvergence

  // ---------- appending to a channel ----------

  lemma {:induction false} ControlsConcat(types: set<TypeId>, a: seq<Message>, b: seq<Message>)
    ensures Controls(types, a + b) == Controls(Controls(types, a), b)
    decreases |a|
  {
    if a == [] {
      assert a + b == b;
    } else {
      assert (a + b)[0] == a[0] && (a + b)[1..] == a[1..] + b;
      ControlsConcat(Controlled(types, a[0]), a[1..], b);
    }
  }

  /** Types outside `within` never matter to those inside. */
  lemma {:induction false} ControlsWithin(types: set<TypeId>, ms: seq<Message>, within: set<TypeId>)
    ensures Controls(types * within, ms) * within == Controls(types, ms) * within
    decreases |ms|
  {
    if ms != [] {
      var m := ms[0];
      ControlsWithin(Controlled(types, m), ms[1..], within);
      ControlsWithin(Controlled(types * within, m), ms[1..], within);
      assert Controlled(types * within, m) * within == Controlled(types, m) * within;
    }
  }

  lemma {:induction false} UpdatesConcat(a: seq<Message>, b: seq<Message>, t: TypeId)
    ensures Updates(a + b, t) == Updates(a, t) + Updates(b, t)
  {
    if a == [] {
      assert a + b == b;
    } else {
      assert (a + b)[0] == a[0] && (a + b)[1..] == a[1..] + b;
      UpdatesConcat(a[1..], b, t);
      var first := if a[0].Update? && a[0].typeId == t then [a[0].entry] else [];
      assert first + (Updates(a[1..], t) + Updates(b, t)) == (first + Updates(a[1..], t)) + Updates(b, t);
    }
  }

  lemma SubscribePendingConcat(a: seq<Message>, b: seq<Message>, t: TypeId)
    ensures SubscribePending(a + b, t) <==> SubscribePending(a, t) || SubscribePending(b, t)
  {
    if SubscribePending(b, t) {
      var i :| 0 <= i < |b| && b[i].Subscribe? && b[i].typeId == t;
      assert (a + b)[|a| + i] == b[i];
    }
    if SubscribePending(a, t) {
      var i :| 0 <= i < |a| && a[i].Subscribe? && a[i].typeId == t;
      assert (a + b)[i] == a[i];
    }
  }

  /** Messages that change nobody's subscriptions. */
  predicate Quiet(ms: seq<Message>)
  {
    forall i :: 0 <= i < |ms| ==> !ms[i].Subscribe? && !ms[i].Unsubscribe?
  }

  lemma {:induction false} QuietControls(types: set<TypeId>, ms: seq<Message>)
    requires Quiet(ms)
    ensures Controls(types, ms) == types
  {
    if ms != [] {
      QuietControls(Controlled(types, ms[0]), ms[1..]);
    }
  }

  lemma {:induction false} NoUpdatesNoEntries(ms: seq<Message>, t: TypeId)
    requires forall i :: 0 <= i < |ms| ==> !ms[i].Update?
    ensures Updates(ms, t) == []
  {
    if ms != [] {
      NoUpdatesNoEntries(ms[1..], t);
    }
  }

  /** Every update among the messages carries what `p` publishes now. */
  predicate CurrentUpdates(ms: seq<Message>, p: Peer)
  {
    forall i :: 0 <= i < |ms| && ms[i].Update? ==>
      ms[i].typeId in p.published && ms[i].entry == p.published[ms[i].typeId]
  }

  predicate Copies(s: seq<Entry>, latest: seq<Entry>)
  {
    forall i :: 0 <= i < |s| ==> latest == [s[i]]
  }

  lemma {:induction false} CurrentUpdatesAreCopies(ms: seq<Message>, p: Peer, t: TypeId)
    requires CurrentUpdates(ms, p)
    ensures Copies(Updates(ms, t), Latest(p, t))
  {
    if ms != [] {
      CurrentUpdatesAreCopies(ms[1..], p, t);
    }
  }

  // ---------- announcements ----------

  function WantedOf(p: Peer, descriptors: seq<Descriptor>): set<TypeId>
  {
    set i | 0 <= i < |descriptors| && Applies(p, descriptors[i].scope) :: descriptors[i].typeId
  }

  lemma WantedOfSnoc(p: Peer, first: seq<Descriptor>, d: Descriptor)
    ensures WantedOf(p, first + [d]) == WantedOf(p, first) + if Applies(p, d.scope) then {d.typeId} else {}
  {
    var all := first + [d];
    forall t ensures t in WantedOf(p, all) <==> t in WantedOf(p, first) || (Applies(p, d.scope) && t == d.typeId) {
      if t in WantedOf(p, first) {
        var i :| 0 <= i < |first| && Applies(p, first[i].scope) && first[i].typeId == t;
        assert all[i] == first[i];
      }
      if Applies(p, d.scope) && t == d.typeId {
        assert all[|first|] == d;
      }
      if t in WantedOf(p, all) {
        var i :| 0 <= i < |all| && Applies(p, all[i].scope) && all[i].typeId == t;
        assert i < |first| ==> all[i] == first[i];
      }
    }
  }

  lemma {:induction false} AnnouncementsConcat(p: Peer, a: seq<Descriptor>, b: seq<Descriptor>)
    ensures Announcements(p, a + b) == Announcements(p, a) + Announcements(p, b)
  {
    if a == [] {
      assert a + b == b;
    } else {
      assert (a + b)[0] == a[0] && (a + b)[1..] == a[1..] + b;
      AnnouncementsConcat(p, a[1..], b);
      var first := if Applies(p, a[0].scope) then [Subscribe(p.origin, a[0].typeId)] else [];
      assert first + (Announcements(p, a[1..]) + Announcements(p, b)) == (first + Announcements(p, a[1..])) + Announcements(p, b);
    }
  }

  /** Announcing adds exactly the wanted types, each with a `Subscribe` of its own. */
  lemma {:induction false} AnnouncementsControl(p: Peer, types: set<TypeId>, descriptors: seq<Descriptor>)
    ensures Controls(types, Announcements(p, descriptors)) == types + WantedOf(p, descriptors)
    ensures forall t :: t in WantedOf(p, descriptors) ==> SubscribePending(Announcements(p, descriptors), t)
    decreases |descriptors|
  {
    if descriptors != [] {
      var n := |descriptors| - 1;
      var d := descriptors[n];
      assert descriptors == descriptors[..n] + [d];
      AnnouncementsControl(p, types, descriptors[..n]);
      AnnouncementsConcat(p, descriptors[..n], [d]);
      WantedOfSnoc(p, descriptors[..n], d);
      assert [d][1..] == [];
      var first, last := Announcements(p, descriptors[..n]), Announcements(p, [d]);
      assert last == if Applies(p, d.scope) then [Subscribe(p.origin, d.typeId)] else [];
      ControlsConcat(types, first, last);
      forall t | t in WantedOf(p, descriptors) ensures SubscribePending(first + last, t) {
        SubscribePendingConcat(first, last, t);
        if t !in WantedOf(p, descriptors[..n]) {
          assert last[0].Subscribe? && last[0].typeId == t;
        }
      }
      if Applies(p, d.scope) {
        assert last[1..] == [];
      }
    }
  }

  lemma {:induction false} AnnouncementsAreAuthentic(p: Peer, descriptors: seq<Descriptor>, other: Peer)
    ensures AllAuthentic(Announcements(p, descriptors), p, other)
  {
    if descriptors != [] {
      AnnouncementsAreAuthentic(p, descriptors[1..], other);
    }
  }

  lemma {:induction false} SnapshotsAreCurrent(p: Peer, types: seq<TypeId>, other: Peer)
    ensures CurrentUpdates(Snapshots(p, types), p) && AllAuthentic(Snapshots(p, types), p, other)
    ensures forall i :: 0 <= i < |Snapshots(p, types)| ==> Snapshots(p, types)[i].Update?
  {
    if types != [] {
      SnapshotsAreCurrent(p, types[1..], other);
    }
  }

  // ---------- sequences of entries ----------

  /** More copies of the latest entry on the way. */
  lemma AppendCopies(known: seq<Entry>, coming: seq<Entry>, more: seq<Entry>, latest: seq<Entry>)
    requires Advancing(known, coming, latest) && Copies(more, latest) && |latest| <= 1
    ensures Advancing(known, coming + more, latest)
    ensures more != [] || UpToDate(known, coming, latest) ==> UpToDate(known, coming + more, latest)
  {
    var s := known + (coming + more) + latest;
    var before := known + coming + latest;
    if more != [] {
      assert latest == [more[0]];
    }
    forall i, j | 0 <= i < j < |s| ensures NotAfter(s[i], s[j]) {
      var n := |known + coming|;
      assert forall k :: n <= k < |s| ==> s[k] == latest[0];
      assert forall k :: 0 <= k < n ==> s[k] == before[k];
      if i < n && latest != [] {
        assert NotAfter(before[i], before[n]);
        if j < n {
          assert NotAfter(before[i], before[j]);
        }
      }
    }
    if more == [] {
      assert coming + more == coming;
    } else {
      assert (known + (coming + more))[|known + (coming + more)| - 1] == more[|more| - 1];
    }
  }

  lemma NotAfterIsTransitive(a: Entry, b: Entry, c: Entry)
    requires NotAfter(a, b) && NotAfter(b, c)
    ensures NotAfter(a, c)
  {
  }

  /** A newer entry is published. */
  lemma Publishing(known: seq<Entry>, coming: seq<Entry>, latest: seq<Entry>, e: Entry)
    requires Advancing(known, coming, latest) && |latest| <= 1
    requires latest != [] ==> Newer(e.stamp, latest[0].stamp)
    ensures Advancing(known, coming, [e])
  {
    var s, before := known + coming + [e], known + coming + latest;
    forall i, j | 0 <= i < j < |s| ensures NotAfter(s[i], s[j]) {
      var n := |known + coming|;
      assert forall k :: 0 <= k < n ==> s[k] == before[k];
      if j < n {
        assert NotAfter(before[i], before[j]);
      } else {
        assert NotAfter(before[i], before[n]);
        NotAfterIsTransitive(s[i], latest[0], e);
      }
    }
  }

  /** The next entry on the way is dropped, or becomes what is known. */
  lemma TakeNext(known: seq<Entry>, e: Entry, coming: seq<Entry>, latest: seq<Entry>)
    requires Advancing(known, [e] + coming, latest) && |known| <= 1
    ensures Advancing(known, coming, latest) && Advancing([e], coming, latest)
    ensures known != [] ==> NotAfter(known[0], e)
    ensures UpToDate(known, [e] + coming, latest) ==> UpToDate([e], coming, latest)
  {
    DroppingKeepsOrder(known, e, coming, latest);
    TakingKeepsOrder(known, e, coming, latest);
    LastStays(known, [e] + coming);
    hide NotAfter, Ascending;
  }

  lemma DroppingKeepsOrder(known: seq<Entry>, e: Entry, coming: seq<Entry>, latest: seq<Entry>)
    requires Ascending(known + ([e] + coming) + latest)
    ensures Ascending(known + coming + latest)
    ensures known != [] ==> NotAfter(known[0], e)
  {
    hide NotAfter;
    var s := known + ([e] + coming) + latest;
    var k := |known|;
    assert s[k] == e;
    var dropped := known + coming + latest;
    forall i, j | 0 <= i < j < |dropped| ensures NotAfter(dropped[i], dropped[j]) {
      assert dropped[i] == s[if i < k then i else i + 1] && dropped[j] == s[if j < k then j else j + 1];
    }
    if known != [] {
      assert NotAfter(s[0], s[k]);
    }
  }

  lemma TakingKeepsOrder(known: seq<Entry>, e: Entry, coming: seq<Entry>, latest: seq<Entry>)
    requires Ascending(known + ([e] + coming) + latest)
    ensures Ascending([e] + coming + latest)
  {
    hide NotAfter;
    var s := known + ([e] + coming) + latest;
    var taken := [e] + coming + latest;
    forall i, j | 0 <= i < j < |taken| ensures NotAfter(taken[i], taken[j]) {
      assert taken[i] == s[|known| + i] && taken[j] == s[|known| + j];
    }
  }

  lemma LastStays(known: seq<Entry>, coming: seq<Entry>)
    requires coming != []
    ensures (known + coming)[|known + coming| - 1] == coming[|coming| - 1]
  {
  }
}
