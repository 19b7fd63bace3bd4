/** `BaseEnumerator`: a node over a changing collection. It remembers the
    `updated_at` of every element it has seen, keyed by the element's key,
    and on each read reconciles that snapshot with the current enumeration:
    new keys are added, keys whose element is newer are updated, keys that
    are gone are discarded, each through a hook, and the aggregate
    `updated_at` is raised to the timestamp of each change.

    The enumeration is given to a read as a sequence of items (an element's
    key and its `updated_at`); the hooks `enter`, `update` and `exit` are
    recorded as logs of their arguments. */
module Enumerators {
  import opened Values
  import opened Clocks

  /** An enumerated element as the enumerator sees it: `get_key(x)` and `x.updated_at`. */
  datatype Item<K> = Item(key: K, stamp: nat)

  /** `_try_update_updated_at`: the aggregate raised to t, or set to t when absent. */
  function Raise(u: Option<nat>, t: nat): Option<nat> {
    if u.None? || u.value < t then Some(t) else u
  }

  /** The raised aggregate is the larger of the two, and present. */
  lemma RaiseBounds(u: Option<nat>, t: nat)
    ensures Raise(u, t).Some? && Raise(u, t).value >= t && (u.Some? ==> Raise(u, t).value >= u.value)
    ensures Raise(u, t) == u || Raise(u, t) == Some(t)
  {
  }

  /** Raising to a timestamp and then to a later one is raising to the later one. */
  lemma RaiseLater(u: Option<nat>, t1: nat, t2: nat)
    requires t1 <= t2
    ensures Raise(Raise(u, t1), t2) == Raise(u, t2)
  {
  }

  /** The keys of the enumerated items. */
  function KeysOf<K(==)>(src: seq<Item<K>>): set<K>
    decreases |src|
  {
    if src == [] then {} else KeysOf(src[..|src| - 1]) + {src[|src| - 1].key}
  }

  /** A key is among the enumerated keys exactly when some item carries it. */
  lemma {:induction false} KeysOfItems<K>(src: seq<Item<K>>)
    ensures forall d <- src :: d.key in KeysOf(src)
    ensures forall k <- KeysOf(src) :: exists d <- src :: d.key == k
    decreases |src|
  {
    if src != [] {
      var front := src[..|src| - 1];
      KeysOfItems(front);
      assert src == front + [src[|src| - 1]];
    }
  }

  predicate DistinctKeys<K(==)>(src: seq<Item<K>>) {
    forall i, j :: 0 <= i < j < |src| ==> src[i].key != src[j].key
  }

  /** The state after the first loop of `_try_update`: the snapshot, the
      aggregate, the clock, and the items passed to `enter` and `update`. */
  datatype Scanned<K> = Scanned(snap: map<K, nat>, at: Option<nat>, now: nat,
                                entered: seq<Item<K>>, updated: seq<Item<K>>)

  /** The first loop of `_try_update` over the items in order: an unknown
      key is added (a fresh clock reading raises the aggregate), a known key
      whose item is strictly newer is updated (the item's timestamp raises
      the aggregate), any other item changes nothing. */
  function Scan<K(==)>(m: map<K, nat>, at: Option<nat>, now: nat, src: seq<Item<K>>): Scanned<K>
    decreases |src|
  {
    if src == [] then Scanned(m, at, now, [], [])
    else
      var s := Scan(m, at, now, src[..|src| - 1]);
      var d := src[|src| - 1];
      if d.key !in s.snap then
        Scanned(s.snap[d.key := d.stamp], Raise(s.at, s.now + 1), s.now + 1, s.entered + [d], s.updated)
      else if s.snap[d.key] < d.stamp then
        Scanned(s.snap[d.key := d.stamp], Raise(s.at, d.stamp), s.now, s.entered, s.updated + [d])
      else s
  }

  /** The whole of `_try_update`, the keys passed to `exit` as a set: they
      are discarded in an unspecified order, each taking a clock reading. */
  datatype Reconciled<K> = Reconciled(snap: map<K, nat>, at: Option<nat>, now: nat,
                                      entered: seq<Item<K>>, updated: seq<Item<K>>, exited: set<K>)

  function Reconcile<K(==)>(m: map<K, nat>, at: Option<nat>, now: nat, src: seq<Item<K>>): Reconciled<K> {
    var s := Scan(m, at, now, src);
    var gone := m.Keys - KeysOf(src);
    Reconciled(s.snap - gone, AfterDiscards(s.at, s.now, |gone|),
               s.now + |gone|, s.entered, s.updated, gone)
  }

  /** The aggregate after n discards starting at clock reading now: each takes
      the next reading, so only the last one matters. */
  function AfterDiscards(at: Option<nat>, now: nat, n: nat): Option<nat> {
    if n == 0 then at else Raise(at, now + n)
  }

  lemma OneMoreDiscard(at: Option<nat>, now: nat, n: nat)
    ensures AfterDiscards(at, now, n + 1) == Raise(AfterDiscards(at, now, n), now + n + 1)
  {
    if n > 0 {
      RaiseLater(at, now + n, now + n + 1);
    }
  }

  /** A reconciliation is its scan followed by the discards. */
  lemma ReconcileFromScan<K>(m: map<K, nat>, at: Option<nat>, now: nat, src: seq<Item<K>>, s: Scanned<K>)
    requires s == Scan(m, at, now, src)
    ensures m.Keys - KeysOf(src) <= s.snap.Keys
    ensures var gone := m.Keys - KeysOf(src);
            Reconcile(m, at, now, src)
            == Reconciled(s.snap - gone, AfterDiscards(s.at, s.now, |gone|),
                          s.now + |gone|, s.entered, s.updated, gone)
  {
    ScanKeys(m, at, now, src);
  }

  /** The items of src, in order, whose key m does not know. */
  function Unknown<K(==)>(m: map<K, nat>, src: seq<Item<K>>): seq<Item<K>> {
    if src == [] then []
    else Unknown(m, src[..|src| - 1]) + (if src[|src| - 1].key !in m then [src[|src| - 1]] else [])
  }

  /** The items of src, in order, whose key m knows with an older timestamp. */
  function Newer<K(==)>(m: map<K, nat>, src: seq<Item<K>>): seq<Item<K>> {
    if src == [] then []
    else
      var d := src[|src| - 1];
      Newer(m, src[..|src| - 1]) + (if d.key in m && m[d.key] < d.stamp then [d] else [])
  }

  /** The scan tracks the old keys and the enumerated ones, and a key it
      does not meet keeps its timestamp. */
  lemma {:induction false} ScanKeys<K>(m: map<K, nat>, at: Option<nat>, now: nat, src: seq<Item<K>>)
    ensures Scan(m, at, now, src).snap.Keys == m.Keys + KeysOf(src)
    ensures forall k <- m.Keys :: k !in KeysOf(src) ==> Scan(m, at, now, src).snap[k] == m[k]
    decreases |src|
  {
    if src != [] {
      var front := src[..|src| - 1];
      var d := src[|src| - 1];
      ScanKeys(m, at, now, front);
      assert src == front + [d];
      assert KeysOf(src) == KeysOf(front) + {d.key};
    }
  }

  /** Every tracked timestamp is at least the old one and every item's. */
  lemma {:induction false} ScanBounds<K>(m: map<K, nat>, at: Option<nat>, now: nat, src: seq<Item<K>>)
    ensures forall k <- m.Keys :: k in Scan(m, at, now, src).snap && Scan(m, at, now, src).snap[k] >= m[k]
    ensures forall d <- src :: d.key in Scan(m, at, now, src).snap && Scan(m, at, now, src).snap[d.key] >= d.stamp
    decreases |src|
  {
    if src != [] {
      var front := src[..|src| - 1];
      var d := src[|src| - 1];
      ScanBounds(m, at, now, front);
      assert src == front + [d];
      var p := Scan(m, at, now, front).snap;
      var q := Scan(m, at, now, src).snap;
      assert forall k <- p.Keys :: k in q && q[k] >= p[k];
    }
  }

  /** Every tracked timestamp is the old one or one of its items'. */
  lemma {:induction false} ScanAttained<K>(m: map<K, nat>, at: Option<nat>, now: nat, src: seq<Item<K>>)
    ensures forall k <- Scan(m, at, now, src).snap.Keys ::
              (k in m && Scan(m, at, now, src).snap[k] == m[k])
              || exists d <- src :: d.key == k && d.stamp == Scan(m, at, now, src).snap[k]
    decreases |src|
  {
    if src != [] {
      var front := src[..|src| - 1];
      var d := src[|src| - 1];
      ScanAttained(m, at, now, front);
      assert src == front + [d];
      var p := Scan(m, at, now, front).snap;
      var q := Scan(m, at, now, src).snap;
      forall k | k in q.Keys
        ensures (k in m && q[k] == m[k]) || exists e <- src :: e.key == k && e.stamp == q[k]
      {
        if k != d.key || (k in p && q[k] == p[k]) {
          assert k in p && q[k] == p[k];
          if !(k in m && q[k] == m[k]) {
            var e :| e in front && e.key == k && e.stamp == p[k];
            assert e in src;
          }
        } else {
          assert q[k] == d.stamp;
        }
      }
    }
  }

  /** The aggregate never decreases, covers every update's timestamp and,
      once something was added, the latest clock reading; the clock
      advances once per addition. */
  lemma {:induction false} ScanAggregate<K>(m: map<K, nat>, at: Option<nat>, now: nat, src: seq<Item<K>>)
    ensures Scan(m, at, now, src).now == now + |Scan(m, at, now, src).entered|
    ensures at.Some? ==> Scan(m, at, now, src).at.Some? && Scan(m, at, now, src).at.value >= at.value
    ensures Scan(m, at, now, src).at.None? ==> at.None? && Scan(m, at, now, src).entered == [] && Scan(m, at, now, src).updated == []
    ensures forall d <- Scan(m, at, now, src).updated :: Scan(m, at, now, src).at.Some? && d.stamp <= Scan(m, at, now, src).at.value
    ensures Scan(m, at, now, src).entered != [] ==> Scan(m, at, now, src).at.Some? && Scan(m, at, now, src).at.value >= Scan(m, at, now, src).now
    decreases |src|
  {
    if src != [] {
      ScanAggregate(m, at, now, src[..|src| - 1]);
    }
  }

  /** The aggregate after the scan is the one before, one of the applied
      updates' timestamps, or one of the clock readings the scan took. */
  lemma {:induction false} ScanAggregateAttained<K>(m: map<K, nat>, at: Option<nat>, now: nat, src: seq<Item<K>>)
    ensures var s := Scan(m, at, now, src);
            s.at == at || (s.at.Some? && ((exists d <- s.updated :: s.at.value == d.stamp) || now < s.at.value <= s.now))
    decreases |src|
  {
    if src != [] {
      var front := src[..|src| - 1];
      ScanAggregateAttained(m, at, now, front);
      ScanAggregate(m, at, now, front);
      var p := Scan(m, at, now, front);
      var q := Scan(m, at, now, src);
      if p.at != at && p.at.Some? && q.at == p.at {
        if e :| e in p.updated && p.at.value == e.stamp {
          assert e in q.updated;
        }
      }
    }
  }

  /** With distinct keys, `enter` receives exactly the items with an unknown
      key and `update` exactly those newer than the remembered timestamp,
      both in enumeration order. */
  lemma {:induction false} ScanHooks<K>(m: map<K, nat>, at: Option<nat>, now: nat, src: seq<Item<K>>)
    requires DistinctKeys(src)
    ensures Scan(m, at, now, src).entered == Unknown(m, src)
    ensures Scan(m, at, now, src).updated == Newer(m, src)
    decreases |src|
  {
    if src != [] {
      var front := src[..|src| - 1];
      var d := src[|src| - 1];
      assert DistinctKeys(front);
      ScanHooks(m, at, now, front);
      ScanKeys(m, at, now, front);
      assert d.key !in KeysOf(front) by {
        KeysOfItems(front);
        forall e | e in front
          ensures e.key != d.key
        {
          var i :| 0 <= i < |front| && front[i] == e;
          assert src[i] == e;
        }
      }
    }
  }

  /** A scan that finds every item's key known and no newer timestamp
      changes nothing and calls no hook. */
  lemma {:induction false} ScanQuiet<K>(m: map<K, nat>, at: Option<nat>, now: nat, src: seq<Item<K>>)
    requires forall d <- src :: d.key in m && d.stamp <= m[d.key]
    ensures Scan(m, at, now, src) == Scanned(m, at, now, [], [])
    decreases |src|
  {
    if src != [] {
      ScanQuiet(m, at, now, src[..|src| - 1]);
    }
  }

  /** After a reconciliation the snapshot tracks exactly the enumerated
      keys, each with the largest timestamp among its items and the one it
      had before. */
  lemma ReconcileTracksSource<K>(m: map<K, nat>, at: Option<nat>, now: nat, src: seq<Item<K>>)
    ensures Reconcile(m, at, now, src).snap.Keys == KeysOf(src)
    ensures Reconcile(m, at, now, src).exited == m.Keys - KeysOf(src)
    ensures forall d <- src :: d.key in Reconcile(m, at, now, src).snap && Reconcile(m, at, now, src).snap[d.key] >= d.stamp
    ensures forall k <- KeysOf(src) :: k in m ==> Reconcile(m, at, now, src).snap[k] >= m[k]
    ensures forall k <- KeysOf(src) ::
              (k in m && Reconcile(m, at, now, src).snap[k] == m[k])
              || exists d <- src :: d.key == k && d.stamp == Reconcile(m, at, now, src).snap[k]
  {
    KeysOfItems(src);
    ScanKeys(m, at, now, src);
    ScanBounds(m, at, now, src);
    ScanAttained(m, at, now, src);
  }

  /** The keys and lower bounds of a reconciled snapshot. */
  lemma ReconcileCovers<K>(m: map<K, nat>, at: Option<nat>, now: nat, src: seq<Item<K>>)
    ensures Reconcile(m, at, now, src).snap.Keys == KeysOf(src)
    ensures forall d <- src :: d.key in Reconcile(m, at, now, src).snap && d.stamp <= Reconcile(m, at, now, src).snap[d.key]
  {
    ScanKeys(m, at, now, src);
    ScanBounds(m, at, now, src);
    var sc := Scan(m, at, now, src);
    var r := sc.snap - (m.Keys - KeysOf(src));
    forall d | d in src
      ensures d.key in r && d.stamp <= r[d.key]
    {
      assert d.key in KeysOf(src);
    }
  }

  /** Reading twice over an unchanged enumeration: the second reconciliation
      changes nothing, calls no hook and takes no clock reading. */
  lemma ReconcileIdempotent<K>(m: map<K, nat>, at: Option<nat>, now: nat, src: seq<Item<K>>)
    ensures var r := Reconcile(m, at, now, src);
            Reconcile(r.snap, r.at, r.now, src) == Reconciled(r.snap, r.at, r.now, [], [], {})
  {
    var r := Reconcile(m, at, now, src);
    ReconcileCovers(m, at, now, src);
    ReconcileQuiet(r.snap, r.at, r.now, src);
  }

  /** A snapshot that tracks exactly the enumerated keys, none older than
      its items, is a fixed point of reconciliation. */
  lemma ReconcileQuiet<K>(m: map<K, nat>, at: Option<nat>, now: nat, src: seq<Item<K>>)
    requires m.Keys == KeysOf(src)
    requires forall d <- src :: d.key in m && d.stamp <= m[d.key]
    ensures Reconcile(m, at, now, src) == Reconciled(m, at, now, [], [], {})
  {
    ScanQuiet(m, at, now, src);
    assert m.Keys - KeysOf(src) == {};
    assert m - {} == m;
  }

  /** The aggregate of a reconciliation is never below the one before, is
      at least every applied update's timestamp, and any addition or discard
      makes it at least a clock reading taken by this reconciliation; and it
      is one of those: the one before, an update's timestamp, or a reading
      of this reconciliation. */
  lemma ReconcileAggregate<K>(m: map<K, nat>, at: Option<nat>, now: nat, src: seq<Item<K>>)
    ensures var r := Reconcile(m, at, now, src);
            && r.now == now + |r.entered| + |r.exited|
            && (at.Some? ==> r.at.Some? && r.at.value >= at.value)
            && (r.entered != [] || r.exited != {} ==> r.at.Some? && r.at.value >= now + 1)
            && (r.exited != {} ==> r.at.Some? && r.at.value >= r.now)
            && (forall d <- r.updated :: r.at.Some? && d.stamp <= r.at.value)
  ensures var r := Reconcile(m, at, now, src);
            r.at == at || (r.at.Some? && ((exists d <- r.updated :: r.at.value == d.stamp) || now < r.at.value <= r.now))
  {
    ScanAggregate(m, at, now, src);
    ScanAggregateAttained(m, at, now, src);
  }

  /** One step of the scan: the effect of item i on the scan of the items before it. */
  lemma ScanStep<K>(m: map<K, nat>, at: Option<nat>, now: nat, src: seq<Item<K>>, i: nat)
    requires i < |src|
    ensures var s := Scan(m, at, now, src[..i]);
            var d := src[i];
            Scan(m, at, now, src[..i + 1])
            == if d.key !in s.snap then
                 Scanned(s.snap[d.key := d.stamp], Raise(s.at, s.now + 1), s.now + 1, s.entered + [d], s.updated)
               else if s.snap[d.key] < d.stamp then
                 Scanned(s.snap[d.key := d.stamp], Raise(s.at, d.stamp), s.now, s.entered, s.updated + [d])
               else s
    ensures KeysOf(src[..i + 1]) == KeysOf(src[..i]) + {src[i].key}
  {
    assert src[..i + 1][..i] == src[..i];
    assert src[..i + 1] == src[..i] + [src[i]];
  }

  /** Log `after` is `before` followed by each key of `keys` once, in some order. */
  ghost predicate Appended<K>(before: seq<K>, after: seq<K>, keys: set<K>) {
    |before| <= |after| && after[..|before|] == before && multiset(after[|before|..]) == multiset(keys)
  }

  /** Python's `max` over the remembered timestamps, None for none. */
  method MaxStamp<K(==)>(m: map<K, nat>) returns (r: Option<nat>)
    ensures r.None? <==> m == map[]
    ensures r.Some? ==> r.value in m.Values && forall k <- m.Keys :: m[k] <= r.value
  {
    r := None;
    var rest := m.Keys;
    while rest != {}
      invariant rest <= m.Keys
      invariant r.None? <==> rest == m.Keys
      invariant r.Some? ==> r.value in m.Values && forall k <- m.Keys - rest :: m[k] <= r.value
      decreases |rest|
    {
      var k :| k in rest;
      if r.None? || r.value < m[k] {
        r := Some(m[k]);
      }
      rest := rest - {k};
    }
    if m.Keys == {} {
      assert m == map[];
    }
  }

  class Enumerator<K(==)> {
    /** `_key_updated_at_map`. */
    var snapshot: map<K, nat>
    /** `_updated_at`. */
    var updatedAt: Option<nat>
    /** The arguments of the `enter`, `update` and `exit` hooks, in call order. */
    var entered: seq<Item<K>>
    var updated: seq<Item<K>>
    var exited: seq<K>

    /** An absent initial map is the empty map; an absent aggregate is the
        largest initial timestamp, or None for an empty map. */
    constructor (initial: map<K, nat>, at: Option<nat>)
      ensures snapshot == initial && entered == [] && updated == [] && exited == []
      ensures at.Some? ==> updatedAt == at
      ensures at.None? ==> (updatedAt.None? <==> initial == map[])
      ensures at.None? && updatedAt.Some? ==>
                updatedAt.value in initial.Values && forall k <- initial.Keys :: initial[k] <= updatedAt.value
    {
      var newest := at;
      if at.None? {
        newest := MaxStamp(initial);
      }
      snapshot := initial;
      updatedAt := newest;
      entered := [];
      updated := [];
      exited := [];
    }

    method TryUpdateUpdatedAt(t: nat)
      modifies this
      ensures updatedAt == Raise(old(updatedAt), t)
      ensures snapshot == old(snapshot) && entered == old(entered) && updated == old(updated) && exited == old(exited)
    {
      if updatedAt.None? || updatedAt.value < t {
        updatedAt := Some(t);
      }
    }

    /** `add`: `enter`, remember the item's timestamp, raise the aggregate
        to a fresh clock reading (`get_addition_dt`). */
    method Add(x: Item<K>, clock: Clock)
      modifies this, clock
      ensures entered == old(entered) + [x] && updated == old(updated) && exited == old(exited)
      ensures snapshot == old(snapshot)[x.key := x.stamp]
      ensures clock.now == old(clock.now) + 1 && updatedAt == Raise(old(updatedAt), clock.now)
    {
      entered := entered + [x];
      snapshot := snapshot[x.key := x.stamp];
      var t := clock.Read();
      TryUpdateUpdatedAt(t);
    }

    /** `update_value`: `update`, remember the item's timestamp, raise the
        aggregate to it. */
    method UpdateValue(x: Item<K>)
      modifies this
      ensures updated == old(updated) + [x] && entered == old(entered) && exited == old(exited)
      ensures snapshot == old(snapshot)[x.key := x.stamp]
      ensures updatedAt == Raise(old(updatedAt), x.stamp)
    {
      updated := updated + [x];
      snapshot := snapshot[x.key := x.stamp];
      TryUpdateUpdatedAt(x.stamp);
    }

    /** `discard`: `exit` is called first; forgetting a key that is not
        tracked then raises KeyError, otherwise the aggregate is raised to
        a fresh clock reading (`get_deletion_dt`). */
    method Discard(k: K, clock: Clock) returns (r: Result<()>)
      modifies this, clock
      ensures exited == old(exited) + [k] && entered == old(entered) && updated == old(updated)
      ensures r.Ok? <==> k in old(snapshot)
      ensures r.Err? ==> r.error == KeyError && snapshot == old(snapshot) && updatedAt == old(updatedAt)
                         && clock.now == old(clock.now)
      ensures r.Ok? ==> snapshot == old(snapshot) - {k} && clock.now == old(clock.now) + 1
                        && updatedAt == Raise(old(updatedAt), clock.now)
    {
      exited := exited + [k];
      if k !in snapshot {
        return Err(KeyError);
      }
      snapshot := snapshot - {k};
      var t := clock.Read();
      TryUpdateUpdatedAt(t);
      r := Ok(());
    }

    /** `_try_update`: the reconciliation of the snapshot with the enumeration src. */
    method TryUpdate(src: seq<Item<K>>, clock: Clock)
      modifies this, clock
      ensures var r := Reconcile(old(snapshot), old(updatedAt), old(clock.now), src);
              && snapshot == r.snap && updatedAt == r.at && clock.now == r.now
              && entered == old(entered) + r.entered && updated == old(updated) + r.updated
              && Appended(old(exited), exited, r.exited)
    {
      ghost var s := Scan(snapshot, updatedAt, clock.now, src);
      ReconcileFromScan(snapshot, updatedAt, clock.now, src, s);
      var unchecked := ScanAll(src, clock);
      DiscardAll(unchecked, clock);
    }

    /** The first loop of `_try_update`; returns the keys it did not meet. */
    method ScanAll(src: seq<Item<K>>, clock: Clock) returns (unchecked: set<K>)
      modifies this, clock
      ensures var s := Scan(old(snapshot), old(updatedAt), old(clock.now), src);
              && snapshot == s.snap && updatedAt == s.at && clock.now == s.now
              && entered == old(entered) + s.entered && updated == old(updated) + s.updated
      ensures exited == old(exited)
      ensures unchecked == old(snapshot).Keys - KeysOf(src)
    {
      unchecked := snapshot.Keys;
      var i := 0;
      while i < |src|
        invariant 0 <= i <= |src|
        invariant var s := Scan(old(snapshot), old(updatedAt), old(clock.now), src[..i]);
                  && snapshot == s.snap && updatedAt == s.at && clock.now == s.now
                  && entered == old(entered) + s.entered && updated == old(updated) + s.updated
        invariant exited == old(exited)
        invariant unchecked == old(snapshot).Keys - KeysOf(src[..i])
      {
        var d := src[i];
        ScanStep(old(snapshot), old(updatedAt), old(clock.now), src, i);
        ghost var next := Scan(old(snapshot), old(updatedAt), old(clock.now), src[..i + 1]);
        if d.key !in snapshot {
          Add(d, clock);
        } else if snapshot[d.key] < d.stamp {
          UpdateValue(d);
        }
        assert snapshot == next.snap && updatedAt == next.at && clock.now == next.now;
        unchecked := unchecked - {d.key};
        i := i + 1;
      }
      assert src[..|src|] == src;
    }

    /** The second loop of `_try_update`: `discard` of every unchecked key,
        in an unspecified order. */
    method DiscardAll(unchecked: set<K>, clock: Clock)
      requires unchecked <= snapshot.Keys
      modifies this, clock
      ensures snapshot == old(snapshot) - unchecked
      ensures clock.now == old(clock.now) + |unchecked|
      ensures updatedAt == AfterDiscards(old(updatedAt), old(clock.now), |unchecked|)
      ensures entered == old(entered) && updated == old(updated)
      ensures Appended(old(exited), exited, unchecked)
    {
      var rest := unchecked;
      ghost var done: set<K> := {};
      ghost var order: seq<K> := [];
      while rest != {}
        invariant rest <= unchecked && done == unchecked - rest
        invariant snapshot == old(snapshot) - done
        invariant clock.now == old(clock.now) + |order|
        invariant updatedAt == AfterDiscards(old(updatedAt), old(clock.now), |order|)
        invariant entered == old(entered) && updated == old(updated)
        invariant exited == old(exited) + order
        invariant multiset(order) == multiset(done)
        decreases |rest|
      {
        var k :| k in rest;
        var ok := Discard(k, clock);
        OneMoreDiscard(old(updatedAt), old(clock.now), |order|);
        rest := rest - {k};
        done := done + {k};
        order := order + [k];
      }
      assert exited[|old(exited)|..] == order;
      assert |order| == |multiset(done)| == |unchecked|;
    }

    /** `updated_at`: reconciles, then returns the aggregate. */
    method UpdatedAt(src: seq<Item<K>>, clock: Clock) returns (r: Option<nat>)
      modifies this, clock
      ensures r == updatedAt
      ensures var R := Reconcile(old(snapshot), old(updatedAt), old(clock.now), src);
              && snapshot == R.snap && updatedAt == R.at && clock.now == R.now
              && entered == old(entered) + R.entered && updated == old(updated) + R.updated
              && Appended(old(exited), exited, R.exited)
    {
      TryUpdate(src, clock);
      r := updatedAt;
    }
  }
}
