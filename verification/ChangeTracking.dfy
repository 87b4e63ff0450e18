/** The coalescing of object events into pending changes, for services and endpoints alike.

    An object is projected onto the entries it contributes to an index. A pending change
    holds the projection at the last sync and the projection now. A nil Go map is `None`:
    deep equality distinguishes it from an empty map. */
module ChangeTracking {
  import opened ProxyTypes

  type Ports<V> = map<ServicePortName, V>

  type Projections<V> = map<NamespacedName, Option<Ports<V>>>

  datatype Change<V> = Change(previous: Option<Ports<V>>, current: Option<Ports<V>>)

  type Items<V> = map<NamespacedName, Change<V>>

  /** What ranging over a possibly nil map visits. */
  function Entries<V>(p: Option<Ports<V>>): Ports<V> {
    if p.Some? then p.value else map[]
  }

  function At<V>(p: Projections<V>, name: NamespacedName): Option<Ports<V>> {
    if name in p then p[name] else None
  }

  ghost predicate OwnedBy<V>(ports: Ports<V>, name: NamespacedName) {
    forall q :: q in ports ==> q.owner == name
  }

  /** Every entry an object contributes carries the object's own name. */
  ghost predicate WellNamed<V>(p: Projections<V>) {
    forall name :: name in p ==> OwnedBy(Entries(p[name]), name)
  }

  ghost predicate WellNamedItems<V>(items: Items<V>) {
    forall name :: name in items ==>
      && OwnedBy(Entries(items[name].previous), name)
      && OwnedBy(Entries(items[name].current), name)
  }

  /** The pending items are exactly the objects whose projection differs between the two
      moments, each with both projections. */
  ghost predicate Tracks<V>(items: Items<V>, base: Projections<V>, live: Projections<V>) {
    forall name ::
      Lookup(items, name) ==
      if At(base, name) == At(live, name) then None else Some(Change(At(base, name), At(live, name)))
  }

  /** One recorded event keeps the tracking, whatever happened to the object before. */
  lemma RecordKeepsTracking<V>(items: Items<V>, items': Items<V>, base: Projections<V>,
                               live: Projections<V>, live': Projections<V>, name: NamespacedName)
    requires Tracks(items, base, live)
    requires forall other :: other != name ==> At(live', other) == At(live, other)
    requires forall other :: other != name ==> Lookup(items', other) == Lookup(items, other)
    requires
      var before := if name in items then items[name].previous else At(live, name);
      Lookup(items', name) ==
      if before == At(live', name) then None else Some(Change(before, At(live', name)))
    ensures Tracks(items', base, live')
  {
    forall other
      ensures Lookup(items', other) ==
              if At(base, other) == At(live', other) then None
              else Some(Change(At(base, other), At(live', other)))
    {
      assert Lookup(items, other) ==
             if At(base, other) == At(live, other) then None
             else Some(Change(At(base, other), At(live, other)));
    }
  }

  /** The entries of all objects together. */
  ghost function Index<V>(p: Projections<V>): (m: Ports<V>)
    requires WellNamed(p)
    ensures forall q :: Lookup(m, q) == Lookup(Entries(At(p, q.owner)), q)
  {
    var names := set name, q | name in p && q in Entries(p[name]) :: q;
    map q | q in names :: Entries(p[q.owner])[q]
  }

  /** What applying the pending items to an index leaves under `q`. */
  function PatchedAt<V>(m: Ports<V>, items: Items<V>, q: ServicePortName): Option<V> {
    if q.owner !in items then Lookup(m, q)
    else if q in Entries(items[q.owner].current) then Some(Entries(items[q.owner].current)[q])
    else if q in Entries(items[q.owner].previous) then None
    else Lookup(m, q)
  }

  ghost predicate IsPatch<V>(m: Ports<V>, items: Items<V>, m': Ports<V>) {
    forall q :: Lookup(m', q) == PatchedAt(m, items, q)
  }

  /** The items say how two indexes differ: nothing else changed, and a changed object's
      entries are its two projections. */
  ghost predicate Covers<V>(items: Items<V>, m: Ports<V>, m': Ports<V>) {
    && WellNamedItems(items)
    && forall q: ServicePortName ::
      if q.owner in items then
        && Lookup(m, q) == Lookup(Entries(items[q.owner].previous), q)
        && Lookup(m', q) == Lookup(Entries(items[q.owner].current), q)
      else
        Lookup(m, q) == Lookup(m', q)
  }

  lemma TrackedItemsAreWellNamed<V>(items: Items<V>, base: Projections<V>, live: Projections<V>)
    requires Tracks(items, base, live) && WellNamed(base) && WellNamed(live)
    ensures WellNamedItems(items)
  {
    forall name | name in items
      ensures OwnedBy(Entries(items[name].previous), name)
      ensures OwnedBy(Entries(items[name].current), name)
    {
      assert Lookup(items, name) == Some(Change(At(base, name), At(live, name)));
    }
  }

  /** The incremental index agrees with the one built from scratch: patching the index of the
      last sync with the tracked items gives the index of the live objects. */
  lemma PatchReachesLive<V>(m: Ports<V>, items: Items<V>, m': Ports<V>,
                            base: Projections<V>, live: Projections<V>)
    requires WellNamed(base) && WellNamed(live)
    requires Tracks(items, base, live)
    requires m == Index(base)
    requires IsPatch(m, items, m')
    ensures m' == Index(live)
    ensures Covers(items, m, m')
  {
    TrackedItemsAreWellNamed(items, base, live);
    forall q
      ensures Lookup(m', q) == Lookup(Entries(At(live, q.owner)), q)
      ensures q.owner in items ==> Lookup(m, q) == Lookup(Entries(items[q.owner].previous), q)
      ensures q.owner in items ==> Lookup(m', q) == Lookup(Entries(items[q.owner].current), q)
      ensures q.owner !in items ==> Lookup(m, q) == Lookup(m', q)
    {
      var n := q.owner;
      assert Lookup(items, n) ==
             if At(base, n) == At(live, n) then None else Some(Change(At(base, n), At(live, n)));
      assert Lookup(m', q) == PatchedAt(m, items, q);
      assert Lookup(m, q) == Lookup(Entries(At(base, n)), q);
    }
    SameLookups(m', Index(live));
  }

  /** For one object: re-applying a change from `b` to `l` on top of the entries `a` of an
      aborted sync is harmless when the object is back at `b` and `a` had its entries already,
      or when the change mentions every entry that the aborted sync added. */
  ghost predicate HarmlessFor<V>(b: Option<Ports<V>>, a: Option<Ports<V>>, l: Option<Ports<V>>) {
    if b == l then Entries(a) == Entries(l)
    else Entries(a).Keys <= Entries(b).Keys + Entries(l).Keys
  }

  ghost predicate ReplayIsHarmless<V>(base: Projections<V>, applied: Projections<V>, live: Projections<V>) {
    forall name :: HarmlessFor(At(base, name), At(applied, name), At(live, name))
  }

  lemma ReplayAt<V>(items: Items<V>, m': Ports<V>, base: Projections<V>, applied: Projections<V>,
                    live: Projections<V>, q: ServicePortName)
    requires WellNamed(base) && WellNamed(applied) && WellNamed(live)
    requires Tracks(items, base, live)
    requires Lookup(m', q) == PatchedAt(Index(applied), items, q)
    ensures
      var b, a, l := At(base, q.owner), At(applied, q.owner), At(live, q.owner);
      Lookup(m', q) == Lookup(Entries(l), q) <==>
      if b == l then Lookup(Entries(a), q) == Lookup(Entries(l), q)
      else q in Entries(a) ==> q in Entries(b) || q in Entries(l)
  {
    var n := q.owner;
    assert Lookup(items, n) ==
           if At(base, n) == At(live, n) then None else Some(Change(At(base, n), At(live, n)));
    assert Lookup(Index(applied), q) == Lookup(Entries(At(applied, n)), q);
  }

  lemma HarmlessReplay<V>(items: Items<V>, m': Ports<V>, base: Projections<V>,
                          applied: Projections<V>, live: Projections<V>)
    requires WellNamed(base) && WellNamed(applied) && WellNamed(live)
    requires Tracks(items, base, live)
    requires IsPatch(Index(applied), items, m')
    requires ReplayIsHarmless(base, applied, live)
    ensures m' == Index(live)
  {
    forall q
      ensures Lookup(m', q) == Lookup(Index(live), q)
    {
      assert Lookup(m', q) == PatchedAt(Index(applied), items, q);
      ReplayAt(items, m', base, applied, live, q);
      assert HarmlessFor(At(base, q.owner), At(applied, q.owner), At(live, q.owner));
      assert Lookup(Index(live), q) == Lookup(Entries(At(live, q.owner)), q);
    }
    SameLookups(m', Index(live));
  }

  lemma FaithfulReplayIsHarmless<V>(items: Items<V>, m': Ports<V>, base: Projections<V>,
                                    applied: Projections<V>, live: Projections<V>, name: NamespacedName)
    requires WellNamed(base) && WellNamed(applied) && WellNamed(live)
    requires Tracks(items, base, live)
    requires IsPatch(Index(applied), items, m')
    requires m' == Index(live)
    ensures HarmlessFor(At(base, name), At(applied, name), At(live, name))
  {
    var b, a, l := At(base, name), At(applied, name), At(live, name);
    forall q
      ensures if b == l then Lookup(Entries(a), q) == Lookup(Entries(l), q)
              else q in Entries(a) ==> q in Entries(b) || q in Entries(l)
    {
      if q.owner == name {
        assert Lookup(m', q) == PatchedAt(Index(applied), items, q);
        assert Lookup(m', q) == Lookup(Entries(l), q);
        ReplayAt(items, m', base, applied, live, q);
      }
    }
    if b == l {
      SameLookups(Entries(a), Entries(l));
    }
  }

  /** A sync that applies the items and returns before clearing them leaves the index of
      `applied` behind items that still start at `base`. The next sync reaches the live index
      if and only if the replay is harmless for every object. */
  lemma ReplayReachesLiveIff<V>(items: Items<V>, m': Ports<V>, base: Projections<V>,
                                applied: Projections<V>, live: Projections<V>)
    requires WellNamed(base) && WellNamed(applied) && WellNamed(live)
    requires Tracks(items, base, live)
    requires IsPatch(Index(applied), items, m')
    ensures m' == Index(live) <==> ReplayIsHarmless(base, applied, live)
  {
    if ReplayIsHarmless(base, applied, live) {
      HarmlessReplay(items, m', base, applied, live);
    }
    if m' == Index(live) {
      forall name
        ensures HarmlessFor(At(base, name), At(applied, name), At(live, name))
      {
        FaithfulReplayIsHarmless(items, m', base, applied, live, name);
      }
    }
  }
}
