/** The per-class component stores of a Manager, as values: for every
    component class, a map from entity id to the component it holds. */
module Registry {
  import opened EcsTypes

  type EntityId = nat

  type Stores = map<TypeTag, map<EntityId, Component>>

  /** The component of class `t` stored for `e`, if any (get_component). */
  function Lookup(s: Stores, e: EntityId, t: TypeTag): (r: Option<Component>)
    ensures r.Some? <==> Holds(s, e, t)
    ensures WellTagged(s) && r.Some? ==> r.value.tag == t
  {
    if t in s && e in s[t] then Some(s[t][e]) else None
  }

  /** `e` holds a component of exactly class `t`. */
  predicate Holds(s: Stores, e: EntityId, t: TypeTag)
  {
    t in s && e in s[t]
  }

  /** `e` holds a component of every class in `ts`; true for empty `ts`. */
  predicate HoldsAll(s: Stores, e: EntityId, ts: set<TypeTag>)
  {
    forall t :: t in ts ==> Holds(s, e, t)
  }

  /** Every stored component sits in the store of its own class. */
  ghost predicate WellTagged(s: Stores)
  {
    forall t, e :: t in s && e in s[t] ==> s[t][e].tag == t
  }

  /** Two stores hold components of the same classes for the same entities;
      only the component values may differ. */
  ghost predicate SameShape(s: Stores, s': Stores)
  {
    s.Keys == s'.Keys && forall t :: t in s ==> s[t].Keys == s'[t].Keys
  }

  /** The entities that hold at least one component. */
  ghost function Owners(s: Stores): set<EntityId>
  {
    set t, e | t in s && e in s[t] :: e
  }

  /** add_component: store `c` for `e` under its own class, replacing any
      earlier component of that class; nothing else changes. */
  function Put(s: Stores, e: EntityId, c: Component): (r: Stores)
    ensures Lookup(r, e, c.tag) == Some(c)
    ensures forall t, x :: t != c.tag || x != e ==> Lookup(r, x, t) == Lookup(s, x, t)
    ensures WellTagged(s) ==> WellTagged(r)
    ensures Owners(r) == Owners(s) + {e}
  {
    var r := s[c.tag := (if c.tag in s then s[c.tag] else map[])[e := c]];
    assert Owners(r) == Owners(s) + {e} by {
      forall x | x in Owners(s) ensures x in Owners(r) {
        var t :| t in s && x in s[t];
        assert t in r && x in r[t];
      }
      assert c.tag in r && e in r[c.tag];
    }
    r
  }

  /** del_component: drop the component of class `t` held by `e`; when `e`
      holds none, the stores are left exactly as they were. */
  function Remove(s: Stores, e: EntityId, t: TypeTag): (r: Stores)
    ensures Lookup(r, e, t) == None
    ensures forall t', x :: t' != t || x != e ==> Lookup(r, x, t') == Lookup(s, x, t')
    ensures !Holds(s, e, t) ==> r == s
    ensures WellTagged(s) ==> WellTagged(r)
    ensures Owners(r) <= Owners(s)
  {
    if t in s then
      assert e !in s[t] ==> s[t] - {e} == s[t];
      s[t := s[t] - {e}]
    else s
  }

  /** The purge done by kill_entity: `e` holds nothing afterwards, every
      other entity keeps exactly what it held. */
  function Purge(s: Stores, e: EntityId): (r: Stores)
    ensures forall t :: Lookup(r, e, t) == None
    ensures forall t, x :: x != e ==> Lookup(r, x, t) == Lookup(s, x, t)
    ensures r.Keys == s.Keys
    ensures Owners(r) == Owners(s) - {e}
    ensures WellTagged(s) ==> WellTagged(r)
  {
    var r := map t | t in s :: s[t] - {e};
    assert Owners(r) == Owners(s) - {e} by {
      forall x | x in Owners(s) && x != e ensures x in Owners(r) {
        var t :| t in s && x in s[t];
        assert x in r[t];
      }
    }
    r
  }

  /** The components of class `t` held by the entities of `es`, in the order
      of `es`, one for each entity that holds one (components_by_type). */
  function ComponentsOf(s: Stores, t: TypeTag, es: seq<EntityId>): (r: seq<Component>)
    ensures |r| <= |es|
    decreases |es|
  {
    if es == [] then []
    else
      var rest := ComponentsOf(s, t, es[..|es| - 1]);
      var x := es[|es| - 1];
      if Holds(s, x, t) then rest + [s[t][x]] else rest
  }

  /** The components listed are exactly those of the holders in `es`: each
      holder's component is listed, each listed one is some holder's, and
      in well-tagged stores each has class `t`. */
  lemma {:induction false} ComponentsOfHolders(s: Stores, t: TypeTag, es: seq<EntityId>)
    ensures forall x :: x in es && Holds(s, x, t) ==> s[t][x] in ComponentsOf(s, t, es)
    ensures forall c :: c in ComponentsOf(s, t, es) ==> exists x :: x in es && Lookup(s, x, t) == Some(c)
    ensures WellTagged(s) ==> forall c :: c in ComponentsOf(s, t, es) ==> c.tag == t
    decreases |es|
  {
    if es != [] {
      var init := es[..|es| - 1];
      var last := es[|es| - 1];
      ComponentsOfHolders(s, t, init);
      assert es == init + [last];
      forall c | c in ComponentsOf(s, t, es) ensures exists x :: x in es && Lookup(s, x, t) == Some(c) {
        if c in ComponentsOf(s, t, init) {
          var x :| x in init && Lookup(s, x, t) == Some(c);
          assert x in es;
        } else {
          assert Lookup(s, last, t) == Some(c);
        }
      }
    }
  }

  /** No entity occurs twice in `es`. */
  predicate NoRepeats(es: seq<EntityId>)
  {
    forall i, j :: 0 <= i < j < |es| ==> es[i] != es[j]
  }

  /** Over entities listed once each, the listing has exactly one
      component per holder of class `t`. */
  lemma {:induction false} ComponentsOfCount(s: Stores, t: TypeTag, es: seq<EntityId>)
    requires NoRepeats(es)
    ensures |ComponentsOf(s, t, es)| == |set x | x in es && Holds(s, x, t)|
    decreases |es|
  {
    if es != [] {
      var init := es[..|es| - 1];
      var last := es[|es| - 1];
      assert es == init + [last];
      ComponentsOfCount(s, t, init);
      assert NoRepeats(init) && last !in init;
      var before := set x | x in init && Holds(s, x, t);
      if Holds(s, last, t) {
        assert (set x | x in es && Holds(s, x, t)) == before + {last};
      } else {
        assert (set x | x in es && Holds(s, x, t)) == before;
      }
    }
  }

  /** Stores of the same shape agree on which classes every entity holds. */
  lemma SameShapeHoldsAll(s: Stores, s': Stores, e: EntityId, ts: set<TypeTag>)
    requires SameShape(s, s')
    ensures HoldsAll(s, e, ts) <==> HoldsAll(s', e, ts)
  {
  }
}
