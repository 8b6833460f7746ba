/** What one tick does to the component stores, as functions: the bodies of
    events and processors, the filtered walk of an EntityProcessor over the
    live entities, and Manager.update running every processor in order. The
    Manager's methods are proved to compute exactly these. */
module Tick {
  import opened EcsTypes
  import opened Registry

  /** The stores after running some code, and whether it raised. As with a
      Python exception, a failure keeps the updates made before it. */
  datatype Effect = Effect(stores: Stores, outcome: Outcome)

  /** `s'` differs from `s` at most in the values of components held by the
      entities in `xs`: the same classes are held by the same entities, and
      every component keeps its class. */
  ghost predicate Within(s: Stores, s': Stores, xs: set<EntityId>)
  {
    && SameShape(s, s')
    && (forall t, x :: Holds(s, x, t) ==> s'[t][x].tag == s[t][x].tag)
    && (forall t, x :: x !in xs ==> Lookup(s', x, t) == Lookup(s, x, t))
  }

  /** The entities of `es` that hold every class in `needed`. */
  ghost function Matching(s: Stores, es: seq<EntityId>, needed: set<TypeTag>): set<EntityId>
  {
    set x | x in es && HoldsAll(s, x, needed)
  }

  /** `entity.get_component(t).value = v`: fails when `e` holds no `t`
      (the attribute access on None), otherwise only that value changes. */
  function SetValueOf(s: Stores, e: EntityId, t: TypeTag, v: Value): (r: Effect)
    ensures r.outcome == if Holds(s, e, t) then Pass else Fail(NoSuchComponent)
    ensures Holds(s, e, t) ==> Lookup(r.stores, e, t) == Some(s[t][e].(value := v))
    ensures forall t' :: t' != t ==> Lookup(r.stores, e, t') == Lookup(s, e, t')
    ensures Within(s, r.stores, {e})
    ensures r.outcome.Fail? ==> r.stores == s
  {
    if Holds(s, e, t) then Effect(s[t := s[t][e := s[t][e].(value := v)]], Pass)
    else Effect(s, Fail(NoSuchComponent))
  }

  /** `event.call(entity, v)` for the closed set of event bodies. */
  function CallEvent(ev: Event, s: Stores, e: EntityId, v: Value): (r: Effect)
    ensures ev.call.CallNotImplemented? ==> r == Effect(s, Fail(NotImplemented))
    ensures Within(s, r.stores, {e})
    ensures r.outcome.Fail? ==> r.stores == s
  {
    match ev.call
    case CallNotImplemented => Effect(s, Fail(NotImplemented))
    case SetComponentValue(t) => SetValueOf(s, e, t, v)
  }

  /** `processor.publish(et, entity, v)` on a bound processor whose manager
      has event store `events`: an unregistered class raises, otherwise the
      registered instance is called before publish returns. */
  function PublishEvent(events: map<TypeTag, Event>, s: Stores, et: TypeTag, e: EntityId, v: Value): (r: Effect)
    ensures et !in events ==> r == Effect(s, Fail(UnregisteredEvent))
    ensures et in events ==> r == CallEvent(events[et], s, e, v)
    ensures Within(s, r.stores, {e})
  {
    if et in events then CallEvent(events[et], s, e, v) else Effect(s, Fail(UnregisteredEvent))
  }

  /** `update_entity(delta, entity)` for the closed set of bodies. */
  function RunEntity(a: EntityAction, events: map<TypeTag, Event>, s: Stores, e: EntityId): (r: Effect)
    ensures Within(s, r.stores, {e})
    ensures r.outcome.Fail? ==> r.stores == s
  {
    match a
    case UpdateEntityNotImplemented => Effect(s, Fail(NotImplemented))
    case SetValue(t, v) => SetValueOf(s, e, t, v)
    case Publish(et, v) => PublishEvent(events, s, et, e, v)
  }

  /** The walk of an EntityProcessor: every entity of `es`, in order, that
      holds all `needed` classes gets `a`; the first failure stops the walk.
      Entities that do not match are left exactly as they were. */
  function RunOverEntities(a: EntityAction, needed: set<TypeTag>, events: map<TypeTag, Event>,
                           s: Stores, es: seq<EntityId>): (r: Effect)
    ensures Within(s, r.stores, Matching(s, es, needed))
    decreases |es|
  {
    if es == [] then Effect(s, Pass)
    else
      var first := if HoldsAll(s, es[0], needed) then RunEntity(a, events, s, es[0]) else Effect(s, Pass);
      if first.outcome.Fail? then first
      else
        var r := RunOverEntities(a, needed, events, first.stores, es[1..]);
        assert Matching(first.stores, es[1..], needed) <= Matching(s, es, needed) by {
          forall x | x in Matching(first.stores, es[1..], needed)
            ensures x in Matching(s, es, needed)
          {
            SameShapeHoldsAll(s, first.stores, x, needed);
          }
        }
        r
  }

  /** `processor.update(delta)` for a processor bound to a manager whose
      live entities are `es`. A plain processor with its own update visits
      every live entity; the base update raises. */
  function RunProcessor(p: Processor, events: map<TypeTag, Event>, s: Stores, es: seq<EntityId>): (r: Effect)
    ensures Within(s, r.stores, set x | x in es)
  {
    match p
    case Plain(UpdateNotImplemented) => Effect(s, Fail(NotImplemented))
    case Plain(EachEntity(a)) => RunOverEntities(a, {}, events, s, es)
    case Filtered(needed, a) => RunOverEntities(a, needed, events, s, es)
  }

  /** `manager.update(delta)`: every processor of `ps` in registration
      order, stopping at the first one that raises. Only the values of
      components of live entities can change. */
  function RunAll(ps: seq<Processor>, events: map<TypeTag, Event>, s: Stores, es: seq<EntityId>): (r: Effect)
    ensures Within(s, r.stores, set x | x in es)
    decreases |ps|
  {
    if ps == [] then Effect(s, Pass)
    else
      var first := RunProcessor(ps[0], events, s, es);
      if first.outcome.Fail? then first else RunAll(ps[1..], events, first.stores, es)
  }

  /** A walk over a single entity applies the body to it exactly when it
      matches. */
  lemma WalkOne(a: EntityAction, needed: set<TypeTag>, events: map<TypeTag, Event>, s: Stores, e: EntityId)
    ensures RunOverEntities(a, needed, events, s, [e])
         == if HoldsAll(s, e, needed) then RunEntity(a, events, s, e) else Effect(s, Pass)
  {
    assert [e][1..] == [];
  }

  /** A tick with a single registered processor is that processor's update. */
  lemma RunAllOne(p: Processor, events: map<TypeTag, Event>, s: Stores, es: seq<EntityId>)
    ensures RunAll([p], events, s, es) == RunProcessor(p, events, s, es)
  {
    assert [p][1..] == [];
  }

  /** One more step of a walk that has not raised: the walk over the next
      prefix is the body applied (if it matches) to the next entity. */
  lemma WalkStep(a: EntityAction, needed: set<TypeTag>, events: map<TypeTag, Event>, s0: Stores,
                 es: seq<EntityId>, i: nat, before: Stores, after: Effect)
    requires i < |es|
    requires RunOverEntities(a, needed, events, s0, es[..i]) == Effect(before, Pass)
    requires after == if HoldsAll(before, es[i], needed) then RunEntity(a, events, before, es[i])
                      else Effect(before, Pass)
    ensures RunOverEntities(a, needed, events, s0, es[..i + 1]) == after
  {
    RunOverEntitiesAppend(a, needed, events, s0, es[..i], [es[i]]);
    assert es[..i + 1] == es[..i] + [es[i]];
    WalkOne(a, needed, events, before, es[i]);
  }

  /** A walk whose prefix raised, or that reached the end, is over. */
  lemma WalkDone(a: EntityAction, needed: set<TypeTag>, events: map<TypeTag, Event>, s0: Stores,
                 es: seq<EntityId>, i: nat)
    requires i <= |es|
    requires i < |es| ==> RunOverEntities(a, needed, events, s0, es[..i]).outcome.Fail?
    ensures RunOverEntities(a, needed, events, s0, es) == RunOverEntities(a, needed, events, s0, es[..i])
  {
    RunOverEntitiesAppend(a, needed, events, s0, es[..i], es[i..]);
    assert es[..i] + es[i..] == es;
  }

  /** One more processor of a tick that has not raised. */
  lemma TickStep(ps: seq<Processor>, events: map<TypeTag, Event>, s0: Stores, es: seq<EntityId>,
                 i: nat, before: Stores, after: Effect)
    requires i < |ps|
    requires RunAll(ps[..i], events, s0, es) == Effect(before, Pass)
    requires after == RunProcessor(ps[i], events, before, es)
    ensures RunAll(ps[..i + 1], events, s0, es) == after
  {
    RunAllAppend(ps[..i], [ps[i]], events, s0, es);
    assert ps[..i + 1] == ps[..i] + [ps[i]];
    RunAllOne(ps[i], events, before, es);
  }

  /** A tick whose prefix raised, or that ran every processor, is over. */
  lemma TickDone(ps: seq<Processor>, events: map<TypeTag, Event>, s0: Stores, es: seq<EntityId>, i: nat)
    requires i <= |ps|
    requires i < |ps| ==> RunAll(ps[..i], events, s0, es).outcome.Fail?
    ensures RunAll(ps, events, s0, es) == RunAll(ps[..i], events, s0, es)
  {
    RunAllAppend(ps[..i], ps[i..], events, s0, es);
    assert ps[..i] + ps[i..] == ps;
  }

  /** Walking `es1 + es2` is walking `es1`, then, unless it raised, `es2`
      from where `es1` left the stores. */
  lemma {:induction false} RunOverEntitiesAppend(a: EntityAction, needed: set<TypeTag>,
                                                 events: map<TypeTag, Event>, s: Stores,
                                                 es1: seq<EntityId>, es2: seq<EntityId>)
    ensures RunOverEntities(a, needed, events, s, es1 + es2)
         == (var r1 := RunOverEntities(a, needed, events, s, es1);
             if r1.outcome.Fail? then r1 else RunOverEntities(a, needed, events, r1.stores, es2))
    decreases |es1|
  {
    if es1 == [] {
      assert es1 + es2 == es2;
    } else {
      assert (es1 + es2)[0] == es1[0];
      assert (es1 + es2)[1..] == es1[1..] + es2;
      var first := if HoldsAll(s, es1[0], needed) then RunEntity(a, events, s, es1[0]) else Effect(s, Pass);
      if first.outcome.Pass? {
        RunOverEntitiesAppend(a, needed, events, first.stores, es1[1..], es2);
      }
    }
  }

  /** Running `ps1 + ps2` is running `ps1`, then, unless it raised, `ps2`:
      processors registered first run first. */
  lemma {:induction false} RunAllAppend(ps1: seq<Processor>, ps2: seq<Processor>,
                                        events: map<TypeTag, Event>, s: Stores, es: seq<EntityId>)
    ensures RunAll(ps1 + ps2, events, s, es)
         == (var r1 := RunAll(ps1, events, s, es);
             if r1.outcome.Fail? then r1 else RunAll(ps2, events, r1.stores, es))
    decreases |ps1|
  {
    if ps1 == [] {
      assert ps1 + ps2 == ps2;
    } else {
      assert (ps1 + ps2)[0] == ps1[0];
      assert (ps1 + ps2)[1..] == ps1[1..] + ps2;
      var first := RunProcessor(ps1[0], events, s, es);
      if first.outcome.Pass? {
        RunAllAppend(ps1[1..], ps2, events, first.stores, es);
      }
    }
  }

  /** A walk that sets class `t` to `v` succeeds when every matching
      entity holds a `t`, and afterwards every matching entity's `t` has
      value `v` (its other components are untouched, by the contract of
      RunOverEntities and SetValueOf). */
  lemma {:induction false} SetValueReachesEveryMatch(t: TypeTag, v: Value, needed: set<TypeTag>,
                                                     events: map<TypeTag, Event>, s: Stores,
                                                     es: seq<EntityId>)
    requires forall x :: x in es && HoldsAll(s, x, needed) ==> Holds(s, x, t)
    ensures RunOverEntities(SetValue(t, v), needed, events, s, es).outcome == Pass
    ensures forall x :: x in es && HoldsAll(s, x, needed) ==>
              Lookup(RunOverEntities(SetValue(t, v), needed, events, s, es).stores, x, t)
              == Some(s[t][x].(value := v))
    decreases |es|
  {
    if es != [] {
      var e := es[0];
      var first := if HoldsAll(s, e, needed) then SetValueOf(s, e, t, v) else Effect(s, Pass);
      var s1 := first.stores;
      forall x | x in es[1..] && HoldsAll(s1, x, needed) ensures Holds(s1, x, t) {
        SameShapeHoldsAll(s, s1, x, needed);
      }
      SetValueReachesEveryMatch(t, v, needed, events, s1, es[1..]);
      var r := RunOverEntities(SetValue(t, v), needed, events, s, es);
      forall x | x in es && HoldsAll(s, x, needed)
        ensures Lookup(r.stores, x, t) == Some(s[t][x].(value := v))
      {
        SameShapeHoldsAll(s, s1, x, needed);
        if x != e {
          assert x in es[1..];
        } else if x !in es[1..] {
          assert x !in Matching(s1, es[1..], needed);
        }
      }
    }
  }

  /** Publishing an event whose registered instance sets class `t` does to
      every visited entity what setting `t` directly does. */
  lemma {:induction false} PublishActsAsSetValue(et: TypeTag, t: TypeTag, v: Value, needed: set<TypeTag>,
                                                 events: map<TypeTag, Event>, s: Stores,
                                                 es: seq<EntityId>)
    requires et in events && events[et].call == SetComponentValue(t)
    ensures RunOverEntities(Publish(et, v), needed, events, s, es)
         == RunOverEntities(SetValue(t, v), needed, events, s, es)
    decreases |es|
  {
    if es != [] {
      var first := if HoldsAll(s, es[0], needed) then SetValueOf(s, es[0], t, v) else Effect(s, Pass);
      PublishActsAsSetValue(et, t, v, needed, events, first.stores, es[1..]);
    }
  }

  /** The bodies that raise on every entity without touching anything:
      the base update_entity, a publish of an unregistered event, and a
      publish of an event whose call is the base one. */
  predicate AlwaysRaises(a: EntityAction, events: map<TypeTag, Event>, err: Error)
  {
    match a
    case UpdateEntityNotImplemented => err == NotImplemented
    case SetValue(_, _) => false
    case Publish(et, _) =>
      if et in events then events[et].call.CallNotImplemented? && err == NotImplemented
      else err == UnregisteredEvent
  }

  /** A walk with a body that always raises raises exactly when some entity
      matches, and changes nothing either way. */
  lemma {:induction false} AlwaysRaisingWalk(a: EntityAction, needed: set<TypeTag>,
                                             events: map<TypeTag, Event>, err: Error,
                                             s: Stores, es: seq<EntityId>)
    requires AlwaysRaises(a, events, err)
    ensures RunOverEntities(a, needed, events, s, es)
         == Effect(s, if exists x :: x in es && HoldsAll(s, x, needed) then Fail(err) else Pass)
    decreases |es|
  {
    if es != [] {
      if !HoldsAll(s, es[0], needed) {
        AlwaysRaisingWalk(a, needed, events, err, s, es[1..]);
        assert (exists x :: x in es && HoldsAll(s, x, needed))
           <==> (exists x :: x in es[1..] && HoldsAll(s, x, needed));
      } else {
        assert es[0] in es && HoldsAll(s, es[0], needed);
      }
    }
  }
}
