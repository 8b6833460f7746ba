/** The Manager, the Entity handles it hands out, and the operations of
    processors and events on them. A Manager owns every registry; an Entity
    or a processor reaches it through a back-reference that may be absent,
    and every operation that needs it raises Unbound when it is. */
module Ecs {
  import opened EcsTypes
  import opened Registry
  import opened Tick

  /** The ids of `es`, in order. */
  function Ids(es: seq<Entity>): seq<EntityId>
  {
    seq(|es|, i requires 0 <= i < |es| => es[i].id)
  }

  /** The ids of `es`, as a set. */
  ghost function IdSet(es: seq<Entity>): set<EntityId>
  {
    set i | 0 <= i < |es| :: es[i].id
  }

  /** No two entities of `es` share an id. */
  ghost predicate DistinctIds(es: seq<Entity>)
  {
    forall i, j :: 0 <= i < j < |es| ==> es[i].id != es[j].id
  }

  /** The search kill_entity makes for the entity to remove: the first
      position holding an entity with id `id`, or `|es|` when there is none. */
  method FindId(es: seq<Entity>, id: EntityId) returns (i: nat)
    ensures i <= |es|
    ensures i < |es| ==> es[i].id == id
    ensures forall k :: 0 <= k < i ==> es[k].id != id
  {
    i := 0;
    while i < |es| && es[i].id != id
      invariant i <= |es|
      invariant forall k :: 0 <= k < i ==> es[k].id != id
    {
      i := i + 1;
    }
  }

  /** The purge kill_entity makes, one class store at a time. */
  method PurgeStores(s: Stores, id: EntityId) returns (purged: Stores)
    ensures purged == Purge(s, id)
  {
    var tags := s.Keys;
    purged := s;
    while tags != {}
      invariant tags <= s.Keys && purged.Keys == s.Keys
      invariant forall t :: t in purged ==> purged[t] == if t in tags then s[t] else s[t] - {id}
      decreases tags
    {
      var t :| t in tags;
      purged := purged[t := s[t] - {id}];
      tags := tags - {t};
    }
  }

  /** Taking the entity at position `i` out of entities with distinct ids
      takes exactly its id out of their ids. */
  lemma RemoveAtIds(es: seq<Entity>, i: nat)
    requires i < |es| && DistinctIds(es)
    ensures DistinctIds(es[..i] + es[i + 1..])
    ensures IdSet(es[..i] + es[i + 1..]) == IdSet(es) - {es[i].id}
  {
    var rest := es[..i] + es[i + 1..];
    forall k | 0 <= k < |rest| ensures rest[k] == es[if k < i then k else k + 1] {
    }
    forall x | x in IdSet(es) && x != es[i].id ensures x in IdSet(rest) {
      var k :| 0 <= k < |es| && es[k].id == x;
      if k < i { assert rest[k].id == x; } else { assert rest[k - 1].id == x; }
    }
  }

  /** An entity: an id and the manager it belongs to (none for an entity
      built directly, as in `Entity(42)`). Its components live in that
      manager's stores. */
  class Entity {
    const id: EntityId
    const manager: Manager?

    /** `Entity(id)`: an entity no manager knows of. */
    constructor (id: EntityId)
      ensures this.id == id && manager == null
    {
      this.id := id;
      manager := null;
    }

    /** The entity `create_entity` makes for `manager`. */
    constructor Bound(id: EntityId, manager: Manager)
      ensures this.id == id && this.manager == manager
    {
      this.id := id;
      this.manager := manager;
    }

    /** `get_component(t)`: the component of exactly class `t`, if any. */
    function GetComponent(t: TypeTag): (r: Result<Option<Component>>)
      reads manager
      ensures r.Failure? <==> manager == null
      ensures r.Failure? ==> r.error == Unbound
      ensures manager != null ==> r.value == Lookup(manager.stores, id, t)
      ensures manager != null && manager.Valid() && r.Success? && r.value.Some? ==> r.value.value.tag == t
    {
      if manager == null then Failure(Unbound) else Success(Lookup(manager.stores, id, t))
    }

    /** `add_component(c)`: afterwards `get_component` of `c`'s class gives
        `c` back, and nothing else the manager holds has changed. */
    method AddComponent(c: Component) returns (r: Outcome)
      requires manager != null ==> manager.Valid()
      modifies manager
      ensures manager == null ==> r == Fail(Unbound)
      ensures manager != null ==> manager.Valid() && manager.Kept()
      ensures manager != null ==>
                r == (if manager.Tracks(this) then Pass else Fail(UnknownEntity))
                && manager.stores == if r.Pass? then Put(old(manager.stores), id, c) else old(manager.stores)
      ensures manager != null && manager.Tracks(this) ==> GetComponent(c.tag) == Success(Some(c))
    {
      if manager == null {
        r := Fail(Unbound);
      } else {
        r := manager.AddComponent(this, c);
      }
    }

    /** `del_component(t)`: afterwards there is no `t`; deleting a class the
        entity does not hold changes nothing and does not raise. */
    method DelComponent(t: TypeTag) returns (r: Outcome)
      requires manager != null ==> manager.Valid()
      modifies manager
      ensures manager == null ==> r == Fail(Unbound)
      ensures manager != null ==> r == Pass && manager.Valid() && manager.Kept()
      ensures manager != null ==> manager.stores == Remove(old(manager.stores), id, t)
      ensures manager != null ==> GetComponent(t) == Success(None)
      ensures manager != null && old(GetComponent(t)) == Success(None) ==> manager.stores == old(manager.stores)
    {
      if manager == null {
        r := Fail(Unbound);
      } else {
        manager.DelComponent(this, t);
        r := Pass;
      }
    }

    /** `entity.get_component(t).value = v`: raises when there is no
        manager, or no `t` (the attribute access on None). */
    method SetComponentValue(t: TypeTag, v: Value) returns (r: Outcome)
      requires manager != null ==> manager.Valid()
      modifies manager
      ensures manager == null ==> r == Fail(Unbound)
      ensures manager != null ==> manager.Valid() && manager.Kept()
      ensures manager != null ==> Effect(manager.stores, r) == SetValueOf(old(manager.stores), id, t, v)
    {
      if manager == null {
        r := Fail(Unbound);
      } else {
        r := manager.SetComponentValue(this, t, v);
      }
    }
  }

  /** The registry: live entities in creation order, one component store per
      class, the processors in registration order, and one event instance
      per event class. */
  class Manager {
    var nextId: EntityId
    var entities: seq<Entity>
    var stores: Stores
    var processors: seq<Processor>
    var eventStore: map<TypeTag, Event>

    /** The ids of the live entities. */
    ghost function LiveIds(): set<EntityId>
      reads this
    {
      IdSet(entities)
    }

    /** Live entities have distinct ids below `nextId` and belong to this
        manager; the stores only mention live entities, each component sits
        under its own class, and each event under its own class. */
    ghost predicate Valid()
      reads this
    {
      && DistinctIds(entities)
      && (forall i :: 0 <= i < |entities| ==> entities[i].manager == this && entities[i].id < nextId)
      && Owners(stores) <= LiveIds()
      && WellTagged(stores)
      && (forall et :: et in eventStore ==> eventStore[et].etype == et)
    }

    /** Only the component stores changed. */
    twostate predicate Kept()
      reads this
    {
      && entities == old(entities)
      && processors == old(processors)
      && eventStore == old(eventStore)
      && nextId == old(nextId)
    }

    /** `e` is live under this manager. */
    predicate Tracks(e: Entity)
      reads this
    {
      e.manager == this && e.id in Ids(entities)
    }

    constructor ()
      ensures Valid()
      ensures entities == [] && stores == map[] && processors == [] && eventStore == map[]
    {
      nextId := 0;
      entities := [];
      stores := map[];
      processors := [];
      eventStore := map[];
    }

    /** `create_entity()`: a new entity bound to this manager, with an id no
        entity of this manager was ever given (every earlier id, live or
        killed, is below `nextId`), added at the end of the live entities. */
    method CreateEntity() returns (e: Entity)
      requires Valid()
      modifies this
      ensures Valid() && fresh(e)
      ensures e.manager == this && e.id !in old(LiveIds())
      ensures e.id == old(nextId) && nextId == old(nextId) + 1
      ensures entities == old(entities) + [e]
      ensures stores == old(stores) && processors == old(processors) && eventStore == old(eventStore)
    {
      e := new Entity.Bound(nextId, this);
      ghost var old_live := LiveIds();
      entities := entities + [e];
      nextId := nextId + 1;
      assert old_live <= LiveIds() by {
        forall x | x in old_live ensures x in LiveIds() {
          var k :| 0 <= k < |old(entities)| && old(entities)[k].id == x;
          assert entities[k].id == x;
        }
      }
    }

    /** `kill_entity(e)`: raises UnknownEntity when `e` is not live here;
        otherwise `e` leaves the live entities (the others keep their order)
        and every store forgets it. */
    method KillEntity(e: Entity) returns (r: Outcome)
      requires Valid()
      modifies this
      ensures Valid()
      ensures r == if old(Tracks(e)) then Pass else Fail(UnknownEntity)
      ensures r.Fail? ==> entities == old(entities) && stores == old(stores)
      ensures r.Pass? ==> exists i :: 0 <= i < |old(entities)| && old(entities)[i].id == e.id
                                      && entities == old(entities)[..i] + old(entities)[i + 1..]
      ensures r.Pass? ==> stores == Purge(old(stores), e.id) && e.id !in LiveIds()
      ensures processors == old(processors) && eventStore == old(eventStore) && nextId == old(nextId)
    {
      if e.manager != this {
        return Fail(UnknownEntity);
      }
      var i := FindId(entities, e.id);
      if i == |entities| {
        assert e.id !in Ids(entities);
        return Fail(UnknownEntity);
      }
      assert Ids(entities)[i] == e.id;
      stores := PurgeStores(stores, e.id);
      RemoveAtIds(entities, i);
      entities := entities[..i] + entities[i + 1..];
      r := Pass;
    }

    /** The manager side of `entity.add_component(c)`: only a live entity
        can receive a component, so the stores keep mentioning live
        entities only. */
    method AddComponent(e: Entity, c: Component) returns (r: Outcome)
      requires Valid()
      modifies this
      ensures Valid() && Kept()
      ensures r == if Tracks(e) then Pass else Fail(UnknownEntity)
      ensures stores == if r.Pass? then Put(old(stores), e.id, c) else old(stores)
    {
      if Tracks(e) {
        assert e.id in LiveIds();
        stores := Put(stores, e.id, c);
        r := Pass;
      } else {
        r := Fail(UnknownEntity);
      }
    }

    /** The manager side of `entity.del_component(t)`. */
    method DelComponent(e: Entity, t: TypeTag)
      requires Valid()
      modifies this
      ensures Valid() && Kept()
      ensures stores == Remove(old(stores), e.id, t)
    {
      stores := Remove(stores, e.id, t);
    }

    /** The manager side of `entity.get_component(t).value = v`. */
    method SetComponentValue(e: Entity, t: TypeTag, v: Value) returns (r: Outcome)
      requires Valid()
      modifies this
      ensures Valid() && Kept()
      ensures Effect(stores, r) == SetValueOf(old(stores), e.id, t, v)
    {
      var eff := SetValueOf(stores, e.id, t, v);
      stores, r := eff.stores, eff.outcome;
    }

    /** `components_by_type(t)`: the components stored under exactly class
        `t`, one per live entity holding one, in creation order. */
    method ComponentsByType(t: TypeTag) returns (cs: seq<Component>)
      requires Valid()
      ensures cs == ComponentsOf(stores, t, Ids(entities))
      ensures |cs| == |set x | x in Ids(entities) && Holds(stores, x, t)|
    {
      cs := [];
      ghost var ids := Ids(entities);
      for i := 0 to |entities|
        invariant cs == ComponentsOf(stores, t, ids[..i])
      {
        var e := entities[i];
        assert ids[..i + 1][..i] == ids[..i];
        if Holds(stores, e.id, t) {
          cs := cs + [stores[t][e.id]];
        }
      }
      assert ids[..|entities|] == ids;
      assert NoRepeats(ids) by {
        forall i, j | 0 <= i < j < |ids| ensures ids[i] != ids[j] {
          assert ids[i] == entities[i].id && ids[j] == entities[j].id;
        }
      }
      ComponentsOfCount(stores, t, ids);
    }

    /** `entities_by_types(ts)`: the live entities holding a component of
        every class in `ts` (all live entities for empty `ts`), each once,
        in creation order. */
    method EntitiesByTypes(ts: set<TypeTag>) returns (es: seq<Entity>)
      requires Valid()
      ensures forall e :: e in es <==> e in entities && HoldsAll(stores, e.id, ts)
      ensures forall i, j :: 0 <= i < j < |es| ==> es[i] != es[j]
    {
      es := [];
      for i := 0 to |entities|
        invariant forall e :: e in es <==> e in entities[..i] && HoldsAll(stores, e.id, ts)
        invariant forall a, b :: 0 <= a < b < |es| ==> es[a] != es[b]
      {
        var e := entities[i];
        assert entities[..i + 1] == entities[..i] + [e];
        if HoldsAll(stores, e.id, ts) {
          assert e !in entities[..i];
          es := es + [e];
        }
      }
      assert entities[..|entities|] == entities;
    }

    /** `add_processor(p)` and `p.register_to(manager)`: `p` goes after every
        processor registered before it. */
    method AddProcessor(p: Processor)
      requires Valid()
      modifies this
      ensures Valid()
      ensures processors == old(processors) + [p]
      ensures entities == old(entities) && stores == old(stores) && eventStore == old(eventStore)
      ensures nextId == old(nextId)
    {
      processors := processors + [p];
    }

    /** `add_event(ev)` and `ev.register_to(manager)`: `ev` becomes the one
        instance of its class, replacing an earlier one. */
    method AddEvent(ev: Event)
      requires Valid()
      modifies this
      ensures Valid()
      ensures eventStore == old(eventStore)[ev.etype := ev]
      ensures entities == old(entities) && stores == old(stores) && processors == old(processors)
      ensures nextId == old(nextId)
    {
      eventStore := eventStore[ev.etype := ev];
    }

    /** `update(delta)`: runs the processors in registration order on the
        calling thread, stopping at the first that raises; only the values
        of components of live entities can change. */
    method Update() returns (r: Outcome)
      requires Valid()
      modifies this
      ensures Valid() && Kept()
      ensures Effect(stores, r) == RunAll(processors, eventStore, old(stores), Ids(entities))
    {
      var ps := processors;
      ghost var s0 := stores;
      r := Pass;
      var i := 0;
      while i < |ps| && r.Pass?
        invariant 0 <= i <= |ps|
        invariant Valid() && Kept()
        invariant Effect(stores, r) == RunAll(ps[..i], eventStore, s0, Ids(entities))
      {
        ghost var before := stores;
        r := UpdateProcessor(ps[i], this);
        TickStep(ps, eventStore, s0, Ids(entities), i, before, Effect(stores, r));
        i := i + 1;
      }
      TickDone(ps, eventStore, s0, Ids(entities), i);
    }
  }

  /** `event.call(entity, v)`: the base call raises NotImplemented; the
      value-setting call raises Unbound for an entity without a manager. */
  method CallEventOn(ev: Event, e: Entity, v: Value) returns (r: Outcome)
    requires e.manager != null ==> e.manager.Valid()
    modifies e.manager
    ensures e.manager == null ==> r == Fail(if ev.call.CallNotImplemented? then NotImplemented else Unbound)
    ensures e.manager != null ==> e.manager.Valid() && e.manager.Kept()
    ensures e.manager != null ==> Effect(e.manager.stores, r) == CallEvent(ev, old(e.manager.stores), e.id, v)
  {
    match ev.call
    case CallNotImplemented =>
      r := Fail(NotImplemented);
    case SetComponentValue(t) =>
      r := e.SetComponentValue(t, v);
  }

  /** `processor.publish(et, entity, v)` for a processor whose manager is
      `handle`: raises Unbound without a manager, UnregisteredEvent when no
      instance of `et` was added, and otherwise calls that instance before
      returning. */
  method PublishFrom(handle: Manager?, et: TypeTag, e: Entity, v: Value) returns (r: Outcome)
    requires handle != null ==> handle.Valid()
    requires e.manager != null ==> e.manager.Valid()
    modifies e.manager
    ensures e.manager != null ==> e.manager.Valid() && e.manager.Kept()
    ensures handle == null ==> r == Fail(Unbound)
    ensures handle == null && e.manager != null ==> e.manager.stores == old(e.manager.stores)
    ensures handle != null && et !in old(handle.eventStore) ==> r == Fail(UnregisteredEvent)
    ensures handle != null && e.manager == null && et in old(handle.eventStore) ==>
              r == Fail(if old(handle.eventStore)[et].call.CallNotImplemented? then NotImplemented else Unbound)
    ensures handle != null && e.manager != null ==>
              Effect(e.manager.stores, r) == PublishEvent(old(handle.eventStore), old(e.manager.stores), et, e.id, v)
  {
    if handle == null {
      return Fail(Unbound);
    }
    if et !in handle.eventStore {
      return Fail(UnregisteredEvent);
    }
    r := CallEventOn(handle.eventStore[et], e, v);
  }

  /** `processor.update_entity(delta, entity)` for a processor whose manager
      is `handle`. The base body raises NotImplemented whatever the
      bindings; a publish needs the processor's manager, a value write the
      entity's. */
  method UpdateEntity(a: EntityAction, handle: Manager?, e: Entity) returns (r: Outcome)
    requires handle != null ==> handle.Valid()
    requires e.manager != null ==> e.manager.Valid()
    modifies e.manager
    ensures e.manager != null ==> e.manager.Valid() && e.manager.Kept()
    ensures a.UpdateEntityNotImplemented? ==> r == Fail(NotImplemented)
    ensures a.Publish? && handle == null ==> r == Fail(Unbound)
    ensures a.SetValue? && e.manager == null ==> r == Fail(Unbound)
    ensures e.manager != null && (handle != null || !a.Publish?) ==>
              Effect(e.manager.stores, r)
              == RunEntity(a, if handle != null then old(handle.eventStore) else map[], old(e.manager.stores), e.id)
    ensures a.Publish? && handle != null && e.manager == null ==>
              r == if a.event !in handle.eventStore then Fail(UnregisteredEvent)
                   else Fail(if handle.eventStore[a.event].call.CallNotImplemented? then NotImplemented else Unbound)
  {
    match a
    case UpdateEntityNotImplemented =>
      r := Fail(NotImplemented);
    case SetValue(t, v) =>
      r := e.SetComponentValue(t, v);
    case Publish(et, v) =>
      r := PublishFrom(handle, et, e, v);
  }

  /** One step of that walk: `e`, an entity of `m`, gets `a` when it holds
      every class in `needed`. */
  method VisitEntity(a: EntityAction, needed: set<TypeTag>, m: Manager, e: Entity) returns (r: Outcome)
    requires m.Valid() && e.manager == m
    modifies m
    ensures m.Valid() && m.Kept()
    ensures Effect(m.stores, r)
         == if HoldsAll(old(m.stores), e.id, needed) then RunEntity(a, m.eventStore, old(m.stores), e.id)
            else Effect(old(m.stores), Pass)
  {
    r := Pass;
    if HoldsAll(m.stores, e.id, needed) {
      r := UpdateEntity(a, m, e);
    }
  }

  /** The walk an EntityProcessor (or a plain processor visiting every
      entity) makes over the live entities of its manager `m`. */
  method VisitEntities(a: EntityAction, needed: set<TypeTag>, m: Manager) returns (r: Outcome)
    requires m.Valid()
    modifies m
    ensures m.Valid() && m.Kept()
    ensures Effect(m.stores, r) == RunOverEntities(a, needed, m.eventStore, old(m.stores), Ids(m.entities))
  {
    var es := m.entities;
    var ids := Ids(es);
    ghost var s0 := m.stores;
    r := Pass;
    var i := 0;
    while i < |es| && r.Pass?
      invariant 0 <= i <= |es|
      invariant m.Valid() && m.Kept()
      invariant Effect(m.stores, r) == RunOverEntities(a, needed, m.eventStore, s0, ids[..i])
    {
      var e := es[i];
      assert e.manager == m && ids[i] == e.id;
      ghost var before := m.stores;
      r := VisitEntity(a, needed, m, e);
      WalkStep(a, needed, m.eventStore, s0, ids, i, before, Effect(m.stores, r));
      i := i + 1;
    }
    WalkDone(a, needed, m.eventStore, s0, ids, i);
  }

  /** `processor.update(delta)` for a processor whose manager is `handle`:
      the base update raises NotImplemented; any other raises Unbound
      without a manager (it reads `self.manager.entities()`). */
  method UpdateProcessor(p: Processor, handle: Manager?) returns (r: Outcome)
    requires handle != null ==> handle.Valid()
    modifies handle
    ensures handle == null ==> r == Fail(if p == Plain(UpdateNotImplemented) then NotImplemented else Unbound)
    ensures handle != null ==> handle.Valid() && handle.Kept()
    ensures handle != null ==>
              Effect(handle.stores, r) == RunProcessor(p, handle.eventStore, old(handle.stores), Ids(handle.entities))
  {
    match p
    case Plain(UpdateNotImplemented) =>
      r := Fail(NotImplemented);
    case Plain(EachEntity(a)) =>
      if handle == null {
        r := Fail(Unbound);
      } else {
        r := VisitEntities(a, {}, handle);
      }
    case Filtered(needed, a) =>
      if handle == null {
        r := Fail(Unbound);
      } else {
        r := VisitEntities(a, needed, handle);
      }
  }
}
