/** The behaviours the library's tests exercise, each as a method that
    drives the Manager and its entities, processors and events through the
    contracts above and states the result the test asserts in its
    postcondition. */
module Scenarios {
  import opened EcsTypes
  import opened Registry
  import opened Tick
  import opened Ecs

  /** A manager with one entity holding `c`. */
  method ManagerWithComponent(c: Component) returns (m: Manager, e: Entity)
    ensures m.Valid() && fresh(m) && e.manager == m && m.Tracks(e)
    ensures m.entities == [e] && Ids(m.entities) == [e.id] && m.stores == Put(map[], e.id, c)
    ensures m.processors == [] && m.eventStore == map[]
  {
    m := new Manager();
    e := m.CreateEntity();
    assert Ids(m.entities) == [e.id];
    var r := e.AddComponent(c);
  }

  /** The component added to an entity is the one get_component returns
      for its class. */
  method AddThenGet(c: Component) returns (got: Result<Option<Component>>)
    ensures got == Success(Some(c))
  {
    var m, e := ManagerWithComponent(c);
    got := e.GetComponent(c.tag);
  }

  /** An entity built without a manager cannot add, get or delete. */
  method EntityWithoutManager(id: EntityId, c: Component, t: TypeTag)
    returns (added: Outcome, got: Result<Option<Component>>, deleted: Outcome)
    ensures added == Fail(Unbound) && got == Failure(Unbound) && deleted == Fail(Unbound)
  {
    var e := new Entity(id);
    added := e.AddComponent(c);
    got := e.GetComponent(t);
    deleted := e.DelComponent(t);
  }

  /** After del_component the class is absent. */
  method DelThenGet(c: Component) returns (got: Result<Option<Component>>)
    ensures got == Success(None)
  {
    var m, e := ManagerWithComponent(c);
    var r := e.DelComponent(c.tag);
    got := e.GetComponent(c.tag);
  }

  /** Deleting a class the entity never held does not raise and leaves the
      entity's components as they were. */
  method DelAbsent(t: TypeTag) returns (deleted: Outcome, got: Result<Option<Component>>)
    ensures deleted == Pass && got == Success(None)
  {
    var m := new Manager();
    var e := m.CreateEntity();
    deleted := e.DelComponent(t);
    got := e.GetComponent(t);
  }

  /** A manager refuses to kill an entity it does not track. */
  method KillUnknown(id: EntityId) returns (r: Outcome)
    ensures r == Fail(UnknownEntity)
  {
    var m := new Manager();
    var e := new Entity(id);
    r := m.KillEntity(e);
  }

  /** Killing an entity takes its components out of every store. */
  method KillRemovesComponents(c: Component) returns (r: Outcome, cs: seq<Component>)
    ensures r == Pass && cs == []
  {
    var m, e := ManagerWithComponent(c);
    r := m.KillEntity(e);
    cs := m.ComponentsByType(c.tag);
  }

  /** A killed entity stays dead: an entity created after it gets a new id,
      so the killed handle is not tracked again and adding to it fails. */
  method KilledEntityStaysDead(c: Component) returns (r: Outcome)
    ensures r == Fail(UnknownEntity)
  {
    var m := new Manager();
    var e := m.CreateEntity();
    assert Ids(m.entities) == [e.id];
    var killed := m.KillEntity(e);
    assert m.entities == [];
    var e2 := m.CreateEntity();
    assert Ids(m.entities) == [e2.id] && e2.id != e.id;
    r := e.AddComponent(c);
  }

  /** entities_by_types([Component, SpamComponent]) finds an entity with a
      Component exactly when it also holds a SpamComponent. */
  method EntitiesByTwoTypes(withSpam: bool) returns (found: bool)
    ensures found == withSpam
  {
    var m, e := ManagerWithComponent(Component(ComponentTag, Int(42)));
    if withSpam {
      var r := e.AddComponent(Component(SpamComponentTag, Str("spam")));
      assert Holds(m.stores, e.id, SpamComponentTag) && Holds(m.stores, e.id, ComponentTag) by {
        assert Lookup(m.stores, e.id, SpamComponentTag).Some?;
        assert Lookup(m.stores, e.id, ComponentTag).Some?;
      }
    } else {
      assert !Holds(m.stores, e.id, SpamComponentTag);
    }
    var es := m.EntitiesByTypes({ComponentTag, SpamComponentTag});
    found := e in es;
  }

  /** The first processor added is the first registered. */
  method FirstProcessorAdded(p: Processor, q: Processor) returns (first: Processor)
    ensures first == p
  {
    var m := new Manager();
    m.AddProcessor(p);
    m.AddProcessor(q);
    first := m.processors[0];
  }

  /** A manager whose one entity holds `c`, with `p` as its one processor
      and `ev`, if any, as its one event, ticked once: the outcome and the
      entity's component of class `c.tag` afterwards are those the tick
      semantics gives. */
  method TickOnce(c: Component, p: Processor, ev: Option<Event>) returns (r: Outcome, got: Result<Option<Component>>, ghost id: EntityId)
    ensures var events := if ev.Some? then map[ev.value.etype := ev.value] else map[];
            var eff := RunProcessor(p, events, Put(map[], id, c), [id]);
            r == eff.outcome && got == Success(Lookup(eff.stores, id, c.tag))
  {
    var m, e := ManagerWithComponent(c);
    id := e.id;
    m.AddProcessor(p);
    if ev.Some? {
      m.AddEvent(ev.value);
    }
    ghost var s0 := m.stores;
    r := m.Update();
    RunAllOne(p, m.eventStore, s0, [e.id]);
    got := e.GetComponent(c.tag);
  }

  /** A plain processor whose update sets every live entity's Component to
      'egg' has done so once update returns. */
  method PlainProcessorUpdate() returns (r: Outcome, got: Result<Option<Component>>)
    ensures r == Pass && got == Success(Some(Component(ComponentTag, Str("egg"))))
  {
    var spam := Component(ComponentTag, Str("spam"));
    ghost var id;
    r, got, id := TickOnce(spam, Plain(EachEntity(SetValue(ComponentTag, Str("egg")))), None);
    WalkOne(SetValue(ComponentTag, Str("egg")), {}, map[], Put(map[], id, spam), id);
  }

  /** add_event files the instance under its own class. */
  method AddEventStored(ev: Event) returns (stored: Event)
    ensures stored == ev
  {
    var m := new Manager();
    m.AddEvent(ev);
    stored := m.eventStore[ev.etype];
  }

  /** The base Processor.update raises NotImplemented. */
  method BaseProcessorUpdate() returns (r: Outcome)
    ensures r == Fail(NotImplemented)
  {
    r := UpdateProcessor(Plain(UpdateNotImplemented), null);
  }

  /** A registered processor publishing an event class nobody added raises
      UnregisteredEvent. */
  method PublishUnregistered(v: Value) returns (r: Outcome)
    ensures r == Fail(UnregisteredEvent)
  {
    var m := new Manager();
    m.AddProcessor(Plain(UpdateNotImplemented));
    var e := new Entity(0);
    r := PublishFrom(m, EventTag, e, v);
  }

  /** The base EntityProcessor.update_entity raises NotImplemented, even for
      an entity and a processor without a manager. */
  method BaseUpdateEntity(id: EntityId) returns (r: Outcome)
    ensures r == Fail(NotImplemented)
  {
    var e := new Entity(id);
    r := UpdateEntity(UpdateEntityNotImplemented, null, e);
  }

  /** An EntityProcessor that was never registered raises Unbound from
      update. */
  method EntityProcessorWithoutManager(needed: set<TypeTag>, a: EntityAction) returns (r: Outcome)
    ensures r == Fail(Unbound)
  {
    r := UpdateProcessor(Filtered(needed, a), null);
  }

  /** An EntityProcessor that sets the Component to 'egg' changes the
      entity, which holds only a Component, exactly when its `needed`
      classes are among the entity's: with needed = [Component] the value
      becomes 'egg', with needed = [SpamComponent] it stays 'spam'. */
  method EntityProcessorNeeded(needed: set<TypeTag>) returns (r: Outcome, got: Result<Option<Component>>)
    ensures r == Pass
    ensures got == Success(Some(Component(ComponentTag, Str(if needed <= {ComponentTag} then "egg" else "spam"))))
  {
    var spam := Component(ComponentTag, Str("spam"));
    ghost var id;
    r, got, id := TickOnce(spam, Filtered(needed, SetValue(ComponentTag, Str("egg"))), None);
    ghost var s0 := Put(map[], id, spam);
    assert HoldsAll(s0, id, needed) <==> needed <= {ComponentTag} by {
      if !(needed <= {ComponentTag}) {
        var t :| t in needed && t != ComponentTag;
        assert !Holds(s0, id, t);
      }
    }
    WalkOne(SetValue(ComponentTag, Str("egg")), needed, map[], s0, id);
  }

  /** An EntityProcessor (matching every entity) that publishes an event
      whose call sets the Component: the value is 'egg' once update
      returns. */
  method EventCall() returns (r: Outcome, got: Result<Option<Component>>)
    ensures r == Pass && got == Success(Some(Component(ComponentTag, Str("egg"))))
  {
    var spam := Component(ComponentTag, Str("spam"));
    var ev := Event(SpamEggEventTag, SetComponentValue(ComponentTag));
    ghost var id;
    r, got, id := TickOnce(spam, Filtered({}, Publish(SpamEggEventTag, Str("egg"))), Some(ev));
    WalkOne(Publish(SpamEggEventTag, Str("egg")), {}, map[SpamEggEventTag := ev], Put(map[], id, spam), id);
  }

  /** The base Event.call raises NotImplemented. */
  method BaseEventCall(v: Value) returns (r: Outcome)
    ensures r == Fail(NotImplemented)
  {
    var e := new Entity(0);
    r := CallEventOn(Event(EventTag, CallNotImplemented), e, v);
  }
}
