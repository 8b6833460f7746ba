# pytity entity–component–system, modelled in Dafny

pytity is a small entity–component–system library. A `Manager` creates and
kills entities. It keeps one store of components per component class, a
list of processors and a store of event instances keyed by event class.
An `Entity` is an id plus a back-reference to its manager. Its
`add_component`, `get_component` and `del_component` go through that
manager's stores, so an entity without a manager raises `AttributeError`.
`Manager.update` runs every processor once, in registration order:

- a plain `Processor` runs its own `update` hook;
- an `EntityProcessor` calls `update_entity` on every live entity that holds
  a component of each class in its `needed` list.

A processor can `publish` an event class. The manager then
calls the registered instance's `call` hook, or raises `ValueError` when
that class was never added. The behaviour modelled here is the one the
library's test suite pins down.

The model has five modules:

- `EcsTypes` (`ecs_types.dfy`) holds the values: class tags, components,
  errors and outcomes. It also holds the closed set of processor, entity
  and event bodies that the tests define as subclasses.
- `Registry` (`registry.dfy`) is the store algebra. Stores map a class tag
  to a map from entity id to component. It defines adding, deleting and
  purging, with their frame properties.
- `Tick` (`tick.dfy`) defines what a tick does to the stores, as
  functions. A failure keeps the updates made before it, as a Python
  exception would. It also holds lemmas about traversal order,
  concatenation, filtering and publishing.
- `Ecs` (`ecs.dfy`) has the `Manager` and `Entity` classes. Their methods
  update the manager's fields in place, and each is proved to keep the
  invariant `Manager.Valid()`. The loops of `kill_entity`,
  `components_by_type`, `entities_by_types`, `update` and the entity walk
  are proved against the `Registry` and `Tick` functions.
- `Scenarios` (`scenarios.dfy`) turns each test case into a method whose
  postcondition states the result the test asserts.

## Model

| member | source | states |
|---|---|---|
| Registry.Lookup | tests/test_pytity.py:18 | a component is found if and only if the entity holds one of exactly that class, and in well-tagged stores the found component has that class |
| Registry.Put | tests/test_pytity.py:12-18 | after add_component, get_component of the component's class yields exactly that component; every other (class, entity) entry is unchanged; the entity becomes an owner; well-tagged stores stay well-tagged |
| Registry.Remove | tests/test_pytity.py:35-42 | after del_component the class is absent for that entity; every other entry is unchanged; deleting an absent class leaves the stores identical; owners only shrink |
| Registry.Purge | tests/test_pytity.py:53-61 | after the purge the entity holds no class at all; every other entity keeps exactly what it held; the set of class stores is unchanged; the owners lose exactly that entity |
| Ecs.Entity.constructor | tests/test_pytity.py:21-22 | an entity built directly has the given id and no manager |
| Ecs.Entity.Bound | tests/test_pytity.py:14 | the entity create_entity hands out carries its id and a back-reference to its manager |
| Ecs.Entity.GetComponent | tests/test_pytity.py:29 | fails with Unbound if and only if the entity has no manager; otherwise returns Registry.Lookup of the manager's stores for its id, and under the manager invariant a found component has exactly the requested class |
| Ecs.Entity.AddComponent | tests/test_pytity.py:21-26 | without a manager it fails with Unbound; with one it stores the component exactly when the manager tracks the entity, keeps the manager invariant, and a following get returns the component |
| Ecs.Entity.DelComponent | tests/test_pytity.py:31-42 | without a manager it fails with Unbound; with one it passes, get afterwards returns None, and an absent class leaves the stores unchanged |
| Ecs.Entity.SetComponentValue | tests/test_pytity.py:164-166 | the new stores and the outcome are those of Tick.SetValueOf; without a manager it fails with Unbound |
| Ecs.Manager.constructor | tests/test_pytity.py:13 | a new manager is valid and has no entities, components, processors or events |
| Ecs.Manager.CreateEntity | tests/test_pytity.py:13-14 | the new entity is fresh, bound to this manager and appended; its id is the next unissued one, above every id handed out before, live or killed, so a killed handle never becomes tracked again; the invariant is kept |
| Ecs.Manager.KillEntity | tests/test_pytity.py:45-61 | fails with UnknownEntity (changing nothing) exactly when the entity is not tracked; otherwise removes it from the entity list at its position and purges its components from every store |
| Ecs.FindId | tests/test_pytity.py:59 | returns the first position holding the id, or the length when no entity has it |
| Ecs.PurgeStores | tests/test_pytity.py:59 | the loop over the class stores computes exactly Registry.Purge |
| Ecs.RemoveAtIds | tests/test_pytity.py:59 | removing one entity keeps ids distinct and removes exactly its id from the live ids |
| Ecs.Manager.AddComponent | tests/test_pytity.py:17 | stores the component when the entity is tracked, otherwise fails with UnknownEntity and changes nothing; the invariant is kept |
| Ecs.Manager.DelComponent | tests/test_pytity.py:89-94 | the new stores are Registry.Remove of the old ones; never fails; the invariant is kept |
| Ecs.Manager.SetComponentValue | tests/test_pytity.py:109-110 | the new stores and the outcome are Tick.SetValueOf of the old stores |
| Ecs.Manager.ComponentsByType | tests/test_pytity.py:53-61 | the loop yields exactly Registry.ComponentsOf of the live entities: their components of that class, in creation order; there are exactly as many as live entities holding that class |
| Registry.ComponentsOf | tests/test_pytity.py:61 | the reference definition of the components_by_type listing, characterised by Registry.ComponentsOfHolders and Registry.ComponentsOfCount; its own contract only bounds the listing by the number of entities given |
| Registry.ComponentsOfHolders | tests/test_pytity.py:53-61 | every holder's component is listed, every listed component is some given entity's component of that class, and in well-tagged stores each has that class |
| Registry.ComponentsOfCount | tests/test_pytity.py:53-61 | over entities listed once each, the listing has exactly one component per entity holding that class |
| Ecs.Manager.EntitiesByTypes | tests/test_pytity.py:64-86 | an entity is yielded if and only if it is live and holds every requested class; no entity is yielded twice |
| Ecs.Manager.AddProcessor | tests/test_pytity.py:97-102 | the processor is appended after those already registered; entities, stores, events and the id counter are unchanged |
| Ecs.Manager.AddEvent | tests/test_pytity.py:123-128 | the event store maps the instance's class to the instance; entities, stores, processors and the id counter are unchanged |
| Ecs.Manager.Update | tests/test_pytity.py:105-120 | the new stores and the outcome are Tick.RunAll of the registered processors over the live entities, in order |
| Tick.SetValueOf | tests/test_pytity.py:108-110 | passes if and only if the entity holds the class, and then replaces that component's value; otherwise fails with NoSuchComponent and changes nothing; no other entity or class changes |
| Tick.CallEvent | tests/test_pytity.py:215-219 | the base call fails with NotImplemented; any call touches only the entity it is given and changes nothing when it fails |
| Tick.PublishEvent | tests/test_pytity.py:138-144 | an unregistered event class fails with UnregisteredEvent and changes nothing; a registered one runs that instance's call |
| Tick.RunEntity | tests/test_pytity.py:147-152 | one visit touches only the visited entity and changes nothing when it fails |
| Tick.RunOverEntities | tests/test_pytity.py:162-192 | the walk changes only entities that hold every needed class; the stores keep their shape |
| Tick.RunProcessor | tests/test_pytity.py:131-135 | one processor changes only the given entities' component values |
| Tick.RunAll | tests/test_pytity.py:117-118 | the tick changes only the given entities' component values |
| Tick.RunOverEntitiesAppend | tests/test_pytity.py:162-192 | walking two entity lists in a row is walking the first and, if it passed, then the second from the resulting stores |
| Tick.RunAllAppend | tests/test_pytity.py:97-102 | running two processor lists in a row is running the first and, if it passed, then the second |
| Tick.SetValueReachesEveryMatch | tests/test_pytity.py:162-192 | when every matching entity holds the class, a set-value walk passes and gives every matching entity's component of that class the new value |
| Tick.PublishActsAsSetValue | tests/test_pytity.py:195-212 | publishing a registered event whose call sets a component is the same walk as setting it directly |
| Tick.AlwaysRaisingWalk | tests/test_pytity.py:147-152 | a walk whose action always raises changes nothing and raises exactly when some entity matches |
| Ecs.CallEventOn | tests/test_pytity.py:215-219 | the base call fails with NotImplemented; otherwise the stores and the outcome are Tick.CallEvent |
| Ecs.PublishFrom | tests/test_pytity.py:138-144 | without a manager it fails with Unbound; an unregistered class fails with UnregisteredEvent; otherwise it matches Tick.PublishEvent |
| Ecs.UpdateEntity | tests/test_pytity.py:147-152 | the base update_entity fails with NotImplemented; otherwise it matches Tick.RunEntity |
| Ecs.VisitEntity | tests/test_pytity.py:164-166 | one step of the walk: the entity is visited if and only if it holds every needed class |
| Ecs.VisitEntities | tests/test_pytity.py:162-192 | the loop over the live entities computes exactly Tick.RunOverEntities |
| Ecs.UpdateProcessor | tests/test_pytity.py:155-159 | without a manager the base Processor fails with NotImplemented and an EntityProcessor fails with Unbound; with one it matches Tick.RunProcessor |
| Scenarios.AddThenGet | tests/test_pytity.py:12-18 | the component added is the one get_component returns |
| Scenarios.EntityWithoutManager | tests/test_pytity.py:21-32 | add, get and delete all fail with Unbound |
| Scenarios.DelThenGet | tests/test_pytity.py:35-42 | after del_component, get_component returns None |
| Scenarios.DelAbsent | tests/test_pytity.py:89-94 | deleting a class never added does not fail |
| Scenarios.KillUnknown | tests/test_pytity.py:45-50 | killing an untracked entity fails with UnknownEntity |
| Scenarios.KillRemovesComponents | tests/test_pytity.py:53-61 | after kill_entity, components_by_type is empty |
| Scenarios.KilledEntityStaysDead | tests/test_pytity.py:45-61 | after a kill and a further create_entity, add_component on the killed handle still fails with UnknownEntity |
| Scenarios.EntitiesByTwoTypes | tests/test_pytity.py:64-86 | the entity is found if and only if it also holds a SpamComponent |
| Scenarios.FirstProcessorAdded | tests/test_pytity.py:97-102 | the first processor registered comes first |
| Scenarios.TickOnce | tests/test_pytity.py:112-118 | a one-entity, one-processor manager ticked once yields the outcome and component Tick.RunProcessor gives |
| Scenarios.PlainProcessorUpdate | tests/test_pytity.py:105-120 | the plain processor's tick sets the value to 'egg' |
| Scenarios.AddEventStored | tests/test_pytity.py:123-128 | the event store holds the added instance under its class |
| Scenarios.BaseProcessorUpdate | tests/test_pytity.py:131-135 | the base Processor.update fails with NotImplemented |
| Scenarios.PublishUnregistered | tests/test_pytity.py:138-144 | publishing an unregistered event fails with UnregisteredEvent |
| Scenarios.BaseUpdateEntity | tests/test_pytity.py:147-152 | the base update_entity fails with NotImplemented |
| Scenarios.EntityProcessorWithoutManager | tests/test_pytity.py:155-159 | an unregistered EntityProcessor's update fails with Unbound |
| Scenarios.EntityProcessorNeeded | tests/test_pytity.py:162-192 | the value becomes 'egg' if and only if the needed classes are among the entity's, and otherwise stays 'spam' |
| Scenarios.EventCall | tests/test_pytity.py:195-212 | a processor publishing a registered event sets the value to 'egg' |
| Scenarios.BaseEventCall | tests/test_pytity.py:215-219 | the base Event.call fails with NotImplemented |

## Left out

- The library modules (`pytity/manager.py`, `pytity/entity.py`, `pytity/component.py`, `pytity/processor.py`, `pytity/event.py`) are not part of this model. The behaviour is the one the test suite states. A few choices are the model's own, since no test fixes them: an empty `needed` set matches every entity, `entities_by_types` with no classes yields every live entity, the stores only ever mention live entities, and ids come from a counter that never reissues one.
- The `delta` argument of `update` and `update_entity` is left out. No modelled processor reads it, and it is a float.
- Processors, entity actions and events form a closed datatype: the bodies the tests define plus the base hooks that raise. Arbitrary subclassing and dynamic dispatch are left out.
- `publish` carries exactly an entity and a value. Arbitrary positional arguments are left out.
- Components are immutable values. Assigning `component.value` is modelled as replacing the stored component. Aliasing a component object held outside the manager is left out.
- `entities()`, `processors()`, `components_by_type` and `entities_by_types` are generators in the library. The model returns whole sequences, so laziness and the effect of changing the manager mid-iteration are left out.
- `register_to` on a processor or an event is modelled as `Manager.AddProcessor` and `Manager.AddEvent`. Registering one processor with two managers is left out.
- Each processor is bound to its manager only through the manager's processor list. `UpdateProcessor` takes that manager, or null, explicitly.
- Identity of an entity is its manager together with its id. An entity object built by hand with the id of a live entity of the same manager is therefore treated as that entity.
- Iteration follows entity creation order, by the model's choice: `components_by_type`, `entities_by_types` and the entity walk of `update` visit the live entities in the order they were created. The tests fix no order, and for the walk that order decides which updates survive a raise.
- `add_component` on an entity bound to a manager that no longer tracks it fails with UnknownEntity. The tests do not cover this case. The model refuses it so that the stores only ever mention live entities.
- `entities_by_types` with no classes yields every live entity, since every entity holds all of an empty set of classes.
- Scenarios.TickOnce: the entity id is a ghost output, since the test never reads it.
