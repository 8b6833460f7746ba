/** Values shared by the whole entity-component-system model: type tags,
    components, errors, and the closed set of processor and event bodies. */
module EcsTypes {

  /** The name of a concrete component or event class. Stores are keyed by
      the exact class: `SpamComponent` and its base `Component` are two
      unrelated tags, there is no subtype matching. */
  type TypeTag = string

  const ComponentTag: TypeTag := "Component"
  const SpamComponentTag: TypeTag := "SpamComponent"
  const EventTag: TypeTag := "Event"
  const SpamEggEventTag: TypeTag := "SpamEggEvent"

  /** The payload a component carries in its `value` attribute. */
  datatype Value = Int(i: int) | Str(s: string)

  /** A component instance: its concrete class and its value. */
  datatype Component = Component(tag: TypeTag, value: Value)

  /** The failures the library raises, by kind. */
  datatype Error =
    | Unbound            // AttributeError: the entity or processor has no manager
    | NoSuchComponent    // AttributeError: `.value` on the None that get_component returned
    | UnknownEntity      // ValueError: the manager does not track the entity
    | UnregisteredEvent  // ValueError: publish of an event class never added
    | NotImplemented     // NotImplementedError: a base hook that was not overridden

  /** Whether an operation returned normally or raised. */
  datatype Outcome = Pass | Fail(error: Error)

  datatype Option<T> = None | Some(value: T)

  datatype Result<T> = Success(value: T) | Failure(error: Error)

  /** The body of an event's `call(entity, value)`. */
  datatype EventBody =
    | CallNotImplemented          // the base Event.call
    | SetComponentValue(tag: TypeTag)  // entity.get_component(tag).value = value

  /** An event instance; `etype` is its concrete class. */
  datatype Event = Event(etype: TypeTag, call: EventBody)

  /** What a processor does to one entity it visits. */
  datatype EntityAction =
    | UpdateEntityNotImplemented                // the base EntityProcessor.update_entity
    | SetValue(tag: TypeTag, value: Value)      // entity.get_component(tag).value = value
    | Publish(event: TypeTag, value: Value)     // self.publish(event, entity, value)

  /** The body of a plain Processor's `update`. */
  datatype ProcessorUpdate =
    | UpdateNotImplemented          // the base Processor.update
    | EachEntity(action: EntityAction)  // for entity in self.manager.entities(): action

  /** A processor: a plain Processor with its own `update`, or an
      EntityProcessor with its `needed` component classes and its
      `update_entity`. */
  datatype Processor =
    | Plain(update: ProcessorUpdate)
    | Filtered(needed: set<TypeTag>, updateEntity: EntityAction)
}
