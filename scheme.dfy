/**
 * Component descriptors (src/NEconomicon/Storage/ComponentInfo.cs) and the
 * scheme that maps component types to them (src/NEconomicon/Storage/Scheme.cs).
 *
 * A component type is known by its name.  A component instance is a
 * reference object whose public fields the program writes; its field values
 * are the `state` map.  The descriptor's `New` and `CleanUp` closures (built
 * by reflection in the library) become the type they instantiate and the
 * field values they restore.  The descriptor's `index`, the component's bit
 * in a `BitSet`, is used by the query builder but is not declared in the
 * descriptor's source: it is a stub whose only contract is that call site.
 */
module Schemes {
  import opened Results
  import opened ComponentKeys

  type TypeName = string

  /** A value held in a component field. */
  datatype FieldValue = Text(text: string) | Number(number: int)

  /** The values of a component's fields, by field name. */
  type ComponentState = map<string, FieldValue>

  /** A component instance (`IComponent`): of one type for its whole life. */
  class Component {
    const typeName: TypeName
    var state: ComponentState

    constructor (typeName: TypeName, state: ComponentState)
      ensures this.typeName == typeName && this.state == state
    {
      this.typeName := typeName;
      this.state := state;
    }
  }

  /** `ComponentInfo`: the key, the stub bit index, the type and its field defaults. */
  datatype ComponentInfo = ComponentInfo(key: ComponentKey, index: nat, componentType: TypeName, defaults: ComponentState)
  {
    /** `New()`: a new instance of the type, with the default field values. */
    method New() returns (c: Component)
      ensures fresh(c)
      ensures c.typeName == componentType && c.state == defaults
    {
      c := new Component(componentType, defaults);
    }

    /** `CleanUp(component)`: resets every field of the instance to its default. */
    method CleanUp(c: Component)
      modifies c`state
      ensures c.state == defaults
    {
      c.state := defaults;
    }
  }

  /** `Scheme`: the descriptors by component type and by key. */
  datatype Scheme = Scheme(byType: map<TypeName, ComponentInfo>, byKey: map<ComponentKey, ComponentInfo>)
  {
    /**
     * What registering components (not part of this model) establishes: each
     * descriptor describes the type it is stored under and is also stored
     * under its key.
     */
    predicate Valid()
    {
      forall t | t in byType ::
        byType[t].componentType == t && byType[t].key in byKey && byKey[byType[t].key] == byType[t]
    }

    /**
     * `GetComponentInfo(Type)` and `GetComponentInfo<TComponent>()`, which
     * passes `typeof(TComponent)` on: the descriptor of a registered type;
     * an unregistered type is an error.  It reads the tables only.
     */
    function GetComponentInfo(t: TypeName): (r: Result<ComponentInfo>)
      ensures r.Ok? <==> t in byType
      ensures r.Ok? ==> r.value == byType[t]
      ensures r.Err? ==> r.error == ComponentNotRegistered(t)
    {
      if t in byType then Ok(byType[t]) else Err(ComponentNotRegistered(t))
    }
  }

  /** In a valid scheme distinct types have distinct keys. */
  lemma KeysIdentifyTypes(s: Scheme, t: TypeName, u: TypeName)
    requires s.Valid() && t in s.byType && u in s.byType
    ensures s.byType[t].key == s.byType[u].key <==> t == u
  {
    if s.byType[t].key == s.byType[u].key {
      assert s.byType[t] == s.byKey[s.byType[t].key] == s.byType[u];
    }
  }

  /** The descriptor found for a type describes that type and is the one stored under its key. */
  lemma LookupAgrees(s: Scheme, t: TypeName)
    requires s.Valid() && s.GetComponentInfo(t).Ok?
    ensures s.GetComponentInfo(t).value.componentType == t
    ensures s.byKey[s.GetComponentInfo(t).value.key] == s.GetComponentInfo(t).value
  {
  }
}
