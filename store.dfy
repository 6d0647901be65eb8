/**
 * The entity store: entity records (src/NEconomicon/Storage/EntityData.cs),
 * entity handles (src/NEconomicon/Storage/Entity.cs), the storage with its
 * pools (src/NEconomicon/Storage/Storage.cs), live queries
 * (src/NEconomicon/Storage/Query.cs) and the query cache
 * (src/NEconomicon/Storage/QueryCollection.cs).  They refer to one another,
 * so they share one module.
 *
 * Stacks are sequences whose last element is the top.  Three members that
 * Query.cs and QueryCollection.cs call but no source file declares are
 * stubs here, each with the contract its call site needs and no more: `EntityData.ComponentsBitSet`
 * (the `componentsBits` field), `EntityData.AddQuery`/`RemoveQuery` (over
 * the `queries` field), and `Storage.EnumerateEntitiesInternal` (the entity
 * sequence given to `QueryCollection.RegisterQuery`).
 */
module Store {
  import opened Results
  import opened Opts
  import opened BitSets
  import opened EntityIds
  import opened ComponentKeys
  import opened Schemes
  import opened QueryKeys
  import Ensure

  // ---------------------------------------------------------------------
  // Component pools
  // ---------------------------------------------------------------------

  /** The stack stored for key k, or the empty stack `TryGetValue` stands in for. */
  function PoolAt(pool: map<ComponentKey, seq<Component>>, k: ComponentKey): seq<Component>
  {
    if k in pool then pool[k] else []
  }

  /** Pools after the corrected release: comps[k] pushed on the stack of every key k of comps. */
  function Released(pool: map<ComponentKey, seq<Component>>, comps: map<ComponentKey, Component>): map<ComponentKey, seq<Component>>
  {
    map k | k in pool.Keys + comps.Keys :: if k in comps then PoolAt(pool, k) + [comps[k]] else pool[k]
  }

  /**
   * Pools after releasing comps through `ReleaseComponent` as written: a
   * component is pushed only when its key already has a stored stack.
   */
  function ReleasedAsWritten(pool: map<ComponentKey, seq<Component>>, comps: map<ComponentKey, Component>): map<ComponentKey, seq<Component>>
  {
    map k | k in pool :: if k in comps then pool[k] + [comps[k]] else pool[k]
  }

  /**
   * As written, releasing never creates a stack: a component whose key has
   * a stored stack goes on top of it, any other component is dropped, and
   * pools that start empty (as a new storage's do) stay empty.  Only when
   * every key already has a stack does this agree with the corrected release.
   */
  lemma ReleasedAsWrittenPools(pool: map<ComponentKey, seq<Component>>, comps: map<ComponentKey, Component>)
    ensures ReleasedAsWritten(pool, comps).Keys == pool.Keys
    ensures forall k | k in pool && k in comps :: ReleasedAsWritten(pool, comps)[k] == pool[k] + [comps[k]]
    ensures forall k | k in pool && k !in comps :: ReleasedAsWritten(pool, comps)[k] == pool[k]
    ensures pool == map[] ==> ReleasedAsWritten(pool, comps) == map[]
    ensures ReleasedAsWritten(pool, comps) == Released(pool, comps) <==> comps.Keys <= pool.Keys
  {
    if ReleasedAsWritten(pool, comps) == Released(pool, comps) {
      assert Released(pool, comps).Keys == pool.Keys + comps.Keys;
    }
  }

  /** Releasing one more component as written pushes it only onto a stored stack. */
  lemma ReleasedAsWrittenStep(pool: map<ComponentKey, seq<Component>>, comps: map<ComponentKey, Component>, k: ComponentKey, c: Component)
    requires k !in comps
    ensures k in ReleasedAsWritten(pool, comps) <==> k in pool
    ensures k in pool ==> ReleasedAsWritten(pool, comps)[k] == pool[k]
    ensures ReleasedAsWritten(pool, comps[k := c]) ==
      if k in pool then ReleasedAsWritten(pool, comps)[k := pool[k] + [c]] else ReleasedAsWritten(pool, comps)
  {
    var a := ReleasedAsWritten(pool, comps[k := c]);
    var b := if k in pool then ReleasedAsWritten(pool, comps)[k := pool[k] + [c]] else ReleasedAsWritten(pool, comps);
    assert a.Keys == b.Keys;
    forall j | j in a.Keys
      ensures a[j] == b[j]
    {
    }
  }

  /**
   * Corrected: releasing comps keeps every stack and creates the missing
   * ones: each released component is on top of its key's stack, above what
   * was there, and the stacks of the other keys are untouched.
   */
  lemma ReleasedPools(pool: map<ComponentKey, seq<Component>>, comps: map<ComponentKey, Component>)
    ensures Released(pool, comps).Keys == pool.Keys + comps.Keys
    ensures forall k | k in comps :: Released(pool, comps)[k] == PoolAt(pool, k) + [comps[k]]
    ensures forall k | k in pool && k !in comps :: Released(pool, comps)[k] == pool[k]
  {
  }

  /** Corrected: releasing one more component extends the pools by one push. */
  lemma ReleasedStep(pool: map<ComponentKey, seq<Component>>, comps: map<ComponentKey, Component>, k: ComponentKey, c: Component)
    requires k !in comps
    ensures Released(pool, comps[k := c]) == Released(pool, comps)[k := PoolAt(pool, k) + [c]]
    ensures PoolAt(Released(pool, comps), k) == PoolAt(pool, k)
  {
    var a, b := Released(pool, comps[k := c]), Released(pool, comps)[k := PoolAt(pool, k) + [c]];
    assert a.Keys == b.Keys;
    forall j | j in a.Keys
      ensures a[j] == b[j]
    {
    }
  }

  // ---------------------------------------------------------------------
  // EntityData
  // ---------------------------------------------------------------------

  /** `EntityData`: the mutable record behind entity handles. */
  class EntityData {
    const storage: Storage
    var entityId: EntityId
    var components: map<ComponentKey, Component>
    /** `ComponentsCount`: set to 0 by the constructor and written nowhere else. */
    var componentsCount: int
    var isAlive: bool
    /** Stub for `ComponentsBitSet`: the indexes of the components held. */
    const componentsBits: BitSet
    /** Stub for the back-references `AddQuery`/`RemoveQuery` maintain. */
    var queries: set<Query>

    /** `new EntityData(storage, entityId)`: alive, with no component. */
    constructor (storage: Storage, entityId: EntityId)
      ensures this.storage == storage && this.entityId == entityId
      ensures components == map[] && componentsCount == 0 && isAlive
      ensures fresh(componentsBits) && componentsBits.Contents() == {} && queries == {}
    {
      this.storage := storage;
      this.entityId := entityId;
      components := map[];
      componentsCount := 0;
      isAlive := true;
      var bits := BitSet.Empty();
      componentsBits := bits;
      queries := {};
    }

    /** Every component is held under the key its type is registered with. */
    ghost predicate Consistent()
      reads this
    {
      forall k | k in components :: storage.TypedFor(components[k], k)
    }

    /** The component instances held. */
    ghost function ComponentObjects(): set<Component>
      reads this
    {
      set k | k in components :: components[k]
    }

    /** `Reactivate(entityId)`: takes the new identifier and is alive again. */
    method Reactivate(entityId: EntityId)
      modifies this`entityId, this`isAlive
      ensures this.entityId == entityId && isAlive
    {
      this.entityId := entityId;
      isAlive := true;
    }

    /**
     * `Deactivate()` on the corrected `ReleaseComponent`: releases every
     * component to the storage's pools and is no longer alive.  It does not
     * touch the bitset or the queries.
     */
    method Deactivate()
      requires Consistent()
      modifies this`components, this`isAlive, storage`componentsPool, ComponentObjects()
      ensures !isAlive && components == map[]
      ensures storage.componentsPool == Released(old(storage.componentsPool), old(components))
      ensures forall k | k in old(components) ::
        old(components)[k].state == storage.scheme.byType[old(components)[k].typeName].defaults
      ensures old(storage.Valid()) ==> storage.Valid()
    {
      ReleaseComponents();
      isAlive := false;
    }

    /**
     * `Find<TComponent>()`: the component held under the type's key, if any;
     * an unregistered type is an error.
     */
    function Find(t: TypeName): (r: Result<Opt<Component>>)
      reads this
      ensures r.Err? <==> t !in storage.scheme.byType
      ensures r.Err? ==> r.error == ComponentNotRegistered(t)
      ensures r.Ok? ==> (r.value.HasValue() <==> storage.scheme.byType[t].key in components)
      ensures r.Ok? && r.value.HasValue() ==> r.value.value == components[storage.scheme.byType[t].key]
    {
      var info :- storage.scheme.GetComponentInfo(t);
      if info.key in components then Ok(Some(components[info.key])) else Ok(None)
    }

    /**
     * `GetOrAdd<TComponent>(out isNew)`: the component already held, or one
     * taken from the storage and added (`isNew` is the second component).
     * It does not set the bitset or notify the queries.
     */
    method GetOrAdd(t: TypeName) returns (r: Result<(Component, bool)>)
      requires storage.Valid()
      modifies this`components, storage`componentsPool
      ensures storage.Valid()
      ensures old(Consistent()) ==> Consistent()
      ensures old(Find(t)).Err? ==> r == Err(ComponentNotRegistered(t))
      ensures old(Find(t)).Ok? && old(Find(t)).value.HasValue() ==>
        r == Ok((old(Find(t)).value.value, false))
      ensures r.Err? || !r.value.1 ==>
        components == old(components) && storage.componentsPool == old(storage.componentsPool)
      ensures old(Find(t)) == Ok(None) ==> r.Ok? && r.value.1
      ensures r.Ok? && r.value.1 ==>
        var k := storage.scheme.byType[t].key;
        && r.value.0.typeName == t
        && k !in old(components)
        && components == old(components)[k := r.value.0]
        && (|PoolAt(old(storage.componentsPool), k)| > 0 ==>
              && r.value.0 == old(storage.componentsPool[k][|storage.componentsPool[k]| - 1])
              && storage.componentsPool == old(storage.componentsPool[k := storage.componentsPool[k][..|storage.componentsPool[k]| - 1]]))
        && (|PoolAt(old(storage.componentsPool), k)| == 0 ==>
              && fresh(r.value.0) && r.value.0.state == storage.scheme.byType[t].defaults
              && storage.componentsPool == old(storage.componentsPool))
      ensures r.Ok? ==> Find(t) == Ok(Some(r.value.0))
    {
      var found :- Find(t);
      if found.HasValue() {
        return Ok((found.value, false));
      }
      var got := storage.GetComponent(t);
      var (comp, info) := got.value;
      components := components[info.key := comp];
      r := Ok((comp, true));
    }

    /**
     * `ReleaseComponents()` on the corrected `ReleaseComponent`: hands every
     * component to the storage once, then holds none.
     */
    method ReleaseComponents()
      requires Consistent()
      modifies this`components, storage`componentsPool, ComponentObjects()
      ensures components == map[]
      ensures storage.componentsPool == Released(old(storage.componentsPool), old(components))
      ensures forall k | k in old(components) ::
        old(components)[k].state == storage.scheme.byType[old(components)[k].typeName].defaults
      ensures old(storage.Valid()) ==> storage.Valid()
    {
      var pending := components.Keys;
      ghost var done: map<ComponentKey, Component> := map[];
      while pending != {}
        invariant components == old(components)
        invariant pending <= components.Keys
        invariant done.Keys == components.Keys - pending
        invariant forall k | k in done :: done[k] == components[k]
        invariant storage.componentsPool == Released(old(storage.componentsPool), done)
        invariant forall k | k in done ::
          components[k].state == storage.scheme.byType[components[k].typeName].defaults
        invariant old(storage.Valid()) ==> storage.Valid()
        decreases pending
      {
        var k :| k in pending;
        var c := components[k];
        assert storage.TypedFor(c, k);
        ReleasedStep(old(storage.componentsPool), done, k, c);
        var _ := storage.ReleaseComponent(c);
        done := done[k := c];
        pending := pending - {k};
      }
      assert done == components;
      components := map[];
    }

    /**
     * `Deactivate()` as written: the components are reset and released
     * through `ReleaseComponent` as written, so only those whose key already
     * has a stored stack reach the pools.
     */
    method DeactivateAsWritten()
      requires Consistent()
      modifies this`components, this`isAlive, storage`componentsPool, ComponentObjects()
      ensures !isAlive && components == map[]
      ensures storage.componentsPool == ReleasedAsWritten(old(storage.componentsPool), old(components))
      ensures forall k | k in old(components) ::
        old(components)[k].state == storage.scheme.byType[old(components)[k].typeName].defaults
      ensures old(storage.Valid()) ==> storage.Valid()
    {
      ReleaseComponentsAsWritten();
      isAlive := false;
    }

    /** `ReleaseComponents()` as written: each component is reset, and kept only by a stored stack. */
    method ReleaseComponentsAsWritten()
      requires Consistent()
      modifies this`components, storage`componentsPool, ComponentObjects()
      ensures components == map[]
      ensures storage.componentsPool == ReleasedAsWritten(old(storage.componentsPool), old(components))
      ensures forall k | k in old(components) ::
        old(components)[k].state == storage.scheme.byType[old(components)[k].typeName].defaults
      ensures old(storage.Valid()) ==> storage.Valid()
    {
      var pending := components.Keys;
      ghost var done: map<ComponentKey, Component> := map[];
      while pending != {}
        invariant components == old(components)
        invariant pending <= components.Keys
        invariant done.Keys == components.Keys - pending
        invariant forall k | k in done :: done[k] == components[k]
        invariant storage.componentsPool == ReleasedAsWritten(old(storage.componentsPool), done)
        invariant forall k | k in done ::
          components[k].state == storage.scheme.byType[components[k].typeName].defaults
        invariant old(storage.Valid()) ==> storage.Valid()
        decreases pending
      {
        var k :| k in pending;
        var c := components[k];
        assert storage.TypedFor(c, k);
        ReleasedAsWrittenStep(old(storage.componentsPool), done, k, c);
        var _ := storage.ReleaseComponentAsWritten(c);
        done := done[k := c];
        pending := pending - {k};
      }
      assert done == components;
      components := map[];
    }

    /** Stub for `AddQuery(query)`: records the query among the back-references. */
    method AddQuery(q: Query)
      modifies this`queries
      ensures queries == old(queries) + {q}
    {
      queries := queries + {q};
    }

    /** Stub for `RemoveQuery(query)`: drops the query from the back-references. */
    method RemoveQuery(q: Query)
      modifies this`queries
      ensures queries == old(queries) - {q}
    {
      queries := queries - {q};
    }
  }

  // ---------------------------------------------------------------------
  // Entity
  // ---------------------------------------------------------------------

  /** `Entity`: a handle on a record, remembering the identifier it was made for. */
  datatype Entity = Entity(id: EntityId, data: EntityData)
  {
    /** `IsAlive()`: the record is alive and still carries this handle's identifier. */
    predicate IsAlive()
      reads data
    {
      data.isAlive && data.entityId == id
    }

    /** `EnsureIsAlive(context)`: fails on a handle that is not alive. */
    function EnsureIsAlive(context: string): (r: Result<()>)
      reads data
      ensures r.Ok? <==> IsAlive()
      ensures r.Err? ==> r.error == EntityNotAlive(context)
    {
      if IsAlive() then Ok(()) else Err(EntityNotAlive(context))
    }

    /** `Find<TComponent>()`: the record's lookup, on a live handle only. */
    function Find(t: TypeName): (r: Result<Opt<Component>>)
      reads data
      ensures !IsAlive() ==> r == Err(EntityNotAlive("Find"))
      ensures IsAlive() ==> r == data.Find(t)
    {
      var _ :- EnsureIsAlive("Find");
      data.Find(t)
    }
  }

  /**
   * What `IsAlive` is for: once a record has been handed out again under an
   * identifier issued later, the earlier handle on it is no longer alive
   * while the new one is.  Identifiers issued in turn differ until 2^32 of
   * them have been issued.
   */
  lemma StaleHandleNotAlive(start: EntityId, i: nat, j: nat, stale: Entity, current: Entity)
    requires start.IsNumeric() && i < j < i + UIntLimit
    requires stale.id == Successor(start, i) && current.id == Successor(start, j)
    requires stale.data == current.data && current.IsAlive()
    ensures !stale.IsAlive()
  {
    SuccessorsDistinct(start, i, j);
  }

  /** `new Entity(id, data)`: a null record is an error. */
  function NewEntity(id: EntityId, data: EntityData?): (r: Result<Entity>)
    ensures data == null ==> r == Err(ArgumentNull("data"))
    ensures data != null ==> r == Ok(Entity(id, data)) && r.value.id == id
  {
    var d :- Ensure.NotNull(if data == null then Null else NonNull(data), "data");
    Ok(Entity(id, d))
  }

  // ---------------------------------------------------------------------
  // Storage
  // ---------------------------------------------------------------------

  /** `Storage`: the scheme, the next identifier and the two pools. */
  class Storage {
    const scheme: Scheme
    /** `_entities`: created empty; no member modelled here writes it. */
    var entities: map<EntityId, EntityData>
    var entityDataPool: seq<EntityData>
    var componentsPool: map<ComponentKey, seq<Component>>
    var nextEntityId: EntityId

    /** Component c is of a registered type whose key is k. */
    predicate TypedFor(c: Component, k: ComponentKey)
    {
      c.typeName in scheme.byType && scheme.byType[c.typeName].key == k
    }

    /** The scheme is well formed and every pooled component sits under its type's key. */
    ghost predicate Valid()
      reads this
    {
      scheme.Valid()
      && forall k, i | k in componentsPool && 0 <= i < |componentsPool[k]| :: TypedFor(componentsPool[k][i], k)
    }

    /** `new Storage(scheme, nextEntityId)` for a non-null scheme; the identifier defaults to numeric 0. */
    constructor (scheme: Scheme, nextEntityId: Nullable<EntityId>)
      ensures this.scheme == scheme
      ensures entities == map[] && entityDataPool == [] && componentsPool == map[]
      ensures this.nextEntityId == if nextEntityId.NonNull? then nextEntityId.target else Default
      ensures Valid() <==> scheme.Valid()
    {
      this.scheme := scheme;
      entities := map[];
      entityDataPool := [];
      componentsPool := map[];
      this.nextEntityId := if nextEntityId.NonNull? then nextEntityId.target else Default;
    }

    /** The constructor's `Ensure.NotNull(scheme)`: a null scheme is an error. */
    static method Create(scheme: Nullable<Scheme>, nextEntityId: Nullable<EntityId>) returns (r: Result<Storage>)
      ensures scheme.Null? ==> r == Err(ArgumentNull("scheme"))
      ensures scheme.NonNull? ==> r.Ok? && fresh(r.value) && r.value.scheme == scheme.target
      ensures scheme.NonNull? ==> r.value.entityDataPool == [] && r.value.componentsPool == map[]
      ensures scheme.NonNull? ==> r.value.entities == map[] && (r.value.Valid() <==> scheme.target.Valid())
      ensures scheme.NonNull? ==> r.value.nextEntityId == if nextEntityId.NonNull? then nextEntityId.target else Default
    {
      var checked := Ensure.NotNull(scheme, "scheme");
      if checked.Err? {
        return Err(checked.error);
      }
      var s := new Storage(checked.value, nextEntityId);
      r := Ok(s);
    }

    /** The record `CreateEntity` would pop, as a frame. */
    function PoolTop(): set<EntityData>
      reads this
    {
      if |entityDataPool| > 0 then {entityDataPool[|entityDataPool| - 1]} else {}
    }

    /**
     * `CreateEntity()`: a live handle with the current identifier, which
     * advances by `Next`; the record is the pool's top, reactivated, or a new
     * one.  A symbolic next identifier fails in `Next`, before any change.
     */
    method CreateEntity() returns (r: Result<Entity>)
      modifies this`nextEntityId, this`entityDataPool, PoolTop()`entityId, PoolTop()`isAlive
      ensures old(nextEntityId).IsSymbolic() ==>
        r == Err(NextOfSymbolic) && nextEntityId == old(nextEntityId) && entityDataPool == old(entityDataPool)
      ensures old(nextEntityId).IsNumeric() ==>
        && r.Ok? && r.value.id == old(nextEntityId) && r.value.IsAlive()
        && nextEntityId == old(nextEntityId).Next().value
      ensures r.Ok? && old(|entityDataPool|) > 0 ==>
        && r.value.data == old(entityDataPool[|entityDataPool| - 1])
        && entityDataPool == old(entityDataPool[..|entityDataPool| - 1])
        && r.value.data.components == old(r.value.data.components)
      ensures r.Ok? && old(|entityDataPool|) == 0 ==>
        && fresh(r.value.data) && entityDataPool == []
        && r.value.data.storage == this && r.value.data.components == map[]
        && fresh(r.value.data.componentsBits) && r.value.data.componentsBits.Contents() == {}
        && r.value.data.queries == {} && r.value.data.componentsCount == 0
    {
      var entityId := nextEntityId;
      var next :- entityId.Next();
      nextEntityId := next;
      var data: EntityData;
      if |entityDataPool| > 0 {
        data := entityDataPool[|entityDataPool| - 1];
        entityDataPool := entityDataPool[..|entityDataPool| - 1];
        data.Reactivate(entityId);
      } else {
        data := new EntityData(this, entityId);
      }
      r := Ok(Entity(entityId, data));
    }

    /**
     * `GetComponent<TComponent>()`: the type's descriptor with the top of
     * the stack stored for its key (popped), or a new instance when there is
     * none.  An unregistered type is an error.
     */
    method GetComponent(t: TypeName) returns (r: Result<(Component, ComponentInfo)>)
      requires Valid()
      modifies this`componentsPool
      ensures Valid()
      ensures r.Ok? <==> t in scheme.byType
      ensures r.Err? ==> r.error == ComponentNotRegistered(t) && componentsPool == old(componentsPool)
      ensures r.Ok? ==>
        var k := scheme.byType[t].key;
        && r.value.1 == scheme.byType[t] && r.value.0.typeName == t
        && (|PoolAt(old(componentsPool), k)| > 0 ==>
              && r.value.0 == old(componentsPool[k][|componentsPool[k]| - 1])
              && componentsPool == old(componentsPool[k := componentsPool[k][..|componentsPool[k]| - 1]]))
        && (|PoolAt(old(componentsPool), k)| == 0 ==>
              && fresh(r.value.0) && r.value.0.state == scheme.byType[t].defaults
              && componentsPool == old(componentsPool))
    {
      var info :- scheme.GetComponentInfo(t);
      var pool := PoolAt(componentsPool, info.key);
      var comp: Component;
      if |pool| > 0 {
        comp := pool[|pool| - 1];
        componentsPool := componentsPool[info.key := pool[..|pool| - 1]];
        assert TypedFor(comp, info.key);
        KeysIdentifyTypes(scheme, comp.typeName, t);
      } else {
        comp := info.New();
      }
      r := Ok((comp, info));
    }

    /**
     * `ReleaseComponent(comp)`, corrected: resets the instance and pushes it
     * on its key's stack, storing a new stack for a key with none, so that
     * the next `GetComponent` for the key hands it out again.
     */
    method ReleaseComponent(c: Component) returns (r: Result<()>)
      modifies this`componentsPool, c`state
      ensures c.typeName !in scheme.byType ==>
        r == Err(ComponentNotRegistered(c.typeName)) && componentsPool == old(componentsPool) && c.state == old(c.state)
      ensures c.typeName in scheme.byType ==>
        var k := scheme.byType[c.typeName].key;
        && r == Ok(()) && c.state == scheme.byType[c.typeName].defaults
        && componentsPool == old(componentsPool)[k := PoolAt(old(componentsPool), k) + [c]]
      ensures old(Valid()) ==> Valid()
    {
      var info :- scheme.GetComponentInfo(c.typeName);
      var pool := PoolAt(componentsPool, info.key);
      info.CleanUp(c);
      componentsPool := componentsPool[info.key := pool + [c]];
      r := Ok(());
    }

    /**
     * `ReleaseComponent(comp)` as written: the stack made for a key with no
     * stored stack is pushed on but never stored, so the instance is reset
     * and then lost.
     */
    method ReleaseComponentAsWritten(c: Component) returns (r: Result<()>)
      modifies this`componentsPool, c`state
      ensures c.typeName !in scheme.byType ==>
        r == Err(ComponentNotRegistered(c.typeName)) && componentsPool == old(componentsPool) && c.state == old(c.state)
      ensures c.typeName in scheme.byType ==>
        var k := scheme.byType[c.typeName].key;
        && r == Ok(()) && c.state == scheme.byType[c.typeName].defaults
        && (k in old(componentsPool) ==> componentsPool == old(componentsPool)[k := old(componentsPool)[k] + [c]])
        && (k !in old(componentsPool) ==> componentsPool == old(componentsPool))
      ensures old(Valid()) ==> Valid()
    {
      var info :- scheme.GetComponentInfo(c.typeName);
      info.CleanUp(c);
      if info.key in componentsPool {
        componentsPool := componentsPool[info.key := componentsPool[info.key] + [c]];
      }
      r := Ok(());
    }
  }

  // ---------------------------------------------------------------------
  // Query
  // ---------------------------------------------------------------------

  /**
   * A query's test on a record's bitset: every included index is present
   * and no excluded one is.
   */
  function Matches(includes: Bits, excludes: Bits, b: Bits): (r: bool)
    ensures r <==> includes.Elems() <= b.Elems() && b.Elems() * excludes.Elems() == {}
  {
    b.CheckAllFrom(includes) && !b.CheckAnyFrom(excludes)
  }

  /** `Query`: the records whose bitsets match its include and exclude sets. */
  class Query {
    const storage: Storage
    const includes: Bits
    const excludes: Bits
    var entities: set<EntityData>

    /** `new Query(storage, include, exclude)`: an empty membership. */
    constructor (storage: Storage, includes: Bits, excludes: Bits)
      ensures this.storage == storage && this.includes == includes && this.excludes == excludes
      ensures entities == {}
    {
      this.storage := storage;
      this.includes := includes;
      this.excludes := excludes;
      entities := {};
    }

    /** `IsMatch(entity)`: the record's bitset holds every included index and no excluded one. */
    predicate IsMatch(e: EntityData)
      reads e.componentsBits
      ensures IsMatch(e) <==>
        includes.Elems() <= e.componentsBits.Contents() && e.componentsBits.Contents() * excludes.Elems() == {}
    {
      Matches(includes, excludes, e.componentsBits.Value())
    }

    /** `Count`. */
    function Count(): (n: nat)
      reads this
      ensures n == |entities|
    {
      |entities|
    }

    /**
     * `Touch(entity)`: afterwards the record is a member exactly when it
     * matches, and the back-reference is added on entry and dropped on exit.
     */
    method Touch(e: EntityData)
      modifies this`entities, e`queries
      ensures IsMatch(e) ==> entities == old(entities) + {e}
      ensures !IsMatch(e) ==> entities == old(entities) - {e}
      ensures e.queries ==
        if IsMatch(e) && e !in old(entities) then old(e.queries) + {this}
        else if !IsMatch(e) && e in old(entities) then old(e.queries) - {this}
        else old(e.queries)
      ensures (e in old(entities)) == IsMatch(e) ==> entities == old(entities) && e.queries == old(e.queries)
      ensures (e in old(entities) <==> this in old(e.queries)) ==> (e in entities <==> this in e.queries)
    {
      if IsMatch(e) {
        if e !in entities {
          entities := entities + {e};
          e.AddQuery(this);
        }
        return;
      }
      if e in entities {
        entities := entities - {e};
        e.RemoveQuery(this);
      }
    }

    /** `Remove(entity)`: drops the record, leaving its back-references as they are. */
    method Remove(e: EntityData)
      modifies this`entities
      ensures entities == old(entities) - {e}
    {
      entities := entities - {e};
    }

    /**
     * `CollectEntitiesTo(destination)`: appends one handle per member, each
     * with the member's current identifier, in the set's iteration order.
     */
    method CollectEntitiesTo(destination: seq<Entity>) returns (r: seq<Entity>)
      ensures |r| == |destination| + Count()
      ensures r[..|destination|] == destination
      ensures forall d | d in entities :: Entity(d.entityId, d) in r[|destination|..]
      ensures forall i | |destination| <= i < |r| :: r[i].data in entities && r[i].id == r[i].data.entityId
    {
      var added: seq<Entity> := [];
      var pending := entities;
      while pending != {}
        invariant pending <= entities
        invariant |added| + |pending| == |entities|
        invariant forall d | d in entities && d !in pending :: Entity(d.entityId, d) in added
        invariant forall i | 0 <= i < |added| ::
          added[i].data in entities && added[i].data !in pending && added[i].id == added[i].data.entityId
        decreases |pending|
      {
        var d :| d in pending;
        added := added + [Entity(d.entityId, d)];
        pending := pending - {d};
      }
      r := destination + added;
      assert r[|destination|..] == added;
    }

    /** `GetEntities()`: a new list holding one handle per member. */
    method GetEntities() returns (r: seq<Entity>)
      ensures |r| == Count()
      ensures forall d | d in entities :: Entity(d.entityId, d) in r
      ensures forall i | 0 <= i < |r| :: r[i].data in entities && r[i].id == r[i].data.entityId
    {
      r := CollectEntitiesTo([]);
    }
  }

  /** With an include set, the query's test is stricter than the key's `IsMatch`. */
  lemma QueryMatchImpliesKeyMatch(key: QueryKey, b: Bits)
    requires key.includes.Elems() != {}
    ensures Matches(key.includes, key.excludes, b) ==> key.IsMatch(b)
  {
    if Matches(key.includes, key.excludes, b) {
      var i :| i in key.includes.Elems();
      assert i in b.Elems() * key.includes.Elems();
    }
  }

  /**
   * Bitsets that agree on every tracked index, where the tracked indexes
   * cover a query's include and exclude sets, are both matched or both not.
   */
  lemma MatchIgnoresUntracked(includes: Bits, excludes: Bits, tracked: set<int>, b: Bits, b': Bits)
    requires includes.Elems() + excludes.Elems() <= tracked
    requires forall i | i in tracked :: (i in b.Elems()) == (i in b'.Elems())
    ensures Matches(includes, excludes, b) == Matches(includes, excludes, b')
  {
    if includes.Elems() <= b.Elems() {
      assert includes.Elems() <= b'.Elems() by {
        forall i | i in includes.Elems()
          ensures i in b'.Elems()
        {
          assert i in tracked;
        }
      }
    }
    if includes.Elems() <= b'.Elems() {
      assert includes.Elems() <= b.Elems() by {
        forall i | i in includes.Elems()
          ensures i in b.Elems()
        {
          assert i in tracked;
        }
      }
    }
    if b.Elems() * excludes.Elems() != {} {
      var i :| i in b.Elems() * excludes.Elems();
      assert i in tracked;
      assert i in b'.Elems() * excludes.Elems();
    }
    if b'.Elems() * excludes.Elems() != {} {
      var i :| i in b'.Elems() * excludes.Elems();
      assert i in tracked;
      assert i in b.Elems() * excludes.Elems();
    }
  }

  /**
   * The dispatch gate: when a record's bitset gains or loses one index
   * outside the tracked mask, no query whose sets the mask covers changes
   * its verdict, so skipping the queries keeps every membership exact.
   */
  lemma GateSound(includes: Bits, excludes: Bits, tracked: set<int>, b: Bits, b': Bits, index: int)
    requires includes.Elems() + excludes.Elems() <= tracked
    requires index !in tracked
    requires b'.Elems() == b.Elems() + {index} || b'.Elems() == b.Elems() - {index}
    ensures Matches(includes, excludes, b) == Matches(includes, excludes, b')
  {
    MatchIgnoresUntracked(includes, excludes, tracked, b, b');
  }

  /** The seeding loop of `RegisterQuery`: touches a new query with each record in turn. */
  method SeedQuery(q: Query, entities: seq<EntityData>)
    requires q.entities == {}
    modifies q`entities, entities`queries
    ensures q.entities == set e | e in entities && q.IsMatch(e)
    ensures forall e | e in entities :: e.queries == old(e.queries) + (if q.IsMatch(e) then {q} else {})
  {
    var i := 0;
    while i < |entities|
      invariant 0 <= i <= |entities|
      invariant q.entities == set e | e in entities[..i] && q.IsMatch(e)
      invariant forall e | e in entities ::
        e.queries == old(e.queries) + (if e in q.entities then {q} else {})
      decreases |entities| - i
    {
      var e := entities[i];
      assert entities[..i + 1] == entities[..i] + [e];
      q.Touch(e);
      i := i + 1;
    }
    assert entities[..i] == entities;
  }

  /** The dispatch loop of `OnEntityComponentsSetChanged`: touches each query with the record. */
  method TouchQueries(qs: set<Query>, e: EntityData)
    modifies qs, e`queries
    ensures forall q | q in qs ::
      q.entities == if q.IsMatch(e) then old(q.entities) + {e} else old(q.entities) - {e}
    ensures e.queries - qs == old(e.queries) - qs
    ensures forall q | q in qs ::
      (e in old(q.entities) <==> q in old(e.queries)) ==> (e in q.entities <==> q in e.queries)
  {
    var pending := qs;
    while pending != {}
      invariant pending <= qs
      invariant forall q | q in qs && q !in pending ::
        q.entities == if q.IsMatch(e) then old(q.entities) + {e} else old(q.entities) - {e}
      invariant forall q | q in pending :: q.entities == old(q.entities) && (q in e.queries <==> q in old(e.queries))
      invariant e.queries - qs == old(e.queries) - qs
      invariant forall q | q in qs && q !in pending ::
        (e in old(q.entities) <==> q in old(e.queries)) ==> (e in q.entities <==> q in e.queries)
      decreases pending
    {
      var q :| q in pending;
      q.Touch(e);
      pending := pending - {q};
    }
  }

  // ---------------------------------------------------------------------
  // QueryCollection
  // ---------------------------------------------------------------------

  /** `QueryCollection`: one query per key, and the indexes some query mentions. */
  class QueryCollection {
    const storage: Storage
    const tracked: BitSet
    var queries: map<QueryKey, Query>

    /** Each query carries its key's sets, and the tracked mask covers them all. */
    ghost predicate Valid()
      reads this, tracked
    {
      forall k | k in queries ::
        && queries[k].includes == k.includes && queries[k].excludes == k.excludes
        && k.includes.Elems() + k.excludes.Elems() <= tracked.Contents()
    }

    /** The cached query objects. */
    function Queries(): set<Query>
      reads this
    {
      queries.Values
    }

    /** `new QueryCollection(storage)`: no query and nothing tracked. */
    constructor (storage: Storage)
      ensures this.storage == storage && queries == map[]
      ensures fresh(tracked) && tracked.Contents() == {}
      ensures Valid()
    {
      this.storage := storage;
      var t := BitSet.Empty();
      tracked := t;
      queries := map[];
    }

    /**
     * `RegisterQuery(queryKey)`: the cached query for the key, or a new one
     * cached under it, after adding its sets to the tracked mask, and seeded
     * with the matching records among entities (the stub for
     * `EnumerateEntitiesInternal`).
     */
    method RegisterQuery(key: QueryKey, entities: seq<EntityData>) returns (q: Query)
      requires Valid()
      modifies this`queries, tracked, entities`queries
      ensures Valid()
      ensures key in old(queries) ==>
        && q == old(queries[key]) && queries == old(queries)
        && tracked.Value() == old(tracked.Value())
        && forall e | e in entities :: e.queries == old(e.queries)
      ensures key !in old(queries) ==>
        && fresh(q) && queries == old(queries)[key := q]
        && q.includes == key.includes && q.excludes == key.excludes
        && tracked.Contents() == old(tracked.Contents()) + key.includes.Elems() + key.excludes.Elems()
        && q.entities == (set e | e in entities && q.IsMatch(e))
        && forall e | e in entities :: e.queries == old(e.queries) + (if q.IsMatch(e) then {q} else {})
    {
      if key in queries {
        return queries[key];
      }
      tracked.SetAllFrom(key.includes);
      tracked.SetAllFrom(key.excludes);
      q := new Query(storage, key.includes, key.excludes);
      queries := queries[key := q];
      SeedQuery(q, entities);
    }

    /** `OnComponentAdd(entityId, entityData, compInfo, component)`: the change dispatch. */
    method OnComponentAdd(entityId: EntityId, e: EntityData, info: ComponentInfo, component: Component) returns (r: Result<()>)
      requires Valid()
      modifies Queries(), e`queries
      ensures Valid() && queries == old(queries)
      ensures r.Err? <==> info.index > MaxIndex
      ensures r.Err? ==> r.error == IndexTooBig(info.index)
      ensures r.Err? || info.index !in tracked.Contents() ==>
        e.queries == old(e.queries) && forall q | q in Queries() :: q.entities == old(q.entities)
      ensures r.Ok? && info.index in tracked.Contents() ==> Dispatched(e)
      ensures r.Ok? && info.index in tracked.Contents() ==> forall q | q in Queries() ::
        q.entities == if q.IsMatch(e) then old(q.entities) + {e} else old(q.entities) - {e}
      ensures e.queries - Queries() == old(e.queries) - Queries()
      ensures forall q | q in Queries() ::
        (e in old(q.entities) <==> q in old(e.queries)) ==> (e in q.entities <==> q in e.queries)
    {
      r := OnEntityComponentsSetChanged(info, e);
    }

    /** `OnComponentRemove(entityId, entityData, compInfo)`: the change dispatch. */
    method OnComponentRemove(entityId: EntityId, e: EntityData, info: ComponentInfo) returns (r: Result<()>)
      requires Valid()
      modifies Queries(), e`queries
      ensures Valid() && queries == old(queries)
      ensures r.Err? <==> info.index > MaxIndex
      ensures r.Err? ==> r.error == IndexTooBig(info.index)
      ensures r.Err? || info.index !in tracked.Contents() ==>
        e.queries == old(e.queries) && forall q | q in Queries() :: q.entities == old(q.entities)
      ensures r.Ok? && info.index in tracked.Contents() ==> Dispatched(e)
      ensures r.Ok? && info.index in tracked.Contents() ==> forall q | q in Queries() ::
        q.entities == if q.IsMatch(e) then old(q.entities) + {e} else old(q.entities) - {e}
      ensures e.queries - Queries() == old(e.queries) - Queries()
      ensures forall q | q in Queries() ::
        (e in old(q.entities) <==> q in old(e.queries)) ==> (e in q.entities <==> q in e.queries)
    {
      r := OnEntityComponentsSetChanged(info, e);
    }

    /** Every cached query now holds the record exactly when it matches. */
    ghost predicate Dispatched(e: EntityData)
      reads this, Queries(), e.componentsBits
    {
      forall q | q in Queries() :: (e in q.entities <==> q.IsMatch(e))
    }

    /**
     * `OnEntityComponentsSetChanged(compInfo, entityData)`: nothing to do for
     * an index no query mentions; otherwise every cached query is touched
     * with the record.  An index beyond the bitset fails in `Check`.
     */
    method OnEntityComponentsSetChanged(info: ComponentInfo, e: EntityData) returns (r: Result<()>)
      requires Valid()
      modifies Queries(), e`queries
      ensures Valid() && queries == old(queries)
      ensures r.Err? <==> info.index > MaxIndex
      ensures r.Err? ==> r.error == IndexTooBig(info.index)
      ensures r.Err? || info.index !in tracked.Contents() ==>
        e.queries == old(e.queries) && forall q | q in Queries() :: q.entities == old(q.entities)
      ensures r.Ok? && info.index in tracked.Contents() ==> Dispatched(e)
      ensures r.Ok? && info.index in tracked.Contents() ==> forall q | q in Queries() ::
        q.entities == if q.IsMatch(e) then old(q.entities) + {e} else old(q.entities) - {e}
      ensures e.queries - Queries() == old(e.queries) - Queries()
      ensures forall q | q in Queries() ::
        (e in old(q.entities) <==> q in old(e.queries)) ==> (e in q.entities <==> q in e.queries)
    {
      var isTracked :- tracked.Value().Check(info.index);
      if !isTracked {
        return Ok(());
      }
      TouchQueries(Queries(), e);
      r := Ok(());
    }
  }
}
