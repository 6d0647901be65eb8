/**
 * The repository's unit tests (src/NEconomicon.Tests/BitSetTests.cs and
 * src/NEconomicon.Tests/Storage/StorageTests.cs) restated as methods
 * whose contracts are the tests' assertions.
 *
 * The test scheme registers Character (key 1, field BlueprintId = ""),
 * Level (key 2, field Value = 0) and Exp (key 3, field Value = 0); their
 * stub bit indexes are 0, 1 and 2 in registration order.
 */
module Scenarios {
  import opened Results
  import opened BitSets
  import opened EntityIds
  import opened ComponentKeys
  import opened Schemes
  import opened Store
  import opened QueryBuilders
  import opened QueryKeys
  import opened Opts

  const CharacterInfo: ComponentInfo := ComponentInfo(ComponentKey(1), 0, "Character", map["BlueprintId" := Text("")])
  const LevelInfo: ComponentInfo := ComponentInfo(ComponentKey(2), 1, "Level", map["Value" := Number(0)])
  const ExpInfo: ComponentInfo := ComponentInfo(ComponentKey(3), 2, "Exp", map["Value" := Number(0)])

  /** The scheme built by the tests' `CreateStorage()`. */
  const TestScheme: Scheme :=
    Scheme(map["Character" := CharacterInfo, "Level" := LevelInfo, "Exp" := ExpInfo],
           map[ComponentKey(1) := CharacterInfo, ComponentKey(2) := LevelInfo, ComponentKey(3) := ExpInfo])

  /** The test scheme is well formed. */
  lemma TestSchemeValid()
    ensures TestScheme.Valid()
    ensures TestScheme.byType.Keys == {"Character", "Level", "Exp"}
    ensures TestScheme.byType["Character"] == CharacterInfo
    ensures TestScheme.byType["Level"] == LevelInfo
    ensures TestScheme.byType["Exp"] == ExpInfo
    ensures forall t | t in TestScheme.byType :: TestScheme.byType[t].index <= 2
  {
  }

  /** Every component of the test scheme has one of the first three bits. */
  lemma TestIndex(t: TypeName)
    requires t in TestScheme.byType
    ensures TestScheme.byType[t].index <= 2
  {
    TestSchemeValid();
  }

  // ---------------------------------------------------------------------
  // BitSetTests
  // ---------------------------------------------------------------------

  /**
   * `BitSet_FromEmptyToFull`: an empty set has no bit; after setting the
   * indexes in ascending order up to i, exactly the indexes up to i are set.
   */
  method FromEmptyToFull() returns (b: BitSet)
    ensures b.Value() == FullBits
  {
    b := BitSet.Empty();
    assert forall j | MinIndex <= j <= MaxIndex :: b.Value().Check(j) == Ok(false);
    var i := MinIndex;
    while i <= MaxIndex
      invariant MinIndex <= i <= MaxIndex + 1
      invariant forall j | MinIndex <= j <= MaxIndex :: (j in b.Contents()) == (j < i)
    {
      var _ := b.Set(i);
      assert forall j | MinIndex <= j <= MaxIndex :: b.Value().Check(j) == Ok(j <= i);
      i := i + 1;
    }
    assert b.Contents() == AllIndexes;
    FullElems();
    ElemsDetermine(b.Value(), FullBits);
  }

  /**
   * `BitSet_FromFullToEmpty`: a full set has every bit; after clearing the
   * indexes in ascending order up to i, exactly the indexes above i are set.
   */
  method FromFullToEmpty() returns (b: BitSet)
    ensures b.Value() == EmptyBits
  {
    b := BitSet.Full();
    assert forall j | MinIndex <= j <= MaxIndex :: b.Value().Check(j) == Ok(true);
    var i := MinIndex;
    while i <= MaxIndex
      invariant MinIndex <= i <= MaxIndex + 1
      invariant forall j | MinIndex <= j <= MaxIndex :: (j in b.Contents()) == (i <= j)
    {
      var _ := b.Clear(i);
      assert forall j | MinIndex <= j <= MaxIndex :: b.Value().Check(j) == Ok(j > i);
      i := i + 1;
    }
    assert b.Contents() == {};
    EmptyElems();
    ElemsDetermine(b.Value(), EmptyBits);
  }

  // ---------------------------------------------------------------------
  // StorageTests
  // ---------------------------------------------------------------------

  /** The handle's record holds a component of type t whose fields are s. */
  ghost predicate Holds(e: Entity, t: TypeName, s: ComponentState)
    reads e.data, e.data.components.Values
  {
    && t in e.data.storage.scheme.byType
    && e.data.storage.scheme.byType[t].key in e.data.components
    && e.data.components[e.data.storage.scheme.byType[t].key].state == s
  }

  /**
   * The test's `entity.Get<T>().Field = value` on a record without a
   * component of the type, while the storage holds no released instance of
   * it: `GetOrAdd` hands out a new instance, whose fields are then written.
   */
  method AddFresh(e: Entity, t: TypeName, s: ComponentState) returns (c: Component)
    requires e.data.storage.Valid() && t in e.data.storage.scheme.byType
    requires e.data.storage.scheme.byType[t].key !in e.data.components
    requires PoolAt(e.data.storage.componentsPool, e.data.storage.scheme.byType[t].key) == []
    modifies e.data`components, e.data.storage`componentsPool
    ensures fresh(c) && c.typeName == t && c.state == s
    ensures e.data.components == old(e.data.components)[e.data.storage.scheme.byType[t].key := c]
    ensures e.data.storage.componentsPool == old(e.data.storage.componentsPool)
    ensures e.data.storage.Valid() && (old(e.data.Consistent()) ==> e.data.Consistent())
  {
    var r := e.data.GetOrAdd(t);
    c := r.value.0;
    c.state := s;
  }

  /**
   * The start of both component tests: an entity is created and given a
   * Character, a Level and an Exp with the given field values.
   */
  method CreateWith(storage: Storage, cs: ComponentState, ls: ComponentState, xs: ComponentState)
    returns (e: Entity, c: Component, l: Component, x: Component)
    requires storage.scheme == TestScheme && storage.Valid()
    requires storage.nextEntityId.IsNumeric() && storage.entityDataPool == [] && storage.componentsPool == map[]
    modifies storage`nextEntityId, storage`entityDataPool, storage`componentsPool
    ensures e.id == old(storage.nextEntityId) && storage.nextEntityId == old(storage.nextEntityId).Next().value
    ensures storage.entityDataPool == [] && storage.componentsPool == map[] && storage.Valid()
    ensures fresh(e.data) && e.IsAlive() && e.data.storage == storage && e.data.Consistent()
    ensures fresh(c) && fresh(l) && fresh(x)
    ensures c.typeName == "Character" && l.typeName == "Level" && x.typeName == "Exp"
    ensures c.state == cs && l.state == ls && x.state == xs
    ensures e.data.components == map[ComponentKey(1) := c, ComponentKey(2) := l, ComponentKey(3) := x]
  {
    var r := storage.CreateEntity();
    e := r.value;
    c, l, x := AddThree(e, cs, ls, xs);
  }

  /** A Character, a Level and an Exp, each new, with the given field values, for a record holding none. */
  method AddThree(e: Entity, cs: ComponentState, ls: ComponentState, xs: ComponentState)
    returns (c: Component, l: Component, x: Component)
    requires e.data.storage.scheme == TestScheme && e.data.storage.Valid()
    requires e.data.components == map[] && e.data.storage.componentsPool == map[]
    modifies e.data`components, e.data.storage`componentsPool
    ensures e.data.storage.componentsPool == map[] && e.data.storage.Valid() && e.data.Consistent()
    ensures fresh(c) && fresh(l) && fresh(x)
    ensures c.typeName == "Character" && l.typeName == "Level" && x.typeName == "Exp"
    ensures c.state == cs && l.state == ls && x.state == xs
    ensures e.data.components == map[ComponentKey(1) := c, ComponentKey(2) := l, ComponentKey(3) := x]
  {
    TestSchemeValid();
    c := AddFresh(e, "Character", cs);
    assert e.data.components == map[ComponentKey(1) := c];
    l := AddFresh(e, "Level", ls);
    assert e.data.components == map[ComponentKey(1) := c, ComponentKey(2) := l];
    x := AddFresh(e, "Exp", xs);
  }

  /** One entity of the numeric-identifier test. */
  method CreateHero(storage: Storage, blueprint: string, level: int, exp: int) returns (e: Entity)
    requires storage.scheme == TestScheme && storage.Valid()
    requires storage.nextEntityId.IsNumeric() && storage.entityDataPool == [] && storage.componentsPool == map[]
    modifies storage`nextEntityId, storage`entityDataPool, storage`componentsPool
    ensures e.id == old(storage.nextEntityId) && storage.nextEntityId == old(storage.nextEntityId).Next().value
    ensures storage.entityDataPool == [] && storage.componentsPool == map[] && storage.Valid()
    ensures fresh(e.data) && e.IsAlive()
    ensures Holds(e, "Character", map["BlueprintId" := Text(blueprint)])
    ensures Holds(e, "Level", map["Value" := Number(level)])
    ensures Holds(e, "Exp", map["Value" := Number(exp)])
  {
    var c, l, x;
    e, c, l, x := CreateWith(storage, map["BlueprintId" := Text(blueprint)], map["Value" := Number(level)], map["Value" := Number(exp)]);
  }

  /**
   * `Storage_ShouldCreateEntityWithNumericId`: two entities created in turn
   * get the numeric identifiers 0 and 1, both alive, and each keeps the
   * field values written into its own components.  The test's `Get<T>()` on
   * an entity without queries comes down to `GetOrAdd`.
   */
  method CreateEntityWithNumericId() returns (e1: Entity, e2: Entity)
    ensures e1.id == Numeric(0) && e2.id == Numeric(1)
    ensures e1.IsAlive() && e2.IsAlive()
    ensures Holds(e1, "Character", map["BlueprintId" := Text("monk")])
    ensures Holds(e1, "Level", map["Value" := Number(1)])
    ensures Holds(e1, "Exp", map["Value" := Number(0)])
    ensures Holds(e2, "Character", map["BlueprintId" := Text("mage")])
    ensures Holds(e2, "Level", map["Value" := Number(2)])
    ensures Holds(e2, "Exp", map["Value" := Number(100)])
  {
    TestSchemeValid();
    var storage := new Storage(TestScheme, Null);
    e1 := CreateHero(storage, "monk", 1, 0);
    assert storage.nextEntityId == Numeric(1);
    e2 := CreateHero(storage, "mage", 2, 100);
  }

  /** The first entity of a new storage on the test scheme, then deactivated. */
  method FirstThenDeactivated(storage: Storage) returns (first: Entity)
    requires storage.scheme == TestScheme && storage.nextEntityId == Numeric(0)
    requires storage.entityDataPool == []
    modifies storage`nextEntityId, storage`entityDataPool, storage`componentsPool
    ensures first.id == Numeric(0) && fresh(first.data) && first.data.entityId == Numeric(0)
    ensures storage.nextEntityId == Numeric(1)
  {
    var r := storage.CreateEntity();
    first := r.value;
    first.data.Deactivate();
  }

  /** The record d pushed on the record pool and handed out again by `CreateEntity`. */
  method Reuse(storage: Storage, d: EntityData) returns (e: Entity)
    requires storage.nextEntityId.IsNumeric()
    modifies storage`nextEntityId, storage`entityDataPool, d`entityId, d`isAlive
    ensures e.data == d && e.IsAlive() && e.id == old(storage.nextEntityId)
  {
    storage.entityDataPool := [d];
    var r := storage.CreateEntity();
    e := r.value;
  }

  /**
   * Reuse of a record: after the first entity's record goes back to the
   * record pool (the push `DestroyEntity` makes, done here directly) and
   * `CreateEntity` hands it out again, the first handle is no longer alive
   * while the new handle on the same record is.
   */
  method StaleHandleAfterReuse() returns (first: Entity, second: Entity)
    ensures first.id == Numeric(0) && second.id == Numeric(1)
    ensures second.data == first.data && second.IsAlive() && !first.IsAlive()
  {
    var storage := new Storage(TestScheme, Null);
    first := FirstThenDeactivated(storage);
    second := Reuse(storage, first.data);
  }

  /**
   * The test's `entity.Get<T>()` for each of the three types on a record
   * holding no component, while each type's stack holds one released
   * instance: `GetOrAdd` hands out and pops each of them.
   */
  method TakeReleased(e: Entity, c: Component, l: Component, x: Component)
    requires e.data.storage.scheme == TestScheme && e.data.storage.Valid() && e.data.components == map[]
    requires PoolAt(e.data.storage.componentsPool, ComponentKey(1)) == [c]
    requires PoolAt(e.data.storage.componentsPool, ComponentKey(2)) == [l]
    requires PoolAt(e.data.storage.componentsPool, ComponentKey(3)) == [x]
    modifies e.data`components, e.data.storage`componentsPool
    ensures e.data.components == map[ComponentKey(1) := c, ComponentKey(2) := l, ComponentKey(3) := x]
  {
    TestSchemeValid();
    var rc := e.data.GetOrAdd("Character");
    assert rc.value.0 == c;
    var rl := e.data.GetOrAdd("Level");
    assert rl.value.0 == l;
    var rx := e.data.GetOrAdd("Exp");
    assert rx.value.0 == x;
  }

  /**
   * `DestroyEntity` is not modelled; the record's `Deactivate` stands in
   * for it.  With no released instance before, each of the
   * three components is reset and alone on its key's stack.
   */
  method Release(e: Entity, c: Component, l: Component, x: Component)
    requires e.data.storage.Valid() && e.data.Consistent()
    requires e.data.storage.componentsPool == map[]
    requires e.data.components == map[ComponentKey(1) := c, ComponentKey(2) := l, ComponentKey(3) := x]
    requires c.typeName in e.data.storage.scheme.byType && l.typeName in e.data.storage.scheme.byType
    requires x.typeName in e.data.storage.scheme.byType
    modifies e.data`components, e.data`isAlive, e.data.storage`componentsPool, c, l, x
    ensures e.data.storage.Valid() && !e.IsAlive()
    ensures PoolAt(e.data.storage.componentsPool, ComponentKey(1)) == [c]
    ensures PoolAt(e.data.storage.componentsPool, ComponentKey(2)) == [l]
    ensures PoolAt(e.data.storage.componentsPool, ComponentKey(3)) == [x]
    ensures c.state == e.data.storage.scheme.byType[c.typeName].defaults
    ensures l.state == e.data.storage.scheme.byType[l.typeName].defaults
    ensures x.state == e.data.storage.scheme.byType[x.typeName].defaults
  {
    var held := e.data.components;
    e.data.Deactivate();
    assert ComponentKey(1) in held && ComponentKey(2) in held && ComponentKey(3) in held;
    ReleasedPools(map[], held);
  }

  /**
   * The first half of `Storage_ShouldReuseComponentsFromDestroyedEntities`:
   * an entity gets a Character, a Level and an Exp with fields written, and
   * is destroyed.
   */
  method CreateAndRelease(storage: Storage) returns (c: Component, l: Component, x: Component)
    requires storage.scheme == TestScheme && storage.Valid()
    requires storage.nextEntityId.IsNumeric() && storage.entityDataPool == [] && storage.componentsPool == map[]
    modifies storage`nextEntityId, storage`entityDataPool, storage`componentsPool
    ensures storage.nextEntityId.IsNumeric() && storage.entityDataPool == [] && storage.Valid()
    ensures PoolAt(storage.componentsPool, ComponentKey(1)) == [c]
    ensures PoolAt(storage.componentsPool, ComponentKey(2)) == [l]
    ensures PoolAt(storage.componentsPool, ComponentKey(3)) == [x]
    ensures c.state == CharacterInfo.defaults && l.state == LevelInfo.defaults && x.state == ExpInfo.defaults
  {
    var e;
    e, c, l, x := CreateWith(storage, map["BlueprintId" := Text("monk")], map["Value" := Number(1)], map["Value" := Number(0)]);
    Release(e, c, l, x);
    TestSchemeValid();
  }

  /**
   * `Storage_ShouldReuseComponentsFromDestroyedEntities`: the next entity
   * holds no component, and asking it for each type hands out the very
   * instance the destroyed entity had, with its fields back at their
   * defaults.
   */
  method ReuseComponentsFromDestroyedEntities() returns (first: seq<Component>, second: seq<Component>, e: Entity)
    ensures |first| == 3 && second == first
    ensures e.IsAlive() && e.data.componentsCount == 0
    ensures Holds(e, "Character", map["BlueprintId" := Text("")])
    ensures Holds(e, "Level", map["Value" := Number(0)])
    ensures Holds(e, "Exp", map["Value" := Number(0)])
  {
    TestSchemeValid();
    var storage := new Storage(TestScheme, Null);
    var c, l, x := CreateAndRelease(storage);
    first := [c, l, x];
    var r := storage.CreateEntity();
    e := r.value;
    assert e.data.componentsCount == 0;
    TakeReleased(e, c, l, x);
    second := [e.data.components[ComponentKey(1)], e.data.components[ComponentKey(2)], e.data.components[ComponentKey(3)]];
  }

  /**
   * What `Storage_ShouldReuseComponentsFromDestroyedEntities` relies on, on
   * `ReleaseComponent` as written: an instance released while its key has
   * no stack is lost, and the next request for the type makes a new one.
   */
  method ReleaseAsWrittenLosesInstance() returns (reused: bool)
    ensures !reused
  {
    TestSchemeValid();
    var storage := new Storage(TestScheme, Null);
    var got := storage.GetComponent("Character");
    var c := got.value.0;
    var _ := storage.ReleaseComponentAsWritten(c);
    var again := storage.GetComponent("Character");
    reused := again.value.0 == c;
  }

  /** A new entity of a new storage on the test scheme. */
  method NewOnTestScheme() returns (e: Entity)
    ensures fresh(e.data) && fresh(e.data.storage)
    ensures e.data.storage.scheme == TestScheme && e.data.storage.Valid() && e.data.storage.componentsPool == map[]
    ensures e.data.components == map[]
  {
    TestSchemeValid();
    var storage := new Storage(TestScheme, Null);
    var r := storage.CreateEntity();
    e := r.value;
  }

  /** A new entity of a new storage on the test scheme, holding a new Character. */
  method WithCharacter() returns (e: Entity)
    ensures fresh(e.data) && fresh(e.data.storage) && fresh(e.data.ComponentObjects())
    ensures e.data.storage.scheme == TestScheme && e.data.storage.componentsPool == map[]
    ensures e.data.Consistent() && |e.data.components| == 1
  {
    e := NewOnTestScheme();
    TestSchemeValid();
    var c := AddFresh(e, "Character", map["BlueprintId" := Text("monk")]);
    assert e.data.ComponentObjects() == {c};
  }

  /**
   * `Deactivate` as written on a new storage: the record's Character is
   * reset but reaches no pool, because no stack is ever stored.
   */
  method DeactivateAsWrittenDropsComponents() returns (pools: map<ComponentKey, seq<Component>>, held: nat)
    ensures held == 1 && pools == map[]
  {
    var e := WithCharacter();
    held := |e.data.components|;
    ghost var comps := e.data.components;
    e.data.DeactivateAsWritten();
    ReleasedAsWrittenPools(map[], comps);
    pools := e.data.storage.componentsPool;
  }

  /** The same sequence on the corrected `ReleaseComponent` hands the instance out again, reset. */
  method ReleaseCorrectedReusesInstance() returns (reused: bool, state: ComponentState)
    ensures reused && state == CharacterInfo.defaults
  {
    TestSchemeValid();
    var storage := new Storage(TestScheme, Null);
    var got := storage.GetComponent("Character");
    var c := got.value.0;
    c.state := map["BlueprintId" := Text("monk")];
    var _ := storage.ReleaseComponent(c);
    var again := storage.GetComponent("Character");
    reused := again.value.0 == c;
    state := again.value.0.state;
  }

  // ---------------------------------------------------------------------
  // Queries
  // ---------------------------------------------------------------------

  /**
   * Stub for `Entity.Get<T>()`, which is not part of this model, as the
   * query tests rely on it: `GetOrAdd`, then the type's bit set in the
   * record's bitset (`EntityData.ComponentsBitSet`) and `OnComponentAdd` on
   * the storage's query collection.
   */
  method Get(collection: QueryCollection, e: Entity, t: TypeName) returns (c: Component)
    requires collection.Valid() && e.data.storage.Valid() && t in e.data.storage.scheme.byType
    requires e.data.storage.scheme.byType[t].index <= MaxIndex
    requires e.data.componentsBits != collection.tracked
    modifies e.data`components, e.data.storage`componentsPool, e.data.componentsBits, collection.Queries(), e.data`queries
    ensures collection.Valid() && collection.queries == old(collection.queries)
    ensures e.data.storage.Valid() && e.data.Find(t) == Ok(Some(c))
    ensures e.data.componentsBits.Contents() == old(e.data.componentsBits.Contents()) + {e.data.storage.scheme.byType[t].index}
    ensures e.data.storage.scheme.byType[t].index in collection.tracked.Contents() ==>
      forall q | q in collection.Queries() ::
        q.entities == if q.IsMatch(e.data) then old(q.entities) + {e.data} else old(q.entities) - {e.data}
    ensures e.data.storage.scheme.byType[t].index !in collection.tracked.Contents() ==>
      forall q | q in collection.Queries() :: q.entities == old(q.entities)
  {
    var r := e.data.GetOrAdd(t);
    c := r.value.0;
    var info := e.data.storage.scheme.byType[t];
    var _ := e.data.componentsBits.Set(info.index);
    var _ := collection.OnComponentAdd(e.id, e.data, info, c);
  }

  /**
   * Stub for the part of `Entity.Remove<T>()` (not part of this model, nor
   * is `EntityData.Remove`) that the query test relies on: the type's bit
   * cleared in the record's bitset and `OnComponentRemove` on the storage's
   * query collection.  The model leaves the instance with the record.
   */
  method Remove(collection: QueryCollection, e: Entity, t: TypeName)
    requires collection.Valid() && t in e.data.storage.scheme.byType
    requires e.data.storage.scheme.byType[t].index <= MaxIndex
    requires e.data.componentsBits != collection.tracked
    modifies e.data.componentsBits, collection.Queries(), e.data`queries
    ensures collection.Valid() && collection.queries == old(collection.queries)
    ensures e.data.componentsBits.Contents() == old(e.data.componentsBits.Contents()) - {e.data.storage.scheme.byType[t].index}
    ensures e.data.storage.scheme.byType[t].index in collection.tracked.Contents() ==>
      forall q | q in collection.Queries() ::
        q.entities == if q.IsMatch(e.data) then old(q.entities) + {e.data} else old(q.entities) - {e.data}
    ensures e.data.storage.scheme.byType[t].index !in collection.tracked.Contents() ==>
      forall q | q in collection.Queries() :: q.entities == old(q.entities)
  {
    var info := e.data.storage.scheme.byType[t];
    var _ := e.data.componentsBits.Clear(info.index);
    var _ := collection.OnComponentRemove(e.id, e.data, info);
  }

  /**
   * The tests' query definitions: `q.Include<Character>()` on the entry
   * point, then `.Include<Level>()` when withLevel, then `.Exclude<Exp>()`
   * when withoutExp.
   */
  method HeroBuilder(storage: Storage, withLevel: bool, withoutExp: bool) returns (b: QueryBuilder)
    requires storage.scheme == TestScheme
    requires withoutExp ==> withLevel
    ensures fresh(b) && b.storage == storage && b.Separate()
    ensures b.includes.Contents() == {0} + (if withLevel then {1} else {})
    ensures b.excludes.Contents() == if withoutExp then {2} else {}
  {
    TestSchemeValid();
    var entry := QueryBuilderEntryPoint(storage);
    var r := entry.Include("Character");
    b := r.value;
    assert b.State().0 == {0} && b.State().1 == {};
    if withLevel {
      r := b.Include("Level");
      assert b.State().0 == {0, 1} && b.State().1 == {};
    }
    if withoutExp {
      r := b.Exclude("Exp");
      assert b.State().0 == {0, 1} && b.State().1 == {2};
    }
  }

  /** A query definition of the tests, built on the storage's collection. */
  method HeroQuery(collection: QueryCollection, entities: seq<EntityData>, withLevel: bool, withoutExp: bool)
    returns (q: Query)
    requires collection.Valid() && collection.storage.scheme == TestScheme
    requires withoutExp ==> withLevel
    modifies collection`queries, collection.tracked, entities`queries
    ensures collection.Valid()
    ensures q.includes.Elems() == {0} + (if withLevel then {1} else {})
    ensures q.excludes.Elems() == if withoutExp then {2} else {}
    ensures collection.queries == old(collection.queries)[QueryKey(q.includes, q.excludes) := q]
    ensures collection.tracked.Contents() == old(collection.tracked.Contents()) + q.includes.Elems() + q.excludes.Elems()
    ensures QueryKey(q.includes, q.excludes) in old(collection.queries) ==>
      q == old(collection.queries)[QueryKey(q.includes, q.excludes)]
    ensures QueryKey(q.includes, q.excludes) !in old(collection.queries) ==>
      fresh(q) && q.entities == set e | e in entities && q.IsMatch(e)
  {
    var b := HeroBuilder(collection.storage, withLevel, withoutExp);
    q := b.Build(collection, entities);
  }

  /** The records behind a sequence of handles. */
  ghost function Records(handles: seq<Entity>): set<EntityData>
  {
    set h | h in handles :: h.data
  }

  /** A bitset selected by the test's definition: a Character, a Level when withLevel, no Exp when withoutExp. */
  ghost predicate Selects(withLevel: bool, withoutExp: bool, bits: set<int>)
  {
    0 in bits && (withLevel ==> 1 in bits) && (withoutExp ==> 2 !in bits)
  }

  /** A query of the tests selects what its definition describes. */
  lemma SelectsMatch(q: Query, b: Bits, withLevel: bool, withoutExp: bool)
    requires q.includes.Elems() == {0} + (if withLevel then {1} else {})
    requires q.excludes.Elems() == if withoutExp then {2} else {}
    ensures Matches(q.includes, q.excludes, b) == Selects(withLevel, withoutExp, b.Elems())
  {
    var elems := b.Elems();
    if withoutExp && 2 in elems {
      assert 2 in elems * q.excludes.Elems();
    } else {
      assert elems * q.excludes.Elems() == {};
    }
  }

  /** The test's `entity.Get<T>()` while no query exists: only the record's bitset changes. */
  method GetUnqueried(collection: QueryCollection, e: Entity, t: TypeName)
    requires collection.Valid() && collection.queries == map[]
    requires e.data.storage.scheme == TestScheme && e.data.storage.Valid() && t in TestScheme.byType
    requires e.data.componentsBits != collection.tracked
    modifies e.data`components, e.data.storage`componentsPool, e.data.componentsBits, e.data`queries
    ensures e.data.storage.Valid()
    ensures e.data.componentsBits.Contents() == old(e.data.componentsBits.Contents()) + {TestScheme.byType[t].index}
  {
    TestSchemeValid();
    var _ := Get(collection, e, t);
  }

  /**
   * An entity of `Storage_Query_ShouldIndexAlreadyExistEntities`: created,
   * then asked for the chosen components while no query exists.
   */
  method EntityWith(storage: Storage, collection: QueryCollection, c: bool, l: bool, x: bool) returns (e: Entity)
    requires storage.scheme == TestScheme && storage.Valid()
    requires storage.nextEntityId.IsNumeric() && storage.entityDataPool == []
    requires collection.Valid() && collection.queries == map[]
    modifies storage`nextEntityId, storage`entityDataPool, storage`componentsPool
    ensures storage.Valid() && storage.nextEntityId.IsNumeric() && storage.entityDataPool == []
    ensures fresh(e.data) && fresh(e.data.componentsBits) && e.data.storage == storage
    ensures e.data.componentsBits.Contents() == (if c then {0} else {}) + (if l then {1} else {}) + (if x then {2} else {})
  {
    var r := storage.CreateEntity();
    e := r.value;
    GiveComponents(collection, e, c, l, x);
  }

  /** The test's `Get<T>()` calls on a new record, for the chosen types, while no query exists. */
  method GiveComponents(collection: QueryCollection, e: Entity, c: bool, l: bool, x: bool)
    requires collection.Valid() && collection.queries == map[]
    requires e.data.storage.scheme == TestScheme && e.data.storage.Valid()
    requires e.data.componentsBits != collection.tracked && e.data.componentsBits.Contents() == {}
    modifies e.data`components, e.data.storage`componentsPool, e.data.componentsBits, e.data`queries
    ensures e.data.storage.Valid()
    ensures e.data.componentsBits.Contents() == (if c then {0} else {}) + (if l then {1} else {}) + (if x then {2} else {})
  {
    TestSchemeValid();
    if c {
      GetUnqueried(collection, e, "Character");
    }
    if l {
      GetUnqueried(collection, e, "Level");
    }
    if x {
      GetUnqueried(collection, e, "Exp");
    }
  }

  /** The four entities of the test, on a collection with no query yet. */
  method CreateFourEntities() returns (collection: QueryCollection, ds: seq<EntityData>)
    ensures collection.Valid() && collection.queries == map[] && collection.storage.scheme == TestScheme
    ensures |ds| == 4 && fresh(ds[0]) && fresh(ds[1]) && fresh(ds[2]) && fresh(ds[3])
    ensures ds[0] != ds[1] && ds[0] != ds[2] && ds[0] != ds[3] && ds[1] != ds[2] && ds[1] != ds[3] && ds[2] != ds[3]
    ensures fresh(collection.tracked)
    ensures forall i | 0 <= i < 4 :: ds[i].componentsBits != collection.tracked
    ensures ds[0].componentsBits.Contents() == {0, 1}
    ensures ds[1].componentsBits.Contents() == {0, 1, 2}
    ensures ds[2].componentsBits.Contents() == {0, 2}
    ensures ds[3].componentsBits.Contents() == {1, 2}
  {
    TestSchemeValid();
    var storage := new Storage(TestScheme, Null);
    collection := new QueryCollection(storage);
    ds := FourEntities(storage, collection);
  }

  /** The four entities of the test, created on a storage whose collection has no query yet. */
  method FourEntities(storage: Storage, collection: QueryCollection) returns (ds: seq<EntityData>)
    requires storage.scheme == TestScheme && storage.Valid()
    requires storage.nextEntityId.IsNumeric() && storage.entityDataPool == []
    requires collection.Valid() && collection.queries == map[]
    modifies storage`nextEntityId, storage`entityDataPool, storage`componentsPool
    ensures |ds| == 4 && fresh(ds[0]) && fresh(ds[1]) && fresh(ds[2]) && fresh(ds[3])
    ensures ds[0] != ds[1] && ds[0] != ds[2] && ds[0] != ds[3] && ds[1] != ds[2] && ds[1] != ds[3] && ds[2] != ds[3]
    ensures forall i | 0 <= i < 4 :: fresh(ds[i].componentsBits)
    ensures ds[0].componentsBits.Contents() == {0, 1}
    ensures ds[1].componentsBits.Contents() == {0, 1, 2}
    ensures ds[2].componentsBits.Contents() == {0, 2}
    ensures ds[3].componentsBits.Contents() == {1, 2}
  {
    var e0 := EntityWith(storage, collection, true, true, false);
    assert e0.data.componentsBits.Contents() == {0, 1};
    var e1 := EntityWith(storage, collection, true, true, true);
    assert e1.data.componentsBits.Contents() == {0, 1, 2};
    var e2 := EntityWith(storage, collection, true, false, true);
    assert e2.data.componentsBits.Contents() == {0, 2};
    var e3 := EntityWith(storage, collection, false, true, true);
    assert e3.data.componentsBits.Contents() == {1, 2};
    ds := [e0.data, e1.data, e2.data, e3.data];
  }

  /** Which of the test's four records a definition selects. */
  lemma SelectedAmongFour(ds: seq<EntityData>, withLevel: bool, withoutExp: bool)
    requires |ds| == 4 && (withoutExp ==> withLevel)
    requires ds[0] != ds[1] && ds[0] != ds[2] && ds[1] != ds[2]
    requires ds[0].componentsBits.Contents() == {0, 1}
    requires ds[1].componentsBits.Contents() == {0, 1, 2}
    requires ds[2].componentsBits.Contents() == {0, 2}
    requires ds[3].componentsBits.Contents() == {1, 2}
    ensures (set d | d in ds && Selects(withLevel, withoutExp, d.componentsBits.Contents())) ==
      if !withLevel then {ds[0], ds[1], ds[2]} else if !withoutExp then {ds[0], ds[1]} else {ds[0]}
    ensures |set d | d in ds && Selects(withLevel, withoutExp, d.componentsBits.Contents())| ==
      if !withLevel then 3 else if !withoutExp then 2 else 1
  {
    assert Selects(withLevel, withoutExp, ds[0].componentsBits.Contents());
    assert Selects(withLevel, withoutExp, ds[1].componentsBits.Contents()) == !withoutExp;
    assert Selects(withLevel, withoutExp, ds[2].componentsBits.Contents()) == !withLevel;
    assert !Selects(withLevel, withoutExp, ds[3].componentsBits.Contents());
  }

  /**
   * A query of the tests created over existing records, then
   * `GetEntities()`: the handles of exactly the records it selects.
   */
  method SelectExisting(collection: QueryCollection, ds: seq<EntityData>, withLevel: bool, withoutExp: bool)
    returns (handles: seq<Entity>)
    requires collection.Valid() && collection.storage.scheme == TestScheme
    requires withoutExp ==> withLevel
    requires forall k | k in collection.queries ::
      k.includes.Elems() != {0} + (if withLevel then {1} else {}) || k.excludes.Elems() != (if withoutExp then {2} else {})
    modifies collection`queries, collection.tracked, ds`queries
    ensures collection.Valid()
    ensures forall k | k in collection.queries ::
      || k in old(collection.queries)
      || (k.includes.Elems() == {0} + (if withLevel then {1} else {}) && k.excludes.Elems() == (if withoutExp then {2} else {}))
    ensures Records(handles) == set d | d in ds && Selects(withLevel, withoutExp, d.componentsBits.Contents())
    ensures |handles| == |Records(handles)|
  {
    var q := HeroQuery(collection, ds, withLevel, withoutExp);
    forall d | d in ds
      ensures q.IsMatch(d) == Selects(withLevel, withoutExp, d.componentsBits.Contents())
    {
      SelectsMatch(q, d.componentsBits.Value(), withLevel, withoutExp);
    }
    handles := q.GetEntities();
    assert Records(handles) == q.entities;
  }

  /** The same over the test's four records. */
  method SelectAmongFour(collection: QueryCollection, ds: seq<EntityData>, withLevel: bool, withoutExp: bool)
    returns (handles: seq<Entity>)
    requires collection.Valid() && collection.storage.scheme == TestScheme
    requires withoutExp ==> withLevel
    requires forall k | k in collection.queries ::
      k.includes.Elems() != {0} + (if withLevel then {1} else {}) || k.excludes.Elems() != (if withoutExp then {2} else {})
    requires |ds| == 4 && ds[0] != ds[1] && ds[0] != ds[2] && ds[1] != ds[2]
    requires forall i | 0 <= i < 4 :: ds[i].componentsBits != collection.tracked
    requires ds[0].componentsBits.Contents() == {0, 1}
    requires ds[1].componentsBits.Contents() == {0, 1, 2}
    requires ds[2].componentsBits.Contents() == {0, 2}
    requires ds[3].componentsBits.Contents() == {1, 2}
    modifies collection`queries, collection.tracked, ds`queries
    ensures collection.Valid()
    ensures forall k | k in collection.queries ::
      || k in old(collection.queries)
      || (k.includes.Elems() == {0} + (if withLevel then {1} else {}) && k.excludes.Elems() == (if withoutExp then {2} else {}))
    ensures Records(handles) == if !withLevel then {ds[0], ds[1], ds[2]} else if !withoutExp then {ds[0], ds[1]} else {ds[0]}
    ensures |handles| == if !withLevel then 3 else if !withoutExp then 2 else 1
  {
    handles := SelectExisting(collection, ds, withLevel, withoutExp);
    SelectedAmongFour(ds, withLevel, withoutExp);
  }

  /**
   * `Storage_Query_ShouldIndexAlreadyExistEntities`: queries created after
   * the entities got their components find the records that match: three
   * with a Character, two of them with a Level, one of those without Exp.
   */
  method IndexAlreadyExistingEntities() returns (ds: seq<EntityData>, characters: seq<Entity>, withLevel: seq<Entity>, withoutExp: seq<Entity>)
    ensures |ds| == 4
    ensures |characters| == 3 && Records(characters) == {ds[0], ds[1], ds[2]}
    ensures |withLevel| == 2 && Records(withLevel) == {ds[0], ds[1]}
    ensures |withoutExp| == 1 && Records(withoutExp) == {ds[0]}
  {
    var collection;
    collection, ds := CreateFourEntities();
    characters := SelectAmongFour(collection, ds, false, false);
    withLevel := SelectAmongFour(collection, ds, true, false);
    withoutExp := SelectAmongFour(collection, ds, true, true);
  }

  /**
   * `Storage_Query_ShouldReturnsSameQueriesForSimilarDefinitions`: building
   * a definition twice returns the same query object, and a different
   * definition a different one.
   */
  method SameQueriesForSimilarDefinitions() returns (q1: Query, q2: Query, q3: Query, q4: Query)
    ensures q1 == q2 && q3 == q4 && q1 != q3
  {
    TestSchemeValid();
    var storage := new Storage(TestScheme, Null);
    var collection := new QueryCollection(storage);
    q1 := HeroQuery(collection, [], false, false);
    q2 := HeroQuery(collection, [], false, false);
    ElemsDetermine(q1.includes, q2.includes);
    ElemsDetermine(q1.excludes, q2.excludes);
    q3 := HeroQuery(collection, [], true, true);
    assert q3.includes != q1.includes;
    q4 := HeroQuery(collection, [], true, true);
    ElemsDetermine(q3.includes, q4.includes);
    ElemsDetermine(q3.excludes, q4.excludes);
  }

  /** A bitset that holds a Character and a Level but no Exp. */
  ghost predicate HeroWithoutExp(bits: set<int>)
  {
    0 in bits && 1 in bits && 2 !in bits
  }

  /**
   * The state the query test keeps: the collection caches the one query,
   * for Character and Level without Exp, and the record is a member of it
   * exactly when its bitset matches.
   */
  ghost predicate Tracks(collection: QueryCollection, q: Query, e: Entity)
    reads collection, collection.tracked, q, e.data, e.data.storage, e.data.componentsBits
  {
    && collection.Valid() && collection.Queries() == {q}
    && q.includes.Elems() == {0, 1} && q.excludes.Elems() == {2}
    && e.data.storage.scheme == TestScheme && e.data.storage.Valid()
    && e.data.componentsBits != collection.tracked && {0, 1, 2} <= collection.tracked.Contents()
    && q.entities == if HeroWithoutExp(e.data.componentsBits.Contents()) then {e.data} else {}
  }

  /** The query of the test matches a bitset exactly when it holds a Character and a Level but no Exp. */
  lemma HeroMatch(q: Query, b: Bits)
    requires q.includes.Elems() == {0, 1} && q.excludes.Elems() == {2}
    ensures Matches(q.includes, q.excludes, b) == HeroWithoutExp(b.Elems())
  {
    var elems := b.Elems();
    if 2 in elems {
      assert 2 in elems * q.excludes.Elems();
    } else {
      assert elems * q.excludes.Elems() == {};
    }
  }

  /** After a dispatch the record is in the query exactly when the test's bitset condition holds. */
  lemma Settle(q: Query, e: Entity, before: set<EntityData>)
    requires q.includes.Elems() == {0, 1} && q.excludes.Elems() == {2} && before <= {e.data}
    requires q.entities == if q.IsMatch(e.data) then before + {e.data} else before - {e.data}
    ensures q.entities == if HeroWithoutExp(e.data.componentsBits.Contents()) then {e.data} else {}
  {
    HeroMatch(q, e.data.componentsBits.Value());
  }

  /** The test's `entity.Get<T>()`: the record is then in the query exactly when its bits select a hero without Exp. */
  method GetStep(collection: QueryCollection, q: Query, e: Entity, t: TypeName)
    requires Tracks(collection, q, e) && t in TestScheme.byType
    modifies e.data`components, e.data.storage`componentsPool, e.data.componentsBits, q, e.data`queries
    ensures collection.Valid() && collection.queries == old(collection.queries) && e.data.storage.Valid()
    ensures e.data.componentsBits.Contents() == old(e.data.componentsBits.Contents()) + {TestScheme.byType[t].index}
    ensures q.entities == if HeroWithoutExp(e.data.componentsBits.Contents()) then {e.data} else {}
  {
    TestIndex(t);
    assert TestScheme.byType[t].index in collection.tracked.Contents();
    ghost var before := q.entities;
    var _ := Get(collection, e, t);
    assert q in collection.Queries();
    Settle(q, e, before);
  }

  /** `entity.Get<T>()` followed by reading `query.Count`. */
  method GetThenCount(collection: QueryCollection, q: Query, e: Entity, t: TypeName) returns (n: nat)
    requires Tracks(collection, q, e) && t in TestScheme.byType
    modifies e.data`components, e.data.storage`componentsPool, e.data.componentsBits, q, e.data`queries
    ensures Tracks(collection, q, e)
    ensures e.data.componentsBits.Contents() == old(e.data.componentsBits.Contents()) + {TestScheme.byType[t].index}
    ensures n == q.Count() && n == if HeroWithoutExp(e.data.componentsBits.Contents()) then 1 else 0
  {
    GetStep(collection, q, e, t);
    n := q.Count();
  }

  /** The test's `entity.Remove<T>()`: the record is then in the query exactly when its bits select a hero without Exp. */
  method RemoveStep(collection: QueryCollection, q: Query, e: Entity, t: TypeName)
    requires Tracks(collection, q, e) && t in TestScheme.byType
    modifies e.data.componentsBits, q, e.data`queries
    ensures collection.Valid() && collection.queries == old(collection.queries)
    ensures e.data.componentsBits.Contents() == old(e.data.componentsBits.Contents()) - {TestScheme.byType[t].index}
    ensures q.entities == if HeroWithoutExp(e.data.componentsBits.Contents()) then {e.data} else {}
  {
    TestIndex(t);
    assert TestScheme.byType[t].index in collection.tracked.Contents();
    ghost var before := q.entities;
    Remove(collection, e, t);
    assert q in collection.Queries();
    Settle(q, e, before);
  }

  /** `entity.Remove<T>()` followed by reading `query.Count`. */
  method RemoveThenCount(collection: QueryCollection, q: Query, e: Entity, t: TypeName) returns (n: nat)
    requires Tracks(collection, q, e) && t in TestScheme.byType
    modifies e.data.componentsBits, q, e.data`queries
    ensures Tracks(collection, q, e)
    ensures e.data.componentsBits.Contents() == old(e.data.componentsBits.Contents()) - {TestScheme.byType[t].index}
    ensures n == q.Count() && n == if HeroWithoutExp(e.data.componentsBits.Contents()) then 1 else 0
  {
    RemoveStep(collection, q, e, t);
    n := q.Count();
  }

  /** The test's start: the query is built on a new storage's collection. */
  method NewHeroQuery() returns (storage: Storage, collection: QueryCollection, q: Query)
    ensures fresh(storage) && fresh(q) && storage.scheme == TestScheme && storage.Valid()
    ensures storage.nextEntityId == Numeric(0) && storage.entityDataPool == []
    ensures collection.Valid() && collection.Queries() == {q} && {0, 1, 2} <= collection.tracked.Contents()
    ensures q.includes.Elems() == {0, 1} && q.excludes.Elems() == {2} && q.entities == {}
  {
    TestSchemeValid();
    storage := new Storage(TestScheme, Null);
    collection := new QueryCollection(storage);
    q := HeroQuery(collection, [], true, true);
    assert collection.queries == map[QueryKey(q.includes, q.excludes) := q];
  }

  /** Then one entity is created: it has no component and is in no query. */
  method HeroQueryThenEntity() returns (collection: QueryCollection, q: Query, e: Entity, before: nat, created: nat)
    ensures Tracks(collection, q, e) && e.data.componentsBits.Contents() == {}
    ensures before == 0 && created == 0
    ensures fresh(e.data) && fresh(e.data.componentsBits) && fresh(e.data.storage) && fresh(q)
  {
    var storage;
    storage, collection, q := NewHeroQuery();
    before := q.Count();
    var r := storage.CreateEntity();
    e := r.value;
    created := q.Count();
  }

  /**
   * `Storage_Query_ShouldReflectEntityChanges`: a query for records with a
   * Character and a Level but no Exp follows one entity's components as
   * they are added and removed.  The test's last step, `DestroyEntity`, is
   * not part of this model.
   */
  method ReflectEntityChanges() returns (counts: seq<nat>)
    ensures counts == [0, 0, 0, 1, 0, 1, 0, 1]
  {
    TestSchemeValid();
    var collection, q, e, before, created := HeroQueryThenEntity();
    var n1 := GetThenCount(collection, q, e, "Character");
    var n2 := GetThenCount(collection, q, e, "Level");
    var n3 := GetThenCount(collection, q, e, "Exp");
    var n4 := RemoveThenCount(collection, q, e, "Exp");
    var n5 := RemoveThenCount(collection, q, e, "Level");
    var n6 := GetThenCount(collection, q, e, "Level");
    counts := [before, created, n1, n2, n3, n4, n5, n6];
  }
}
