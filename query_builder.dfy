/**
 * The query builder of src/NEconomicon/Storage/QueryBuilder.cs: a mutable
 * object holding two bitsets, the indexes that a query includes and those
 * it excludes, which successive fluent calls extend in place.
 *
 * The fluent interfaces allow `Include` only before the first `Exclude`:
 * the entry point and `IQueryBuilderInclude` offer both calls, while
 * `IQueryBuilderExclude` offers `Exclude` alone.  A chain of calls is a
 * sequence of steps; `Outcome` gives the sets it leads to, each builder call
 * is proved to take exactly one such step, and the lemmas below state what
 * chains in the fluent order lead to.
 */
module QueryBuilders {
  import opened Results
  import opened BitSets
  import opened Schemes
  import opened QueryKeys
  import opened Store

  /** One fluent call: `Include<T>()` or `Exclude<T>()`. */
  datatype Step = IncludeStep(componentType: TypeName) | ExcludeStep(componentType: TypeName)

  /** The include and exclude index sets of a builder. */
  type Sets = (set<int>, set<int>)

  /** The sets of a new builder. */
  const NoIndexes: Sets := ({}, {})

  /** The source's order: once an `Exclude` is taken, every later step is an `Exclude`. */
  predicate FluentOrder(steps: seq<Step>)
  {
    forall i, j | 0 <= i < j < |steps| :: steps[i].ExcludeStep? ==> steps[j].ExcludeStep?
  }

  /** What one call does to the two sets, or the error it raises. */
  ghost function Apply(scheme: Scheme, s: Sets, step: Step): Result<Sets>
  {
    var info :- scheme.GetComponentInfo(step.componentType);
    if info.index > MaxIndex then Err(IndexTooBig(info.index))
    else if step.IncludeStep? then Ok((s.0 + {info.index}, s.1))
    else if info.index in s.0 then Err(AlreadyIncluded(step.componentType))
    else Ok((s.0, s.1 + {info.index}))
  }

  /** A chain of calls, left to right, stopping at the first error. */
  ghost function Outcome(scheme: Scheme, s: Sets, steps: seq<Step>): (r: Result<Sets>)
    ensures r.Ok? ==> s.0 <= r.value.0 && s.1 <= r.value.1
  {
    if steps == [] then Ok(s)
    else
      var before :- Outcome(scheme, s, steps[..|steps| - 1]);
      Apply(scheme, before, steps[|steps| - 1])
  }

  /** The types named by the include steps (including) or by the exclude steps. */
  function Types(steps: seq<Step>, including: bool): set<TypeName>
  {
    if steps == [] then {}
    else
      var last := steps[|steps| - 1];
      Types(steps[..|steps| - 1], including) + (if last.IncludeStep? == including then {last.componentType} else {})
  }

  /** The indexes of the registered types among ts. */
  ghost function IndexesOf(scheme: Scheme, ts: set<TypeName>): set<int>
  {
    set t | t in ts && t in scheme.byType :: scheme.byType[t].index
  }

  /**
   * A chain that succeeds adds to the include set the indexes of the types
   * it includes, and to the exclude set those of the types it excludes.
   */
  lemma {:induction false} OutcomeValue(scheme: Scheme, s: Sets, steps: seq<Step>)
    requires Outcome(scheme, s, steps).Ok?
    ensures Outcome(scheme, s, steps).value.0 == s.0 + IndexesOf(scheme, Types(steps, true))
    ensures Outcome(scheme, s, steps).value.1 == s.1 + IndexesOf(scheme, Types(steps, false))
  {
    if steps != [] {
      var init, last := steps[..|steps| - 1], steps[|steps| - 1];
      OutcomeValue(scheme, s, init);
      var t := last.componentType;
      IndexesOfAdd(scheme, Types(init, last.IncludeStep?), t);
    }
  }

  /** Adding a registered type adds its index. */
  lemma IndexesOfAdd(scheme: Scheme, ts: set<TypeName>, t: TypeName)
    requires t in scheme.byType
    ensures IndexesOf(scheme, ts + {t}) == IndexesOf(scheme, ts) + {scheme.byType[t].index}
  {
  }

  /**
   * The order of the calls does not matter to the sets built: two chains
   * that succeed and name the same included and excluded types build the
   * same sets.
   */
  lemma OrderIrrelevant(scheme: Scheme, s: Sets, steps: seq<Step>, steps': seq<Step>)
    requires Outcome(scheme, s, steps).Ok? && Outcome(scheme, s, steps').Ok?
    requires Types(steps, true) == Types(steps', true) && Types(steps, false) == Types(steps', false)
    ensures Outcome(scheme, s, steps) == Outcome(scheme, s, steps')
  {
    OutcomeValue(scheme, s, steps);
    OutcomeValue(scheme, s, steps');
  }

  /** A chain with no include step leaves the include set as it was. */
  lemma {:induction false} ExcludesKeepIncludes(scheme: Scheme, s: Sets, steps: seq<Step>)
    requires forall i | 0 <= i < |steps| :: steps[i].ExcludeStep?
    requires Outcome(scheme, s, steps).Ok?
    ensures Outcome(scheme, s, steps).value.0 == s.0
  {
    if steps != [] {
      ExcludesKeepIncludes(scheme, s, steps[..|steps| - 1]);
    }
  }

  /** A chain with no exclude step leaves the exclude set as it was. */
  lemma {:induction false} IncludesKeepExcludes(scheme: Scheme, s: Sets, steps: seq<Step>)
    requires forall i | 0 <= i < |steps| :: steps[i].IncludeStep?
    requires Outcome(scheme, s, steps).Ok?
    ensures Outcome(scheme, s, steps).value.1 == s.1
  {
    if steps != [] {
      IncludesKeepExcludes(scheme, s, steps[..|steps| - 1]);
    }
  }

  /**
   * Chains in the fluent order keep the two sets disjoint: including is
   * possible only while nothing is excluded, and `Exclude` refuses an index
   * already included.
   */
  lemma {:induction false} FluentDisjoint(scheme: Scheme, s: Sets, steps: seq<Step>)
    requires FluentOrder(steps) && s.0 * s.1 == {}
    requires s.1 != {} ==> forall i | 0 <= i < |steps| :: steps[i].ExcludeStep?
    requires Outcome(scheme, s, steps).Ok?
    ensures Outcome(scheme, s, steps).value.0 * Outcome(scheme, s, steps).value.1 == {}
  {
    if steps != [] {
      var init, last := steps[..|steps| - 1], steps[|steps| - 1];
      assert FluentOrder(init);
      FluentDisjoint(scheme, s, init);
      var before := Outcome(scheme, s, init).value;
      if last.IncludeStep? {
        assert forall i | 0 <= i < |init| :: init[i].IncludeStep? by {
          forall i | 0 <= i < |init|
            ensures init[i].IncludeStep?
          {
            assert steps[i] == init[i];
          }
        }
        IncludesKeepExcludes(scheme, s, init);
        assert before.1 == {};
      }
    }
  }

  /** Outside the fluent order the sets can meet: excluding a type and then including it succeeds. */
  lemma UnorderedOverlap(scheme: Scheme, t: TypeName)
    requires t in scheme.byType && scheme.byType[t].index <= MaxIndex
    ensures !FluentOrder([ExcludeStep(t), IncludeStep(t)])
    ensures var r := Outcome(scheme, NoIndexes, [ExcludeStep(t), IncludeStep(t)]);
      r.Ok? && r.value.0 == r.value.1 == {scheme.byType[t].index}
  {
    var steps := [ExcludeStep(t), IncludeStep(t)];
    assert steps[..1] == [ExcludeStep(t)] && steps[..1][..0] == [];
    assert Outcome(scheme, NoIndexes, steps[..1][..0]) == Ok(NoIndexes);
    assert steps[0].ExcludeStep? && !steps[1].ExcludeStep?;
  }

  /** In the fluent order, excluding a type already included fails. */
  lemma IncludedThenExcluded(scheme: Scheme, t: TypeName)
    requires t in scheme.byType && scheme.byType[t].index <= MaxIndex
    ensures FluentOrder([IncludeStep(t), ExcludeStep(t)])
    ensures Outcome(scheme, NoIndexes, [IncludeStep(t), ExcludeStep(t)]) == Err(AlreadyIncluded(t))
  {
    var steps := [IncludeStep(t), ExcludeStep(t)];
    assert steps[..1] == [IncludeStep(t)] && steps[..1][..0] == [];
    assert Outcome(scheme, NoIndexes, steps[..1][..0]) == Ok(NoIndexes);
  }

  /** `QueryBuilder`: the storage and the two bitsets the calls extend. */
  class QueryBuilder {
    const storage: Storage
    const includes: BitSet
    const excludes: BitSet

    /** The two bitsets are distinct objects. */
    predicate Separate()
    {
      includes != excludes
    }

    /** The include and exclude index sets. */
    ghost function State(): Sets
      reads includes, excludes
    {
      (includes.Contents(), excludes.Contents())
    }

    /** `new QueryBuilder(storage)`: two new empty bitsets. */
    constructor (storage: Storage)
      ensures this.storage == storage && Separate()
      ensures fresh(includes) && fresh(excludes)
      ensures State() == NoIndexes
    {
      this.storage := storage;
      var i := BitSet.Empty();
      var e := BitSet.Empty();
      includes := i;
      excludes := e;
    }

    /**
     * `Include<TComponent>()`: sets the type's index in the include set and
     * returns this builder; the exclude set is untouched.  An unregistered
     * type fails in the scheme lookup, an index beyond the bitset in `Set`.
     */
    method Include(t: TypeName) returns (r: Result<QueryBuilder>)
      requires Separate()
      modifies includes
      ensures r.Ok? ==> r.value == this
      ensures Apply(storage.scheme, old(State()), IncludeStep(t)) ==
        if r.Ok? then Ok(State()) else Err(r.error)
      ensures r.Err? ==> includes.Value() == old(includes.Value())
      ensures t !in storage.scheme.byType ==> r == Err(ComponentNotRegistered(t))
      ensures excludes.Value() == old(excludes.Value())
    {
      var info :- storage.scheme.GetComponentInfo(t);
      var _ :- includes.Set(info.index);
      r := Ok(this);
    }

    /**
     * `Exclude<TComponent>()`: fails when the type's index is already in the
     * include set; otherwise sets it in the exclude set and returns this
     * builder.  The include set is untouched.
     */
    method Exclude(t: TypeName) returns (r: Result<QueryBuilder>)
      requires Separate()
      modifies excludes
      ensures r.Ok? ==> r.value == this
      ensures Apply(storage.scheme, old(State()), ExcludeStep(t)) ==
        if r.Ok? then Ok(State()) else Err(r.error)
      ensures r.Err? ==> excludes.Value() == old(excludes.Value())
      ensures t in storage.scheme.byType && storage.scheme.byType[t].index in old(includes.Contents()) ==>
        r == Err(AlreadyIncluded(t))
      ensures includes.Value() == old(includes.Value())
    {
      var info :- storage.scheme.GetComponentInfo(t);
      var included :- includes.Value().Check(info.index);
      if included {
        return Err(AlreadyIncluded(t));
      }
      var _ := excludes.Set(info.index);
      r := Ok(this);
    }

    /** The key `Build` registers: the current include and exclude bits. */
    function Key(): (k: QueryKey)
      reads includes, excludes
      ensures k.includes.Elems() == includes.Contents() && k.excludes.Elems() == excludes.Contents()
    {
      QueryKey(includes.Value(), excludes.Value())
    }

    /**
     * `Build()`: `Storage.RegisterQuery(include, exclude)`, which is not part
     * of this model, is the stub that registers the key of the two bitsets
     * with the storage's query collection; the collection and the records
     * the storage enumerates are passed in.
     */
    method Build(collection: QueryCollection, entities: seq<EntityData>) returns (q: Query)
      requires collection.Valid()
      modifies collection`queries, collection.tracked, entities`queries
      ensures collection.Valid()
      ensures collection.queries == old(collection.queries)[old(Key()) := q]
      ensures q.includes == old(includes.Value()) && q.excludes == old(excludes.Value())
      ensures old(Key()) in old(collection.queries) ==>
        && q == old(collection.queries)[old(Key())] && collection.tracked.Value() == old(collection.tracked.Value())
        && forall e | e in entities :: e.queries == old(e.queries)
      ensures old(Key()) !in old(collection.queries) ==>
        && fresh(q)
        && q.entities == (set e | e in entities && q.IsMatch(e))
        && collection.tracked.Contents() == old(collection.tracked.Contents() + includes.Contents() + excludes.Contents())
        && forall e | e in entities :: e.queries == old(e.queries) + (if q.IsMatch(e) then {q} else {})
    {
      var key := Key();
      q := collection.RegisterQuery(key, entities);
    }
  }

  /** `QueryBuilderEntryPoint`: starts a chain on a new builder. */
  datatype QueryBuilderEntryPoint = QueryBuilderEntryPoint(storage: Storage)
  {
    /** `Include<TComponent>()` on a new builder. */
    method Include(t: TypeName) returns (r: Result<QueryBuilder>)
      ensures r.Ok? ==> fresh(r.value) && fresh(r.value.includes) && fresh(r.value.excludes)
      ensures r.Ok? ==> r.value.storage == storage && r.value.Separate()
      ensures r.Ok? ==> Apply(storage.scheme, NoIndexes, IncludeStep(t)) == Ok(r.value.State())
      ensures r.Err? ==> Apply(storage.scheme, NoIndexes, IncludeStep(t)) == Err(r.error)
    {
      var b := new QueryBuilder(storage);
      r := b.Include(t);
    }

    /** `Exclude<TComponent>()` on a new builder. */
    method Exclude(t: TypeName) returns (r: Result<QueryBuilder>)
      ensures r.Ok? ==> fresh(r.value) && fresh(r.value.includes) && fresh(r.value.excludes)
      ensures r.Ok? ==> r.value.storage == storage && r.value.Separate()
      ensures r.Ok? ==> Apply(storage.scheme, NoIndexes, ExcludeStep(t)) == Ok(r.value.State())
      ensures r.Err? ==> Apply(storage.scheme, NoIndexes, ExcludeStep(t)) == Err(r.error)
    {
      var b := new QueryBuilder(storage);
      r := b.Exclude(t);
    }
  }
}
