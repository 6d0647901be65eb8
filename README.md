# NEconomicon core in Dafny

NEconomicon is an in-memory entity/component store. A `Scheme` registers component types. Each type gets a key and a bit index. A `Storage` hands out entities, which are handles on pooled `EntityData` records. Each record holds one component instance per type. Component instances are pooled per key: a released instance is reset to its type's defaults and handed out again. Live `Query` objects hold the records whose component bitset contains every included index and no excluded one. A `QueryCollection` caches one query per `QueryKey`, tracks the union of the indexes its queries mention, and re-touches its queries only when a tracked index changes. A fluent `QueryBuilder` collects include and exclude indexes in two `BitSet`s; once an `Exclude` has been called, it offers only `Exclude`.

This project models that core and proves properties of the model:

- `words.dfy`: C# `ulong` words as integers below 2^64, with `|`, `&`, `^`, `~` and `1UL << k` digit by digit. It also holds the FNV-1 hash step with 32-bit wrap-around.
- `bitset.dfy`: the 512-bit `BitSet`. `Bits` holds the eight words as a value and carries the reading operations. The `BitSet` class updates its eight fields in place. Both are tied to the set of indexes `Elems()`.
- `opt.dfy`, `ensure.dfy`, `text.dfy`, `results.dfy`: `Opt<T>` and the argument guards. Also the .NET string functions the identifiers use, and the `Result` type that stands for thrown exceptions.
- `entity_id.dfy`, `component_key.dfy`, `query_key.dfy`, `scheme.dfy`: the value types, the component descriptor and the scheme lookup.
- `store.dfy`: `EntityData`, `Entity`, `Storage`, `Query` and `QueryCollection`, as classes whose methods update their fields.
- `query_builder.dfy`: the builder and its entry point, plus a step-sequence view of fluent chains (`Outcome`) with lemmas about the fluent order.
- `scenarios.dfy`: the repository's unit tests restated on the model. Each test is a method whose contract is what the test asserts.

In these places the code does less than its names and tests suggest; the model follows the code:

- `EntityData.GetOrAdd` (src/NEconomicon/Storage/EntityData.cs:81-95) neither sets a bit nor notifies the queries.
- `EntityData.Deactivate` (EntityData.cs:57-61) does not clear the bitset.
- `Storage.CreateEntity` (src/NEconomicon/Storage/Storage.cs:35-50) does not write the entity table.
- `BitSet` rejects only indexes above 511; a negative index is not checked by the code. The model requires a non-negative index.
- `Storage.ReleaseComponent` never stores the stack it makes for a key without one, and no code in Storage.cs or EntityData.cs stores one, so every released instance is lost (see Findings). The record-level release has an as-written twin and a corrected version (`Deactivate`, `ReleaseComponents`). The scenarios use the corrected one.

## Model

| member | source | states |
|---|---|---|
| Words.MaskBits | src/NEconomicon/BitSet.cs:62 | `1UL << j` has bit j and no other bit |
| Words.NotBits | src/NEconomicon/BitSet.cs:126 | `~m` flips every one of the 64 bits |
| Words.MaxWordBits | src/NEconomicon/BitSet.cs:36-43 | `ulong.MaxValue` has all 64 bits set |
| Words.WordOr | src/NEconomicon/BitSet.cs:98-108 | every bit of `a \| b` is the or of the two bits |
| Words.WordAnd | src/NEconomicon/BitSet.cs:202-224 | every bit of `a & b` is the and of the two bits |
| Words.MaskTest | src/NEconomicon/BitSet.cs:162-200 | `(w & (1UL << j)) != 0` holds exactly when bit j of w is set |
| Words.SetBitOfWord | src/NEconomicon/BitSet.cs:58-96 | `w \| (1UL << j)` sets bit j and keeps every other bit |
| Words.ClearBitOfWord | src/NEconomicon/BitSet.cs:122-160 | `w & ~(1UL << j)` clears bit j and keeps every other bit |
| Words.WordContains | src/NEconomicon/BitSet.cs:204-211 | `(a & b) == b` holds exactly when every bit of b is a bit of a |
| Words.WordMeets | src/NEconomicon/BitSet.cs:216-223 | `(a & b) != 0` holds exactly when a and b share a bit |
| Words.UlongHash | src/NEconomicon/BitSet.cs:258-265 | `ulong.GetHashCode()` is a 32-bit pattern |
| Words.FnvStep | src/NEconomicon/BitSet.cs:257-266 | one unchecked FNV step `(hash * 16777619) ^ value` stays within 32 bits |
| BitSets.Bits.Check | src/NEconomicon/BitSet.cs:162-200 | for an index up to 511, the result is whether the index is in the set; a larger index is `IndexTooBig` |
| BitSets.Bits.CheckAllFrom | src/NEconomicon/BitSet.cs:202-212 | true exactly when every index of other is an index of this |
| BitSets.Bits.CheckAnyFrom | src/NEconomicon/BitSet.cs:214-224 | true exactly when this and other share an index |
| BitSets.Bits.Equals | src/NEconomicon/BitSet.cs:226-236 | word-wise equality holds exactly when the values are equal, and exactly when the index sets are equal |
| BitSets.Bits.EqualsObject | src/NEconomicon/BitSet.cs:238-251 | true exactly for a non-null bitset equal to this one |
| BitSets.Bits.HashCode | src/NEconomicon/BitSet.cs:253-268 | the hash is a 32-bit pattern |
| BitSets.EqualOp | src/NEconomicon/BitSet.cs:270-273 | `==` holds exactly when the index sets are equal |
| BitSets.NotEqualOp | src/NEconomicon/BitSet.cs:275-278 | `!=` holds exactly when the index sets differ |
| BitSets.EqualsHashCode | src/NEconomicon/BitSet.cs:253-268 | bitsets that are `Equals` have equal hash codes |
| BitSets.AllFromBlocks | src/NEconomicon/BitSet.cs:204-211 | the conjunction of the word tests is containment word by word |
| BitSets.ContainsByBlocks | src/NEconomicon/BitSet.cs:202-212 | containment on all eight words is containment of the index sets |
| BitSets.AnyFromBlocks | src/NEconomicon/BitSet.cs:216-223 | the disjunction of the word tests finds a word where both meet |
| BitSets.MeetsByBlocks | src/NEconomicon/BitSet.cs:214-224 | some word where both meet exists exactly when the index sets meet |
| BitSets.ElemsDetermine | src/NEconomicon/BitSet.cs:19-26 | two bitsets with the same index set have the same eight words, and conversely |
| BitSets.SetBlockElems | src/NEconomicon/BitSet.cs:58-96 | or-ing bit j into word n adds exactly index 64n+j |
| BitSets.ClearBlockElems | src/NEconomicon/BitSet.cs:122-160 | clearing bit j of word n removes exactly index 64n+j |
| BitSets.UnionElems | src/NEconomicon/BitSet.cs:98-108 | word-wise or gives the union of the index sets |
| BitSets.EmptyElems | src/NEconomicon/BitSet.cs:28-31 | the empty bitset has no index |
| BitSets.FullElems | src/NEconomicon/BitSet.cs:33-44 | the full bitset has all 512 indexes |
| BitSets.BitSet.constructor | src/NEconomicon/BitSet.cs:46-56 | the new bitset holds the eight given words |
| BitSets.BitSet.Empty | src/NEconomicon/BitSet.cs:28-31 | a new bitset with no index |
| BitSets.BitSet.Full | src/NEconomicon/BitSet.cs:33-44 | a new bitset with every index from 0 to 511 |
| BitSets.BitSet.Set | src/NEconomicon/BitSet.cs:58-96 | for an index up to 511, the contents gain exactly that index; a larger index is `IndexTooBig` and nothing changes |
| BitSets.BitSet.Clear | src/NEconomicon/BitSet.cs:122-160 | for an index up to 511, the contents lose exactly that index; a larger index is `IndexTooBig` and nothing changes |
| BitSets.BitSet.SetAllFrom | src/NEconomicon/BitSet.cs:98-108 | the contents become the union with other's indexes, and each word is the or of the two words |
| BitSets.BitSet.ClearAll | src/NEconomicon/BitSet.cs:110-120 | every word is 0 and no index is left |
| Text.IsNullOrWhiteSpace | src/NEconomicon/Ensure.cs:25 | true exactly for null or for a string whose every character is white space |
| Text.AllWhiteSpaceMeaning | src/NEconomicon/Ensure.cs:25 | a string is all white space exactly when each of its characters is |
| Text.ToLower | src/NEconomicon/Storage/EntityId.cs:28-30 | the lower-cased string has the same length, and each character is lower-cased |
| Text.ToLowerIdempotent | src/NEconomicon/Storage/EntityId.cs:28-30 | no upper-case letter remains, and lower-casing twice changes nothing more |
| Text.ToLowerKeepsBlankness | src/NEconomicon/Storage/EntityId.cs:28-30 | lower-casing neither makes a blank string non-blank nor the reverse |
| Text.Decimal | src/NEconomicon/Storage/EntityId.cs:90 | a number renders as one or more decimal digits |
| Text.DecimalRoundTrip | src/NEconomicon/Storage/EntityId.cs:90 | parsing the rendering of n gives n back |
| Text.DecimalInjective | src/NEconomicon/Storage/EntityId.cs:90 | two numbers render the same exactly when they are equal |
| Ensure.NotNull | src/NEconomicon/Ensure.cs:13-18 | a non-null value is returned unchanged; null is `ArgumentNull(name)` |
| Ensure.NotBlank | src/NEconomicon/Ensure.cs:23-32 | succeeds exactly for a non-null string with a non-white-space character, and returns it; otherwise `BlankArgument(name)` |
| Opts.Opt.HasValue | src/NEconomicon/Opt.cs:19 | set by the value constructor only (see `Opts.SomeAndNone`) |
| Opts.Opt.HashCode | src/NEconomicon/Opt.cs:125-138 | None hashes to 0, and `Some(v)` to the hash of v |
| Opts.Opt.ToString | src/NEconomicon/Opt.cs:142-155 | `None()`, or `Some(` followed by the value's rendering and `)` |
| Opts.Opt.Get | src/NEconomicon/Opt.cs:38-41 | succeeds exactly when there is a value, and returns it; otherwise `ValueMissing` |
| Opts.Opt.GetOr | src/NEconomicon/Opt.cs:46-49 | the held value, or the default when there is none |
| Opts.Opt.GetOrCalc | src/NEconomicon/Opt.cs:54-57 | the held value, or what f computes when there is none |
| Opts.Opt.TryGet | src/NEconomicon/Opt.cs:63-73 | reports whether a value exists and hands it out; with none it hands out the given `default(T)` |
| Opts.Opt.Map | src/NEconomicon/Opt.cs:78-81 | has a value exactly when this has one, and that value is f of it |
| Opts.Opt.FlatMap | src/NEconomicon/Opt.cs:86-89 | None stays None; `Some(v)` becomes f(v) |
| Opts.Opt.EqualsAsWritten | src/NEconomicon/Opt.cs:94-107 | as written, true exactly when both are empty |
| Opts.Opt.Enumerate | src/NEconomicon/Opt.cs:157-163 | yields the held value once, or nothing when there is none |
| Opts.Equals | src/NEconomicon/Opt.cs:94-107 | corrected equality: true exactly when the two options are equal |
| Opts.EqualsObjectAsWritten | src/NEconomicon/Opt.cs:112-120 | as written, it hands off to the as-written `Equals(Opt<T>)`, so it is true exactly when both are empty |
| Opts.EqualsObject | src/NEconomicon/Opt.cs:112-120 | corrected: true exactly for a non-null option equal to this one |
| Opts.SomeAndNone | src/NEconomicon/Opt.cs:179-184 | `Some(v)` has the value v; `None` has no value and `Get` fails |
| Opts.SomeNeverEqualsAsWritten | src/NEconomicon/Opt.cs:101-119 | as written, `Some(v)` is never equal to itself, compared directly or boxed as an object |
| Opts.EqualsHashCode | src/NEconomicon/Opt.cs:125-138 | options that are equal have equal hash codes |
| Opts.MapIdentity | src/NEconomicon/Opt.cs:78-81 | mapping the identity function changes nothing |
| Opts.MapCompose | src/NEconomicon/Opt.cs:78-81 | mapping f and then g is mapping their composition |
| Opts.FlatMapOfSome | src/NEconomicon/Opt.cs:86-89 | `FlatMap` of a function that always returns `Some` is `Map` |
| Opts.AccessorsAgree | src/NEconomicon/Opt.cs:38-73 | `Get`, `GetOr`, `TryGet` and the enumeration agree on the value and on its absence |
| Opts.ToStringInjective | src/NEconomicon/Opt.cs:142-155 | when values render apart, distinct options render apart |
| EntityIds.EntityId.IsSymbolic | src/NEconomicon/Storage/EntityId.cs:36 | the symbolic part is non-null (see `EntityIds.IdentifierKinds`) |
| EntityIds.EntityId.IsNumeric | src/NEconomicon/Storage/EntityId.cs:41 | the negation of `IsSymbolic` (see `EntityIds.IdentifierKinds`) |
| EntityIds.IdentifierKinds | src/NEconomicon/Storage/EntityId.cs:16-55 | every identifier is of exactly one kind; `Numeric` makes numeric ones, `Symbolic` symbolic ones, and `Next` succeeds exactly on numeric ones |
| EntityIds.EntityId.Next | src/NEconomicon/Storage/EntityId.cs:46-55 | a numeric identifier's successor is numeric, with the next number modulo 2^32; a symbolic identifier is an error |
| EntityIds.EntityId.Equals | src/NEconomicon/Storage/EntityId.cs:57-61 | true exactly when both fields agree |
| EntityIds.EntityId.EqualsObject | src/NEconomicon/Storage/EntityId.cs:63-71 | true exactly for a non-null equal identifier |
| EntityIds.EntityId.HashCode | src/NEconomicon/Storage/EntityId.cs:73-81 | for a numeric identifier, the hash is the number's bit pattern as a signed `int` |
| EntityIds.EntityId.ToString | src/NEconomicon/Storage/EntityId.cs:83-91 | `EntityId('name')` for a symbolic identifier; `EntityId(number)` in decimal for a numeric one |
| EntityIds.Numeric | src/NEconomicon/Storage/EntityId.cs:16-20 | a numeric identifier holding the value |
| EntityIds.Symbolic | src/NEconomicon/Storage/EntityId.cs:25-31 | succeeds exactly for a non-blank string, and stores it lower-cased with numeric part 0; otherwise `BlankArgument` |
| EntityIds.EqualOp | src/NEconomicon/Storage/EntityId.cs:93-96 | `==` holds exactly when both fields agree |
| EntityIds.NotEqualOp | src/NEconomicon/Storage/EntityId.cs:98-101 | `!=` is the negation of `==` |
| EntityIds.DefaultIsNumericZero | src/NEconomicon/Storage/Storage.cs:23 | the default identifier is numeric 0 |
| EntityIds.SymbolicNeverNumeric | src/NEconomicon.Tests/Storage/EntityIdTests.cs:24-25 | a symbolic identifier never equals a numeric one |
| EntityIds.EqualsHashCode | src/NEconomicon/Storage/EntityId.cs:73-81 | equal identifiers have equal hash codes |
| EntityIds.SymbolicIgnoresCase | src/NEconomicon/Storage/EntityId.cs:28-30 | two non-blank names give the same identifier exactly when they are equal after lower-casing |
| EntityIds.Examples | src/NEconomicon.Tests/Storage/EntityIdTests.cs:9-48 | the test's identities: "A" equals "a" and not "B", the renderings match, `1.Next()` is 2, and blank names fail |
| EntityIds.ToStringInjective | src/NEconomicon/Storage/EntityId.cs:83-91 | two well-formed identifiers render the same exactly when they are equal |
| EntityIds.SuccessorValue | src/NEconomicon/Storage/EntityId.cs:54 | k calls of `Next` from n give (n + k) modulo 2^32 |
| EntityIds.SuccessorsDistinct | src/NEconomicon/Storage/Storage.cs:37-38 | the identifiers `CreateEntity` issues repeat only after 2^32 steps, and then do repeat |
| ComponentKeys.ComponentKey.Equals | src/NEconomicon/Storage/ComponentKey.cs:21-24 | true exactly when the keys are equal |
| ComponentKeys.ComponentKey.EqualsObject | src/NEconomicon/Storage/ComponentKey.cs:26-34 | true exactly for a non-null equal key |
| ComponentKeys.ComponentKey.HashCode | src/NEconomicon/Storage/ComponentKey.cs:36-39 | the hash is a 32-bit pattern |
| ComponentKeys.ComponentKey.ToString | src/NEconomicon/Storage/ComponentKey.cs:41-44 | `CompKey(` followed by decimal digits and `)` |
| ComponentKeys.EqualOp | src/NEconomicon/Storage/ComponentKey.cs:46-49 | `==` agrees with `Equals` |
| ComponentKeys.NotEqualOp | src/NEconomicon/Storage/ComponentKey.cs:51-54 | `!=` is the negation of `Equals` |
| ComponentKeys.EqualsHashCode | src/NEconomicon/Storage/ComponentKey.cs:36-39 | equal keys have equal hash codes |
| ComponentKeys.ToStringInjective | src/NEconomicon/Storage/ComponentKey.cs:41-44 | the rendering holds the decimal value, and two keys render the same exactly when they are equal |
| QueryKeys.QueryKey.IsMatch | src/NEconomicon/Storage/QueryKey.cs:14-18 | the bitset shares an index with `Include` and none with `Exclude` |
| QueryKeys.QueryKey.Equals | src/NEconomicon/Storage/QueryKey.cs:20-24 | a null argument fails; otherwise true exactly when both index sets are equal |
| QueryKeys.QueryKey.EqualsObject | src/NEconomicon/Storage/QueryKey.cs:26-34 | true exactly for a non-null equal key |
| QueryKeys.QueryKey.HashCode | src/NEconomicon/Storage/QueryKey.cs:36-45 | the hash is a 32-bit pattern |
| QueryKeys.EqualsHashCode | src/NEconomicon/Storage/QueryKey.cs:36-45 | equal keys have equal hash codes |
| QueryKeys.EmptyIncludeNeverMatches | src/NEconomicon/Storage/QueryKey.cs:14-18 | a key with no included index matches no bitset |
| Schemes.ComponentInfo.New | src/NEconomicon/Storage/ComponentInfo.cs:20 | a new instance of the descriptor's type with the default field values |
| Schemes.ComponentInfo.CleanUp | src/NEconomicon/Storage/ComponentInfo.cs:22 | every field of the instance is back at its default |
| Schemes.Scheme.GetComponentInfo | src/NEconomicon/Storage/Scheme.cs:19-27 | succeeds exactly for a registered type and returns its descriptor; otherwise `ComponentNotRegistered` |
| Schemes.KeysIdentifyTypes | src/NEconomicon/Storage/Scheme.cs:7-11 | in a well-formed scheme, two registered types have the same key exactly when they are the same type |
| Schemes.LookupAgrees | src/NEconomicon/Storage/Scheme.cs:13-27 | the descriptor found describes the type asked for, and is the one stored under its key |
| Store.ReleasedAsWrittenPools | src/NEconomicon/Storage/Storage.cs:74-84 | as written, releasing never creates a stack: a component goes on top of its key's stored stack or is dropped, and empty pools stay empty; this agrees with the corrected release exactly when every key already has a stack |
| Store.ReleasedAsWrittenStep | src/NEconomicon/Storage/EntityData.cs:99-102 | as written, releasing one more component pushes it only onto a stored stack |
| Store.ReleasedPools | src/NEconomicon/Storage/EntityData.cs:97-105 | corrected: releasing all components pushes each on top of its key's stack, creates the missing stacks and leaves the other stacks alone |
| Store.ReleasedStep | src/NEconomicon/Storage/EntityData.cs:99-102 | corrected: releasing one more component is one more push on its key's stack |
| Store.EntityData.constructor | src/NEconomicon/Storage/EntityData.cs:36-43 | alive, with the given storage and identifier, no component, count 0, an empty bitset and no query |
| Store.EntityData.Reactivate | src/NEconomicon/Storage/EntityData.cs:48-52 | takes the identifier and is alive |
| Store.EntityData.Deactivate | src/NEconomicon/Storage/EntityData.cs:57-61 | corrected: not alive and holding nothing; every held component is pushed on its key's stack and reset; storage validity is kept |
| Store.EntityData.DeactivateAsWritten | src/NEconomicon/Storage/EntityData.cs:57-61 | as written: not alive and holding nothing; every held component is reset, but it is pushed only when its key already has a stored stack |
| Store.EntityData.Find | src/NEconomicon/Storage/EntityData.cs:66-76 | an unregistered type is an error; otherwise it returns the component held under the type's key, or None when none is held |
| Store.EntityData.GetOrAdd | src/NEconomicon/Storage/EntityData.cs:81-95 | returns the held component with `isNew` false; otherwise it takes the pool's top, or a new default instance when the pool is empty, adds it under the key with `isNew` true, and then `Find` yields it |
| Store.EntityData.ReleaseComponents | src/NEconomicon/Storage/EntityData.cs:97-105 | corrected: every held component is reset and pushed on its key's stack once, and the record holds none |
| Store.EntityData.ReleaseComponentsAsWritten | src/NEconomicon/Storage/EntityData.cs:97-105 | as written: every held component is reset and released once through the as-written `ReleaseComponent`, and the record holds none |
| Store.EntityData.AddQuery | src/NEconomicon/Storage/Query.cs:54 | records the query among the back-references (stub) |
| Store.EntityData.RemoveQuery | src/NEconomicon/Storage/Query.cs:62 | drops the query from the back-references (stub) |
| Store.Entity.IsAlive | src/NEconomicon/Storage/Entity.cs:27-30 | the record is alive and carries the handle's identifier (see `Store.StaleHandleNotAlive`) |
| Store.StaleHandleNotAlive | src/NEconomicon/Storage/Entity.cs:27-30 | once a record is handed out again under an identifier issued later (fewer than 2^32 steps on), the earlier handle on it is not alive while the new one is |
| Store.Entity.EnsureIsAlive | src/NEconomicon/Storage/Entity.cs:41-49 | succeeds exactly when the handle is alive, meaning the record is alive and carries the handle's identifier; otherwise `EntityNotAlive(context)` |
| Store.Entity.Find | src/NEconomicon/Storage/Entity.cs:35-39 | a dead handle is an error; a live one returns the record's lookup |
| Store.NewEntity | src/NEconomicon/Storage/Entity.cs:13-17 | a null record is `ArgumentNull("data")`; otherwise a handle with the identifier |
| Store.Storage.constructor | src/NEconomicon/Storage/Storage.cs:16-25 | empty tables and pools; the next identifier is the given one or numeric 0; valid exactly when the scheme is |
| Store.Storage.Create | src/NEconomicon/Storage/Storage.cs:16-25 | a null scheme is `ArgumentNull("scheme")`; otherwise a new storage with empty tables and pools, the next identifier given or numeric 0, valid exactly when the scheme is |
| Store.Storage.CreateEntity | src/NEconomicon/Storage/Storage.cs:35-50 | a symbolic next identifier fails with nothing changed; otherwise a live handle with the old identifier, which advances by `Next`; the record is the pool's top, reactivated (only its identifier and liveness written, its components, count and queries untouched), or a new empty one |
| Store.Storage.GetComponent | src/NEconomicon/Storage/Storage.cs:52-72 | an unregistered type is an error; otherwise the type's descriptor with the top of the key's stack, popped, or a new default instance when there is none |
| Store.Storage.ReleaseComponent | src/NEconomicon/Storage/Storage.cs:74-84 | corrected: an unregistered type is an error; otherwise the instance is reset and pushed on its key's stack, which is created when missing |
| Store.Storage.ReleaseComponentAsWritten | src/NEconomicon/Storage/Storage.cs:74-84 | as written: the instance is reset, but it is pushed only when its key already has a stack |
| Store.Matches | src/NEconomicon/Storage/Query.cs:71-75 | every included index is present and no excluded one is |
| Store.Query.constructor | src/NEconomicon/Storage/Query.cs:13-19 | the given storage and sets, with no member |
| Store.Query.IsMatch | src/NEconomicon/Storage/Query.cs:71-75 | the record's bitset holds every included index and no excluded one |
| Store.Query.Count | src/NEconomicon/Storage/Query.cs:24 | the number of members |
| Store.Query.Touch | src/NEconomicon/Storage/Query.cs:48-64 | the record is then a member exactly when it matches; the back-reference is added on entry, dropped on exit, and nothing changes when the verdict is unchanged |
| Store.Query.Remove | src/NEconomicon/Storage/Query.cs:66-69 | the record is no longer a member |
| Store.Query.CollectEntitiesTo | src/NEconomicon/Storage/Query.cs:40-46 | the destination is kept and followed by exactly one handle per member, each with the member's current identifier |
| Store.Query.GetEntities | src/NEconomicon/Storage/Query.cs:30-35 | a new list of exactly one handle per member |
| Store.QueryMatchImpliesKeyMatch | src/NEconomicon/Storage/QueryKey.cs:14-18 | with a non-empty include set, a query's match implies the key's looser `IsMatch` |
| Store.MatchIgnoresUntracked | src/NEconomicon/Storage/QueryCollection.cs:58-61 | bitsets that agree on the tracked indexes get the same verdict from every query the mask covers |
| Store.GateSound | src/NEconomicon/Storage/QueryCollection.cs:58-61 | gaining or losing an untracked index changes no covered query's verdict, so skipping the dispatch keeps memberships exact |
| Store.SeedQuery | src/NEconomicon/Storage/QueryCollection.cs:29-32 | the new query then holds exactly the matching records, each of which gets the back-reference; only the query's membership and the records' query sets change |
| Store.TouchQueries | src/NEconomicon/Storage/QueryCollection.cs:63-66 | every query is touched once: it holds the record exactly when the record matches |
| Store.QueryCollection.constructor | src/NEconomicon/Storage/QueryCollection.cs:9-14 | no query, and a new empty tracked mask |
| Store.QueryCollection.RegisterQuery | src/NEconomicon/Storage/QueryCollection.cs:16-35 | a cached key returns its query with nothing changed; a new key gets a new query cached under it, its sets added to the mask, and the matching records seeded; of the records only their query sets can change |
| Store.QueryCollection.OnComponentAdd | src/NEconomicon/Storage/QueryCollection.cs:37-44 | an index above 511 is an error; an untracked index changes nothing; a tracked one re-touches every query |
| Store.QueryCollection.OnComponentRemove | src/NEconomicon/Storage/QueryCollection.cs:46-52 | as for `OnComponentAdd` |
| Store.QueryCollection.OnEntityComponentsSetChanged | src/NEconomicon/Storage/QueryCollection.cs:54-67 | as above; after a tracked change every query holds the record exactly when the record matches |
| QueryBuilders.Outcome | src/NEconomicon/Storage/QueryBuilder.cs:16-37 | a chain that succeeds only adds indexes |
| QueryBuilders.OutcomeValue | src/NEconomicon/Storage/QueryBuilder.cs:16-37 | a chain that succeeds adds the indexes of the included types to the include set, and those of the excluded types to the exclude set |
| QueryBuilders.OrderIrrelevant | src/NEconomicon/Storage/QueryBuilder.cs:16-37 | two chains that succeed and name the same types build the same sets |
| QueryBuilders.ExcludesKeepIncludes | src/NEconomicon/Storage/QueryBuilder.cs:24-37 | a chain of `Exclude` calls leaves the include set as it was |
| QueryBuilders.IncludesKeepExcludes | src/NEconomicon/Storage/QueryBuilder.cs:16-22 | a chain of `Include` calls leaves the exclude set as it was |
| QueryBuilders.FluentDisjoint | src/NEconomicon/Storage/QueryBuilder.cs:72-85 | a chain in the interfaces' order that succeeds builds disjoint include and exclude sets |
| QueryBuilders.UnorderedOverlap | src/NEconomicon/Storage/QueryBuilder.cs:81-85 | outside that order, `Exclude(t)` then `Include(t)` succeeds with overlapping sets |
| QueryBuilders.IncludedThenExcluded | src/NEconomicon/Storage/QueryBuilder.cs:28-33 | `Include(t)` then `Exclude(t)` fails with `AlreadyIncluded(t)` |
| QueryBuilders.QueryBuilder.constructor | src/NEconomicon/Storage/QueryBuilder.cs:7-14 | two new, distinct, empty bitsets |
| QueryBuilders.QueryBuilder.Include | src/NEconomicon/Storage/QueryBuilder.cs:16-22 | takes exactly one include step (or fails with that step's error) and returns this builder; the exclude set is untouched |
| QueryBuilders.QueryBuilder.Exclude | src/NEconomicon/Storage/QueryBuilder.cs:24-37 | takes exactly one exclude step and returns this builder; an already included type is `AlreadyIncluded`; the include set is untouched |
| QueryBuilders.QueryBuilder.Key | src/NEconomicon/Storage/QueryBuilder.cs:41 | the key holds the current include and exclude indexes |
| QueryBuilders.QueryBuilder.Build | src/NEconomicon/Storage/QueryBuilder.cs:39-42 | the collection caches a query for the builder's key: the cached one, leaving every record's query set as it was, or a new one seeded with the matching records, each of which (and only those) gets the new query in its query set |
| QueryBuilders.QueryBuilderEntryPoint.Include | src/NEconomicon/Storage/QueryBuilder.cs:54-58 | a new builder after one include step from empty sets |
| QueryBuilders.QueryBuilderEntryPoint.Exclude | src/NEconomicon/Storage/QueryBuilder.cs:60-64 | a new builder after one exclude step from empty sets |
| Scenarios.TestSchemeValid | src/NEconomicon.Tests/Storage/StorageTests.cs:214-242 | the test scheme is well formed, with Character, Level and Exp on indexes 0 to 2 |
| Scenarios.FromEmptyToFull | src/NEconomicon.Tests/BitSetTests.cs:6-23 | after setting 0..i, exactly the indexes up to i are set; at the end the set is full |
| Scenarios.FromFullToEmpty | src/NEconomicon.Tests/BitSetTests.cs:25-43 | after clearing 0..i, exactly the indexes above i are set; at the end the set is empty |
| Scenarios.CreateEntityWithNumericId | src/NEconomicon.Tests/Storage/StorageTests.cs:30-60 | the two entities get identifiers 0 and 1, are alive, and hold the field values written |
| Scenarios.ReuseComponentsFromDestroyedEntities | src/NEconomicon.Tests/Storage/StorageTests.cs:62-90 | the next entity holds no component and gets back the destroyed entity's three instances, reset to their defaults (on the corrected release) |
| Scenarios.ReleaseAsWrittenLosesInstance | src/NEconomicon/Storage/Storage.cs:74-84 | as written, an instance released while its key has no stack is not handed out again |
| Scenarios.DeactivateAsWrittenDropsComponents | src/NEconomicon/Storage/EntityData.cs:57-61 | as written, deactivating a record that holds a Character on a new storage leaves every pool empty |
| Scenarios.StaleHandleAfterReuse | src/NEconomicon/Storage/Storage.cs:40-43 | when `CreateEntity` hands a pooled record out again, the first handle (identifier 0) is not alive while the new one (identifier 1) on the same record is |
| Scenarios.ReleaseCorrectedReusesInstance | src/NEconomicon/Storage/Storage.cs:74-84 | corrected, the same instance is handed out again, reset |
| Scenarios.Get | src/NEconomicon.Tests/Storage/StorageTests.cs:191-197 | stub of `Entity.Get<T>()`: the component is found, the bit is set, and the queries follow when the index is tracked |
| Scenarios.Remove | src/NEconomicon.Tests/Storage/StorageTests.cs:200-204 | stub of `Entity.Remove<T>()`: the bit is cleared and the queries follow when the index is tracked |
| Scenarios.SelectsMatch | src/NEconomicon.Tests/Storage/StorageTests.cs:115-140 | each of the test's query definitions matches exactly the bitsets its definition describes |
| Scenarios.IndexAlreadyExistingEntities | src/NEconomicon.Tests/Storage/StorageTests.cs:92-147 | queries made after the entities find 3, 2 and 1 of them, exactly the expected records |
| Scenarios.SameQueriesForSimilarDefinitions | src/NEconomicon.Tests/Storage/StorageTests.cs:149-173 | the same definition gives the same query object; a different one gives a different object |
| Scenarios.HeroMatch | src/NEconomicon.Tests/Storage/StorageTests.cs:180-184 | the test's query matches exactly the bitsets with a Character and a Level and no Exp |
| Scenarios.GetThenCount | src/NEconomicon.Tests/Storage/StorageTests.cs:191-198 | after a `Get`, the count is 1 exactly when the bits hold a Character and a Level but no Exp |
| Scenarios.RemoveThenCount | src/NEconomicon.Tests/Storage/StorageTests.cs:200-205 | after a `Remove`, the count is 1 exactly when the bits hold a Character and a Level but no Exp |
| Scenarios.ReflectEntityChanges | src/NEconomicon.Tests/Storage/StorageTests.cs:175-207 | the query's counts through the test are 0, 0, 0, 1, 0, 1, 0, 1 |

## Left out

- `BitSets.Bits.Equals` and `BitSets.EqualOp`: the argument is a value and cannot be null. In C#, `b.Equals((BitSet)null)` and `b == null` throw a `NullReferenceException` (BitSet.cs:228, 272). `Bits.EqualsObject` models the null case of `Equals(object)`.
- `Scenarios.StaleHandleAfterReuse` pushes the record on the record pool directly, in place of `DestroyEntity`.
- Reflection, `ComponentField`, `ComponentKeyAttribute`, `IComponent` and the `New`/`CleanUp` closures are not modelled. A component type is its name, an instance is an object with a field map, and a descriptor holds the defaults its closures restore.
- `Throw` and `NEconomiconException` are not modelled: every thrown exception is an `Err` of `Result`, and message texts are not modelled.
- A failed `(T)` cast is not modelled: calls typed by the C# compiler are typed in Dafny as well.
- `BitSets.BitSet.Set`, `BitSets.BitSet.Clear` and `BitSets.Bits.Check`: a negative index is excluded by `requires`. In C# the shift count would be masked, and the call would act on bit `index & 63` of the first word.
- `BitSets.Bits.HashCode`, `Words.UlongHash`, `ComponentKeys.ComponentKey.HashCode` and `QueryKeys.QueryKey.HashCode`: the contracts state only the 32-bit range and agreement with equality, not the exact hash values. `EntityIds.EntityId.HashCode` takes the string hash as a parameter, because .NET randomises it.
- `BitSets.Bits.CheckAllFrom` and `CheckAnyFrom` compute the eight word tests as a recursion over the words, not as one conjunction or disjunction.
- `Opts.Opt.GetOrCalc`: a Dafny function has no side effects, so whether `f` runs is not observable. `Opt` of a null reference is not modelled: `Opts.Opt.ToString` and `Opts.Opt.HashCode` hold a value that is never null, so the `Some(null)` renderings and the hash 0 that Opt.cs:132-135 gives for `Some(null)` are not represented.
- `Text.ToLower` lower-cases the ASCII letters only, not the whole invariant culture. `Text.IsWhiteSpace` lists the Unicode white-space characters.
- Aliasing of `BitSet` objects: `QueryKey` and `Query` hold bitset values, where the library holds references to the builder's two bitsets. No code in QueryBuilder.cs, QueryCollection.cs or Query.cs writes those bitsets after `Build`. A caller that keeps the builder and calls `Include`/`Exclude` again would change the cached query's sets and key in place, which the model (value sets) does not capture. `SetAllFrom` also takes its argument by value.
- `Store.Query.CollectEntitiesTo` and `Store.Query.GetEntities`: the destination is a sequence value, not a shared `ICollection`. The order of the handles, which is the hash set's iteration order, is not stated. The pools are sequences whose last element is the top of the stack.
- `Storage.DestroyEntity`, symbolic `CreateEntity`, `GetOrCreateEntity`, `FindEntity`, `EntitiesCount`, `IsEmpty`, `CreateQuery`, `Storage.RegisterQuery` and `Scheme.RegisterComponent` are not modelled. `Entity.Get`, `Has` and `Remove`, and `EntityData.Remove`, are not modelled either. The scenarios build the test scheme as a constant and destroy an entity through `EntityData.Deactivate`.
- `Scenarios.Get` and `Scenarios.Remove` are stubs with only what the tests need: `GetOrAdd`, then the bit, then the dispatch. `Scenarios.Remove` keeps the instance in the record.
- `Scenarios.ReuseComponentsFromDestroyedEntities`: the destroyed record is not pushed on the record pool, because `DestroyEntity` is not modelled, so the next entity gets a new record. It runs on the corrected `ReleaseComponent`.
- `Scenarios.ReflectEntityChanges` leaves out the test's last step, `DestroyEntity` followed by a count of 0.
- `Store.Storage.CreateEntity` does not write the entity table `_entities`, and no member writes `ComponentsCount` after the constructor; the model keeps both as the code leaves them.
- `EntityData.ComponentsBitSet`, `EntityData.AddQuery`/`RemoveQuery`, `ComponentInfo.Index` and `Storage.EnumerateEntitiesInternal` are called in Query.cs, QueryBuilder.cs and QueryCollection.cs but declared in none of the source files. Each is a stub with only the contract its call site needs. The entity sequence is a parameter of `RegisterQuery` and `Build`.
- `QueryBuilders.Outcome`: the fluent interfaces become the step-sequence view and the `FluentOrder` predicate. Each calling scenario chooses its chain explicitly.
- Concurrency is not modelled: the library is single-threaded.

## Findings

| source | as written | input that shows it | evidently intended | confidence | as-written member | corrected member |
|---|---|---|---|---|---|---|
| src/NEconomicon/Opt.cs:94-107 | the test "either has a value" returns false before the values are compared, so the comparison at line 106 is unreachable | `Some(v).Equals(Some(v))` is false | equal when both are empty or both hold equal values | not executed | Opts.Opt.EqualsAsWritten, Opts.EqualsObjectAsWritten, Opts.SomeNeverEqualsAsWritten | Opts.Equals, Opts.EqualsObject |
| src/NEconomicon/Storage/Storage.cs:74-84 | for a key with no stored stack, a new stack is made and pushed on, but it is never added to `_componentsPool`; no code in Storage.cs or EntityData.cs adds one, so every released instance is lost, including every component of a deactivated record | get a Character from a new storage, release it, get a Character again: a new instance comes back | the new stack is stored under the key, so the released instance is handed out again (as `Storage_ShouldReuseComponentsFromDestroyedEntities` expects) | not executed | Store.Storage.ReleaseComponentAsWritten, Store.EntityData.ReleaseComponentsAsWritten, Store.EntityData.DeactivateAsWritten, Store.ReleasedAsWrittenPools, Scenarios.ReleaseAsWrittenLosesInstance, Scenarios.DeactivateAsWrittenDropsComponents | Store.Storage.ReleaseComponent, Store.EntityData.ReleaseComponents, Store.EntityData.Deactivate, Store.ReleasedPools, Store.ReleasedStep, Scenarios.ReleaseCorrectedReusesInstance |
