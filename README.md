# MiniORM core in Dafny

A model of the in-memory logic of MiniORM, a small reflection-driven object-relational mapper for C#. It has five parts:

- **Entity set and change tracker.** `DbSet<T>` is a list-backed `ICollection<T>`. Every successful add or remove is appended to one of the two lists of its `ChangeTracker<T>`.
- **Schema descriptor.** It gives the table an entity type maps to (`GetTableName`, `GetDbSet`). It also gives the columns of a type (`GetEntityColumnNames`): the properties the store reports, that are not `[NotMapped]`, and whose type is one of `AllowedSqlTypes`.
- **Relation mapper.** `MapRelations` runs at the end of context construction. For each DbSet, in declaration order:
  - It wires every `[ForeignKey]` navigation property to the first entity of the target set whose first `[Key]` value equals the foreign-key value.
  - It fills every `ICollection<E>` property with the entities of E's set whose selected key equals the owner's first `[Key]` value.
  - A collection is many-to-many exactly when E has two or more `[Key]` properties.
- **Save protocol.** `SaveChanges` first validates every entity of every set. Only then does it open a transaction and run `Persist<T>` for each set in declaration order: fetch the columns, insert the added entities, update the modified ones, delete the removed ones. It commits at the end. The first store call that throws ends the save.
- **Row codec.** This is the part of `DatabaseConnection` that is not I/O:
  - the SELECT text of `FetchResultSet`;
  - the read loop;
  - `MapColumnsToObject`, which assigns column i to the property named `columnNames[i]`. DBNull becomes null, which a value-type property stores as its default (0, false or the minimal date).

Reflection is replaced by explicit metadata records (module `Metadata`). An entity is an object with three maps: scalar values, navigation references and collections. It also holds its type's property list, so a property never assigned reads as `default(T)` of its type: zero or false for a value type, null for a string or any other reference type. The store is abstract:

- every store call is an `Action` value returned in a trace;
- `fails` says which calls throw;
- `columnsOf` is the store's `FetchColumnNames`;
- `read` is the data reader.

Exceptions are error values (`Result`, `Outcome`).

The model follows the code where the documented design of the system says otherwise:

- **The tracker does not coalesce.** An add followed by a remove of the same entity leaves it in both lists (`ChangeTracking.AddThenRemove`).
- **The explicit Rollback calls are unreachable.** `TargetInvocationException` is caught first and its inner exception rethrown, so neither `Rollback` call at DbContext.cs:86 and :91 is reached. The rollback done when the uncommitted transaction is disposed, on leaving the `using` block, is not modelled. The model states only that Commit is never sent after a failure.
- **A successful save never clears the trackers.** The design describes clearing them after a commit; neither the source nor the model does.
- **Membership is by `Equals`.** `Contains` and `Remove` (DbSet.cs:44, 59) use `T.Equals`. The model compares by reference, which is what `Equals` does when the entity type does not override it.
- **One-to-many keys.** The owner key is the owner type's first `[Key]` and the element key is the element type's first `[Key]`, as written.
- **Many-to-many collections.** They are filled with the matching link entities themselves.
- **The validation message.** It names `dbSet.GetType().Name`, which for every set is the generic type name ``DbSet`1``.

## Model

| member | source | states |
|---|---|---|
| ChangeTracking.ChangeTracker.constructor | MiniORM/ChangeTracker.cs:11-15 | A new tracker has empty added and removed lists |
| ChangeTracking.ChangeTracker.Added | MiniORM/ChangeTracker.cs:17 | The view lists exactly the added items, in insertion order |
| ChangeTracking.ChangeTracker.Removed | MiniORM/ChangeTracker.cs:19 | The view lists exactly the removed items, in insertion order |
| ChangeTracking.ChangeTracker.Add | MiniORM/ChangeTracker.cs:21 | The item is appended to added; removed is unchanged |
| ChangeTracking.ChangeTracker.Remove | MiniORM/ChangeTracker.cs:23 | The item is appended to removed; added is unchanged |
| ChangeTracking.AddThenRemove | MiniORM/ChangeTracker.cs:21-23 | No coalescing: an add then a remove of the same item records it in both lists |
| ChangeTracking.AddTwice | MiniORM/ChangeTracker.cs:21 | No de-duplication: a repeated add lists the item twice |
| DbSets.DbSet.constructor | MiniORM/DbSet.cs:12-17 | The set holds the loaded instances of T, keeps T's name and properties, and its tracker starts empty. Every entity is a T, as List<T> guarantees |
| DbSets.DbSet.Count | MiniORM/DbSet.cs:48 | Count is the number of entities, counting repetitions |
| DbSets.DbSet.Contains | MiniORM/DbSet.cs:44 | True exactly when some entity is the item (reference membership) |
| DbSets.DbSet.Add | MiniORM/DbSet.cs:23-33 | Null fails with ArgumentNull and changes nothing. Otherwise the item, a T, is appended to the entities and to the tracker's added list, and removed is unchanged. Every entity is still a T |
| DbSets.DbSet.Remove | MiniORM/DbSet.cs:52-67 | Null fails and changes nothing. Otherwise it returns whether the item was present, deletes only its first occurrence, and records it in removed only when it was present. Added is unchanged, and every entity is still a T |
| DbSets.DbSet.Clear | MiniORM/DbSet.cs:35-42 | Afterwards the set is empty and removed has gained the former entities in their original order. Every entity is still a T |
| DbSets.DbSet.RemoveNext | MiniORM/DbSet.cs:81-84 | One turn of the foreach. It fails exactly on a null item, changing nothing; otherwise the removals so far extend by this item |
| DbSets.DbSet.RemoveRange | MiniORM/DbSet.cs:79-85 | It passes exactly when no item is null. The entities and the removed list are those of removing, in order, every item before the first null; added is unchanged, and every entity is still a T |
| Sequences.RemoveFirst | MiniORM/DbSet.cs:59 | List.Remove removes one element when the item is present, returns the list unchanged when it is absent, and adds nothing |
| Sequences.RemoveEach | MiniORM/DbSet.cs:79-85 | Removing a series of items splits the list into what remains and what was removed, losing nothing |
| Sequences.RemoveFirstMultiset | MiniORM/DbSet.cs:59 | List.Remove takes away exactly one copy of the item and nothing else |
| Sequences.RemoveFirstSplits | MiniORM/DbSet.cs:59 | List.Remove deletes the first occurrence: everything before and after it stays, in order |
| Sequences.RemoveEachAccounts | MiniORM/DbSet.cs:79-85 | Removing a series of items loses and invents nothing, and the removed items are a subsequence of the series |
| Sequences.RemoveEachStep | MiniORM/DbSet.cs:81-84 | Removing one more item acts on what the earlier removals left and records it only if it was present |
| Sequences.RemoveEachAbsent | MiniORM/DbSet.cs:79-85 | Items that are not present are skipped: removing only absent items changes nothing |
| Sequences.RemoveEachOfItself | MiniORM/DbSet.cs:35-42 | Removing a list's own elements front to back empties it and removes them in order |
| Sequences.Filter | MiniORM/DbContext.cs:311-316 | Where keeps only elements of the input that satisfy the predicate |
| Sequences.FilterSelects | MiniORM/DbContext.cs:311-316 | Where keeps every satisfying element as often as it occurs, drops the rest, and keeps the order |
| Sequences.FindIndex | MiniORM/DbContext.cs:293 | First with a predicate: the first satisfying index, or none exactly when no element satisfies it |
| SchemaDescriptor.GetDbSet | MiniORM/DbContext.cs:291-294 | The first DbSet property declaring the type, or none exactly when no property declares it |
| SchemaDescriptor.GetTableName | MiniORM/DbContext.cs:279-289 | It returns the [Table] name when present. Otherwise it returns the name of the first DbSet property declaring the type, and fails exactly when there is none |
| SchemaDescriptor.ColumnNames | MiniORM/DbContext.cs:311-316 | A name is a column exactly when a property has it, the store reports it, it is not [NotMapped] and its type is one of AllowedSqlTypes (the filter IsColumn). Columns follow declaration order |
| SchemaDescriptor.GetEntityColumnNames | MiniORM/DbContext.cs:305-319 | Fails exactly when the table name does. Otherwise the columns are the properties passing the three-way filter against the store's columns of that table |
| Metadata.FindProperty | MiniORM/DbContext.cs:168 | GetProperty finds a property of that name, or none exactly when no property has it |
| Metadata.FirstKey | MiniORM/DbContext.cs:173-174 | It yields a [Key] property of the type, or none exactly when the type has no [Key] property |
| Metadata.FirstKeyIsFirst | MiniORM/DbContext.cs:173-174 | The first key is the first [Key] property in declaration order |
| RelationMapper.ForeignKeys | MiniORM/DbContext.cs:160-162 | Only [ForeignKey] properties are selected |
| RelationMapper.ResolveReference | MiniORM/DbContext.cs:166-174 | A resolved foreign key wires its own navigation property to a declared set |
| RelationMapper.ReferencePlanMeaning | MiniORM/DbContext.cs:166-174 | The navigation property exists and has entity type T; the target is the first DbSet of T and the key is T's first [Key]. A missing navigation property fails |
| RelationMapper.FirstMatch | MiniORM/DbContext.cs:180-182 | A match is a member of the target set |
| RelationMapper.FirstMatchIsFirst | MiniORM/DbContext.cs:180-182 | A match is the first target, in set order, whose key equals the non-null foreign-key value |
| RelationMapper.FirstMatchSucceeds | MiniORM/DbContext.cs:180-182 | First succeeds exactly when the foreign-key value is not null and some target's key equals it with no null key before it; null keys after the match are never read |
| RelationMapper.FirstMatchNullKey | MiniORM/DbContext.cs:180-182 | First fails on a null key exactly when some target's key is null and no earlier target matches. Any other failure is an orphaned foreign key |
| RelationMapper.WireReferences | MiniORM/DbContext.cs:176-185 | It passes exactly when every owner finds its target. Then each owner's navigation property is set to its first match and no other entry changes |
| RelationMapper.CollectionProperties | MiniORM/DbContext.cs:188-193 | Only ICollection<T> properties are selected |
| RelationMapper.FindBackReference | MiniORM/DbContext.cs:217-221 | The chosen link key is a [Key] whose [ForeignKey] navigation has the owner's type |
| RelationMapper.FindBackReferenceIsFirst | MiniORM/DbContext.cs:217-221 | The chosen link key is the first property that is not passed over |
| RelationMapper.FindBackReferenceNone | MiniORM/DbContext.cs:217-221 | When every property is passed over, the search fails |
| RelationMapper.ResolveCollection | MiniORM/DbContext.cs:197-232 | A resolved collection searches a declared set |
| RelationMapper.CollectionPlanMeaning | MiniORM/DbContext.cs:199-232 | Many-to-many exactly when the element type has two or more [Key]s. The set is the first DbSet of E, the owner key is the owner's first [Key], and the element key is E's first [Key] or the link type's back-reference key |
| RelationMapper.Matching | MiniORM/DbContext.cs:238-240 | The matches are no more than the elements |
| RelationMapper.MatchingSucceeds | MiniORM/DbContext.cs:238-240 | The Where succeeds exactly when no element has a null key value |
| RelationMapper.MatchingIsFilter | MiniORM/DbContext.cs:238-240 | A collection is exactly the subsequence of the set whose key equals the owner's value: nothing omitted, nothing added |
| RelationMapper.WireCollection | MiniORM/DbContext.cs:234-250 | It passes exactly when every owner's Where succeeds. Then each owner's collection property holds its matches and no other entry changes |
| RelationMapper.WiredReferencesUntouched | MiniORM/DbContext.cs:164-185 | A navigation property that no foreign key names keeps its value |
| RelationMapper.WiredReferenceLast | MiniORM/DbContext.cs:164-185 | On a mappable set, each navigation property ends up holding the first match of the last foreign key that names it |
| RelationMapper.WiredCollectionsUntouched | MiniORM/DbContext.cs:195-250 | A collection property the pass does not name keeps its value |
| RelationMapper.WiredCollectionLast | MiniORM/DbContext.cs:195-250 | On a mappable set, each collection property ends up holding its matching elements |
| RelationMapper.MapForeignKey | MiniORM/DbContext.cs:164-185 | One foreign key: it passes exactly when it resolves and every owner finds its target, and then the owners are wired |
| RelationMapper.ExtendReferences | MiniORM/DbContext.cs:164-185 | One foreign key after the earlier ones: on success the owners are wired by all of them in order, and on failure this key is not mappable |
| RelationMapper.MapSetReferences | MiniORM/DbContext.cs:164-186 | It passes exactly when every foreign key of the set's type is mappable, and then the owners hold what the keys give them in declaration order |
| RelationMapper.MapCollection | MiniORM/DbContext.cs:195-250 | One collection: it passes exactly when it resolves and every owner's Where succeeds, and then the owners are filled |
| RelationMapper.ExtendCollections | MiniORM/DbContext.cs:195-250 | One collection after the earlier ones: on success all are filled in order, and on failure this one is not mappable |
| RelationMapper.MapSetCollections | MiniORM/DbContext.cs:188-251 | It passes exactly when every collection property is mappable, and then the owners hold what the collections give them |
| RelationMapper.MapBothPasses | MiniORM/DbContext.cs:158-251 | The foreign-key pass, then the collection pass, over one set. It passes exactly when both are mappable, and then the owners are wired from their previous maps |
| RelationMapper.MapSet | MiniORM/DbContext.cs:156-252 | One iteration over the sets. As MapBothPasses, and no set's mappability changes (scalar values are never written). Every other set's wiring and untouched state is preserved |
| RelationMapper.MapSets | MiniORM/DbContext.cs:150-253 | It passes exactly when every set is mappable. Then every set's owners hold what both passes give them from their maps before the mapping |
| Context.DbContext.MapRelations | MiniORM/DbContext.cs:150-253 | It passes exactly when every DbSet property's set is mappable. Then every entity holds the navigation references and collections both passes give it, starting from its maps before the call. The context stays valid |
| SaveProtocol.TableNameIs | MiniORM/DbContext.cs:279-289 | A declared set always has a table name: the [Table] name, else the name of the first set declaring its type |
| SaveProtocol.Validate | MiniORM/DbContext.cs:51-62 | A failure is InvalidEntities with a positive count naming DbSet`1 |
| SaveProtocol.ValidatePasses | MiniORM/DbContext.cs:51-62 | Validation passes exactly when every entity of every set is valid |
| SaveProtocol.ValidateReportsFirst | MiniORM/DbContext.cs:51-62 | A failure reports the invalid count of the first set holding invalid entities |
| SaveProtocol.PersistCalls | MiniORM/DbContext.cs:107-123 | A set's persist (PersistPlan) makes one to four store calls |
| SaveProtocol.PersistCallsOrder | MiniORM/DbContext.cs:107-123 | Persist fetches the columns first, then inserts, updates and deletes strictly in that order, and never begins or commits |
| SaveProtocol.PersistCallsContents | MiniORM/DbContext.cs:109-123 | Insert, update and delete are each sent exactly when their list is non-empty, with that list, the table and its columns |
| SaveProtocol.PersistPlansAt | MiniORM/DbContext.cs:68-79 | Plan i of the transaction is Persist for set i, in declaration order |
| SaveProtocol.SavePlanShape | MiniORM/DbContext.cs:66-96 | In the transaction's calls (SavePlan), it begins first and commits last, with only persist calls between |
| SaveProtocol.SavePlanSegment | MiniORM/DbContext.cs:68-94 | Set i's calls come right after those of sets 0..i-1 |
| SaveProtocol.Run | MiniORM/DbContext.cs:76-93 | The calls made are a prefix of the plan |
| SaveProtocol.RunMeaning | MiniORM/DbContext.cs:76-93 | A run passes exactly when no call throws, and then makes every call. A failed run stops at the first throwing call and reports it |
| SaveProtocol.RunAppend | MiniORM/DbContext.cs:68-94 | Running two plans in sequence runs the second only when the first passed |
| SaveProtocol.RunFirstFailure | MiniORM/DbContext.cs:76-93 | The first throwing call ends the run and is the error |
| SaveProtocol.RunPlansStep | MiniORM/DbContext.cs:68-94 | Sets 0..i, when sets 0..i-1 passed, run set i after them; a failure of set i ends the whole run |
| SaveProtocol.RunSingle | MiniORM/DbContext.cs:66-96 | A single store call either throws or passes |
| SaveProtocol.RunTransaction | MiniORM/DbContext.cs:66-97 | A throwing Begin ends the save at once. A throwing persist ends it there, without Commit. Commit is sent only after every set persisted |
| SaveProtocol.ValidationGate | MiniORM/DbContext.cs:51-66 | With any invalid entity, no store call is made and the save fails with the validation error. Any store call implies that every entity is valid |
| SaveProtocol.CommitIsLast | MiniORM/DbContext.cs:66-96 | Commit is reached only when every earlier call succeeded; the save passes exactly when no call fails, and then the whole transaction was sent |
| SaveProtocol.CommitOnlyIfAllPersisted | MiniORM/DbContext.cs:45-99 | In the whole save (SaveSpec), Commit is reached only after validation passed and every set's persist fully succeeded. The save passes exactly when, in addition, Commit succeeds |
| Context.StateOf | MiniORM/DbContext.cs:109-122 | What persist reads of a set: its entities and its tracker's added and removed lists |
| Context.SendChanges | MiniORM/DbContext.cs:107-123 | The calls made and the outcome are those of running the set's persist calls |
| Context.DbContext.constructor | MiniORM/DbContext.cs:31-40 | Given one loaded set per DbSet property of a well-formed schema, the context is valid. Each set's element type is that property's, with the properties the schema gives it, and so is every entity the set holds. Every other method may then be called on it |
| Context.DbContext.Contents | MiniORM/DbContext.cs:152-154 | The entities of every DbSet property, in declaration order |
| Context.DbContext.States | MiniORM/DbContext.cs:47-49 | What the save reads of every DbSet property, in declaration order |
| Context.DbContext.Persist | MiniORM/DbContext.cs:102-124 | The calls made and the outcome are those of running set i's persist plan |
| Context.DbContext.ValidateSets | MiniORM/DbContext.cs:51-62 | The validation foreach fails at the first set holding invalid entities with their count, as Validate states |
| Context.DbContext.PersistNext | MiniORM/DbContext.cs:68-94 | One iteration: the run of sets 0..i-1 extends by set i, and a failure ends the whole run |
| Context.DbContext.PersistSets | MiniORM/DbContext.cs:68-94 | The persist foreach makes exactly the calls of running every set's plan in declaration order, stopping at the first failure |
| Context.DbContext.SaveChanges | MiniORM/DbContext.cs:45-99 | The calls made and the outcome are SaveSpec of the sets' state: validation, then Begin, every set's persist and Commit, stopping at the first throwing call |
| DatabaseConnection.SelectTextRoundTrip | MiniORM/DatabaseConnection.cs:42-43 | The SELECT text (SelectText, with the list built by JoinEscaped) lists exactly the given columns, bracketed and in order, then the table name; it reads back to them when no name contains ']' |
| DatabaseConnection.ParseColumnsJoin | MiniORM/DatabaseConnection.cs:42 | The joined bracketed column list reads back to the column names |
| DatabaseConnection.ObjectValuesKeys | MiniORM/DatabaseConnection.cs:72-84 | Exactly the first row-length column names are assigned in ObjectValues, the values the row loop stores |
| DatabaseConnection.ObjectValuesAt | MiniORM/DatabaseConnection.cs:72-84 | The property named columnNames[i] holds column i, unless a later column has the same name. Any value other than DBNull is kept; DBNull stores the default of the property's type (Decode) |
| DatabaseConnection.MapColumnsToObject | MiniORM/DatabaseConnection.cs:68-87 | It succeeds exactly when every column has a name and a property of that name. Otherwise it fails at the first column that does not: with an index error when the names run out, else with a null reference. It builds a new object of the type whose scalar values are the row mapped by name, with no navigation set |
| DatabaseConnection.FetchResultSet | MiniORM/DatabaseConnection.cs:38-66 | It makes one new, distinct object per row read, in read order, each built by MapColumnsToObject, and fails exactly when some row has a column that cannot be stored. The error is the one MapColumnsToObject raises at the first such column of the first such row |
| Entities.DefaultValue | MiniORM/DatabaseConnection.cs:70-83 | default(T) is a value of the property's type. It is null exactly when T is not one of the seven mapped value types |
| Entities.Entity.constructor | MiniORM/DatabaseConnection.cs:70 | A new instance of the type has no property assigned |
| Entities.UnassignedIsDefault | MiniORM/DatabaseConnection.cs:70 | A declared property never assigned reads as the default of its type, and it reads as null exactly when its type is not a value type |
| Metadata.FindPropertyIsFirst | MiniORM/DatabaseConnection.cs:81 | GetProperty finds the first declared property of that name |

## Left out

- **SQL and connection handling are not modelled** (`SqlConnection`, `SqlCommand`, `ExecuteQuery`, `Open`/`Close`, `ConnectionManager`). Store calls are `Action` values; whether one throws is the parameter `fails`.
- **Store operations shown only by name are abstract.** These are `FetchColumnNames`, `InsertEntities`, `UpdateEntities` and `DeleteEntities`. DatabaseConnection.cs does not define them, so they are the parameter `columnsOf` and the opaque actions.
- **Rollback is not modelled.** The explicit `Rollback` calls are unreachable, because the inner exception is rethrown first. The rollback done when the uncommitted transaction is disposed is not modelled. The model states only that Commit is never sent after a failing call.
- **Reflection is replaced.** MiniORM/ReflectionHelper.cs, `MakeGenericMethod` dispatch and backing-field replacement become explicit metadata and ordinary field assignment.
- **Validation is a parameter.** `Validator.TryValidateObject` (`IsObjectValid`) is an external evaluator; it is the parameter `isValid`.
- **Change detection is a parameter.** `GetModifiedEntities` is referenced but never defined; it is the parameter `modifiedOf`, with no snapshot diffing.
- **Context construction is left out.** `GetDbSetProperties`, `InitializeDbSets`, `PopulateDbSet` and `LoadTableEntities` involve reflection and I/O. The context is built over already loaded sets and their schema; loading composes `GetTableName`, `GetEntityColumnNames` and `FetchResultSet`, each modelled.
- **The tracker starts empty.** DbSet.cs:16 passes the entities to a `ChangeTracker` constructor that takes no arguments, so the model's tracker starts empty.
- **Delegating list members are not modelled.** `DbSet.CopyTo`, `IsReadOnly` and `GetEnumerator` only pass through to the list.
- Context.DbContext.MapRelations: on failure the contract says nothing about navigation properties that earlier steps had already wired. The same applies to RelationMapper.MapSets and RelationMapper.MapSet.
- Context.DbContext.MapRelations: requires that no entity belongs to two sets. Freshly loaded sets satisfy this, because FetchResultSet creates a distinct new object per row.
- Context.DbContext.SaveChanges: the sets' state is read once at the start. The source reads each tracker when its Persist runs, but nothing changes the sets during a save.
- DatabaseConnection.MapColumnsToObject: every value is taken to have the property's type, and a conversion failure in `SetValue` is not modelled.
- Entities.DefaultValue: a property type other than the eight mapped ones is taken to be nullable, so its default reads as null. A struct such as `double` would in fact read as zero, but such a property is never a column and never a key the mapper can compare.
- **Store failures are a fixed function of the call.** `fails` depends only on the `Action` value, so two identical calls, such as `FetchColumnNames` of one table for two DbSet properties of the same type, both throw or both pass. A transient failure cannot be represented.
- **Value kinds are simplified.** `decimal` and `DateTime` values are opaque tokens compared only for equality. Integer properties use their C# ranges as subset types, and no arithmetic is done on them.
- **Concurrency is not modelled.** The source is single-threaded and synchronous.
