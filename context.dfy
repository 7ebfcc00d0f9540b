/**
 * DbContext: the context's DbSet properties in declaration order, the
 * relation mapping that completes its construction, and SaveChanges with
 * its per-set Persist. The store is abstract: every store call is an Action
 * returned in a trace, `fails` says which calls throw, `columnsOf` is what
 * FetchColumnNames returns, `modifiedOf` is the tracker's
 * GetModifiedEntities and `isValid` the data-annotations validator.
 */
module Context {
  import opened Wrappers
  import opened Sequences
  import opened Entities
  import opened ChangeTracking
  import opened DbSets
  import opened Metadata
  import opened SchemaDescriptor
  import opened RelationMapper
  import opened SaveProtocol

  /** What the save reads of one set: its entities and its tracker's lists. */
  function StateOf(s: DbSet): (st: SetState)
    reads s, s.tracker
    ensures st.entities == s.entities && st.added == s.tracker.Added() && st.removed == s.tracker.Removed()
  {
    SetState(s.entities, s.tracker.added, s.tracker.removed)
  }

  /**
   * The store calls of Persist once the table name is known: fetch the
   * table's columns, then insert, update and delete, each only when its
   * list is non-empty; the first call that throws ends it.
   */
  method SendChanges(table: string, columnsOf: string -> seq<string>, added: seq<Entity>,
                     modified: seq<Entity>, removed: seq<Entity>, fails: Action -> bool)
    returns (trace: seq<Action>, r: Outcome<SaveError>)
    ensures (trace, r) == Run(PersistCalls(table, columnsOf(table), added, modified, removed), fails)
  {
    var fetch := FetchColumnNames(table);
    ghost var plan := PersistCalls(table, columnsOf(table), added, modified, removed);
    trace := [fetch];
    if fails(fetch) {
      RunFirstFailure(plan, 0, fails);
      return trace, Fail(StoreFailed(fetch));
    }
    var columns := columnsOf(table);
    if added != [] {
      var insert := InsertEntities(table, added, columns);
      trace := trace + [insert];
      if fails(insert) {
        RunFirstFailure(plan, 1, fails);
        return trace, Fail(StoreFailed(insert));
      }
    }
    if modified != [] {
      var update := UpdateEntities(table, modified, columns);
      trace := trace + [update];
      if fails(update) {
        assert trace == plan[..|trace|];
        RunFirstFailure(plan, |trace| - 1, fails);
        return trace, Fail(StoreFailed(update));
      }
    }
    assert trace == plan[..|trace|] && forall j :: 0 <= j < |trace| ==> !fails(trace[j]);
    if removed != [] {
      var delete := DeleteEntities(table, removed, columns);
      trace := trace + [delete];
      if fails(delete) {
        assert trace == plan && forall j :: 0 <= j < |trace| - 1 ==> !fails(plan[j]);
        RunFirstFailure(plan, |trace| - 1, fails);
        assert plan[..|trace|] == trace && plan[|trace| - 1] == delete;
        return trace, Fail(StoreFailed(delete));
      }
    }
    assert trace == plan;
    RunMeaning(plan, fails);
    r := Pass;
  }

  /**
   * A DbSet<T> for the type named t: its element type and properties are
   * t's, and so are those of every entity it holds.
   */
  predicate SetOfType(schema: Schema, s: DbSet, t: string)
    reads s
  {
    && s.elementType == t
    && s.elementProperties == TypeOf(schema, t).properties
    && s.Valid()
  }

  class DbContext {
    /** The attribute metadata of the entity types and the DbSet properties. */
    const schema: Schema
    /** The DbSet property values, in declaration order. */
    const sets: seq<DbSet>

    /** One set per DbSet property of a well-formed schema: what the save reads. */
    predicate Declared()
    {
      WellFormed(schema) && |sets| == |schema.sets|
    }

    /**
     * The sets are those the schema declares, in the same order, and each
     * holds only instances of its element type as the schema describes it.
     */
    predicate Valid()
      reads sets
    {
      && Declared()
      && forall i :: 0 <= i < |sets| ==> SetOfType(schema, sets[i], schema.sets[i].elementType)
    }

    /**
     * The context over already loaded sets (the part of the constructor
     * before MapRelations): one set per DbSet property of a well-formed
     * schema, in declaration order, each holding that property's element type.
     */
    constructor (schema: Schema, sets: seq<DbSet>)
      requires WellFormed(schema) && |sets| == |schema.sets|
      requires forall i :: 0 <= i < |sets| ==> SetOfType(schema, sets[i], schema.sets[i].elementType)
      ensures this.schema == schema && this.sets == sets
      ensures Valid()
    {
      this.schema := schema;
      this.sets := sets;
    }

    /** The entities of every set, one list per set. */
    function Contents(): (c: seq<seq<Entity>>)
      reads sets
      ensures |c| == |sets| && forall i :: 0 <= i < |sets| ==> c[i] == sets[i].entities
    {
      seq(|sets|, i requires 0 <= i < |sets| reads sets => sets[i].entities)
    }

    /** What the save reads of every set. */
    function States(): (ss: seq<SetState>)
      reads sets, set i | 0 <= i < |sets| :: sets[i].tracker
      ensures |ss| == |sets| && forall i :: 0 <= i < |sets| ==> ss[i] == StateOf(sets[i])
    {
      seq(|sets|, i requires 0 <= i < |sets| reads sets, set i | 0 <= i < |sets| :: sets[i].tracker =>
        StateOf(sets[i]))
    }

    /**
     * MapRelations: the foreach over the sets, each set's foreign-key pass
     * and then its collection pass; the first failure ends the mapping.
     * It passes exactly when every set can be mapped, and then every set's
     * owners hold what both passes give them from the navigation maps they
     * had before. Scalar property values are never written.
     */
    method MapRelations() returns (r: Outcome<MapError>)
      requires Valid() && Disjoint(Contents())
      modifies Members(Contents())`references, Members(Contents())`collections
      ensures Valid()
      ensures r.Pass? <==> forall i :: 0 <= i < |sets| ==> SetMappable(schema, Contents(), i)
      ensures r.Pass? ==> forall i :: 0 <= i < |sets| ==>
        SetWired(schema, Contents(), i, old(AllReferenceMaps(Contents())), old(AllCollectionMaps(Contents())))
    {
      var contents := Contents();
      r := MapSets(schema, contents);
      assert Contents() == contents;
    }

    /**
     * Persist<T> for set i, given what it reads of the set: fetch the
     * table's columns, then insert the added entities, update the modified
     * ones and delete the removed ones, each only when its list is
     * non-empty; the first call that throws ends it. The calls made and the
     * outcome are those of running the set's persist plan.
     */
    method Persist(i: nat, st: SetState, modifiedOf: seq<Entity> -> seq<Entity>, columnsOf: string -> seq<string>,
                   fails: Action -> bool)
      returns (trace: seq<Action>, r: Outcome<SaveError>)
      requires Declared() && i < |sets|
      ensures (trace, r) == Run(PersistPlan(schema, i, st, modifiedOf, columnsOf), fails)
    {
      var table := TableName(schema, i);
      trace, r := SendChanges(table, columnsOf, st.added, modifiedOf(st.entities), st.removed, fails);
    }

    /**
     * The validation foreach of SaveChanges: the first set holding invalid
     * entities fails with their count; no store call is made.
     */
    method ValidateSets(states: seq<SetState>, isValid: Entity -> bool) returns (r: Outcome<SaveError>)
      ensures r == Validate(states, isValid)
    {
      var k := 0;
      while k < |states|
        invariant k <= |states|
        invariant Validate(states, isValid) == Validate(states[k..], isValid)
      {
        assert states[k..][0] == states[k] && states[k..][1..] == states[k + 1..];
        var invalid := Invalid(states[k].entities, isValid);
        if |invalid| > 0 {
          return Fail(InvalidEntities(|invalid|, DbSetTypeName));
        }
        k := k + 1;
      }
      r := Pass;
    }

    /**
     * One iteration of the persist foreach: after the plans of sets 0..i-1
     * ran without a failure, Persist for set i extends the run by plan i; if
     * it throws, the whole transaction's run ends there.
     */
    method PersistNext(i: nat, states: seq<SetState>, trace: seq<Action>, modifiedOf: seq<Entity> -> seq<Entity>,
                       columnsOf: string -> seq<string>, fails: Action -> bool)
      returns (next: seq<Action>, r: Outcome<SaveError>)
      requires Declared() && |states| == |sets| && i < |sets|
      requires Run(Concat(PersistPlans(schema, states, modifiedOf, columnsOf)[..i]), fails) == (trace, Pass)
      ensures (next, r) == Run(Concat(PersistPlans(schema, states, modifiedOf, columnsOf)[..i + 1]), fails)
      ensures r.Fail? ==> Run(Concat(PersistPlans(schema, states, modifiedOf, columnsOf)), fails) == (next, r)
    {
      ghost var ps := PersistPlans(schema, states, modifiedOf, columnsOf);
      RunPlansStep(ps, i, fails);
      PersistPlansAt(schema, states, |states|, modifiedOf, columnsOf, i);
      var steps;
      steps, r := Persist(i, states[i], modifiedOf, columnsOf, fails);
      next := trace + steps;
    }

    /**
     * The persist foreach of SaveChanges: Persist for every set in
     * declaration order, stopping at the first set whose Persist throws.
     */
    method PersistSets(states: seq<SetState>, modifiedOf: seq<Entity> -> seq<Entity>,
                       columnsOf: string -> seq<string>, fails: Action -> bool)
      returns (trace: seq<Action>, r: Outcome<SaveError>)
      requires Declared() && |states| == |sets|
      ensures (trace, r) == Run(Concat(PersistPlans(schema, states, modifiedOf, columnsOf)), fails)
    {
      ghost var ps := PersistPlans(schema, states, modifiedOf, columnsOf);
      trace := [];
      var i := 0;
      while i < |sets|
        invariant i <= |sets|
        invariant Run(Concat(ps[..i]), fails) == (trace, Pass)
      {
        trace, r := PersistNext(i, states, trace, modifiedOf, columnsOf, fails);
        if r.Fail? {
          return;
        }
        i := i + 1;
      }
      assert ps[..i] == ps;
      r := Pass;
    }

    /**
     * SaveChanges: validate every set, then begin a transaction, persist
     * every set and commit. The sets are read once, as the snapshot the
     * source takes of its DbSet properties; the store calls made and the
     * outcome are those SaveSpec gives for that state.
     */
    method SaveChanges(isValid: Entity -> bool, modifiedOf: seq<Entity> -> seq<Entity>,
                       columnsOf: string -> seq<string>, fails: Action -> bool)
      returns (trace: seq<Action>, r: Outcome<SaveError>)
      requires Declared()
      ensures (trace, r) == SaveSpec(schema, States(), isValid, modifiedOf, columnsOf, fails)
    {
      var states := States();
      r := ValidateSets(states, isValid);
      if r.Fail? {
        return [], r;
      }
      RunTransaction(PersistPlans(schema, states, modifiedOf, columnsOf), fails);
      trace := [BeginTransaction];
      if fails(BeginTransaction) {
        return trace, Fail(StoreFailed(BeginTransaction));
      }
      var steps;
      steps, r := PersistSets(states, modifiedOf, columnsOf, fails);
      trace := trace + steps;
      if r.Fail? {
        return;
      }
      trace := trace + [Commit];
      if fails(Commit) {
        r := Fail(StoreFailed(Commit));
      }
    }
  }
}
