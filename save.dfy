/**
 * The save protocol of DbContext (SaveChanges and Persist) as a plan of
 * store actions. SQL, the connection and the transaction object are not
 * modelled: each store call is an Action, and whether it throws is the
 * parameter `fails`. SaveChanges first validates every set; only then does it
 * begin a transaction, persist the sets in declaration order (per set: fetch
 * the table's columns, insert the added entities, update the modified ones,
 * delete the removed ones, each only when there is something to send) and
 * commit. The first store call that throws ends the save, and Commit is then
 * never reached.
 */
module SaveProtocol {
  import opened Wrappers
  import opened Sequences
  import opened Entities
  import opened Metadata
  import opened SchemaDescriptor

  /** A call the save protocol makes on the store. */
  datatype Action =
    | BeginTransaction
    | FetchColumnNames(table: string)
    | InsertEntities(table: string, entities: seq<Entity>, columns: seq<string>)
    | UpdateEntities(table: string, entities: seq<Entity>, columns: seq<string>)
    | DeleteEntities(table: string, entities: seq<Entity>, columns: seq<string>)
    | Commit

  datatype SaveError =
    | InvalidEntities(count: nat, setTypeName: string)   // the InvalidOperationException of the validation gate
    | StoreFailed(action: Action)                       // a store call threw

  /** The runtime type name of every DbSet<T> instance, which the validation message reports. */
  const DbSetTypeName := "DbSet`1"

  /** What the save reads of one set: its entities and its tracker's two lists. */
  datatype SetState = SetState(entities: seq<Entity>, added: seq<Entity>, removed: seq<Entity>)

  /** Every described type is described under its own name. */
  predicate WellFormed(schema: Schema)
  {
    forall n :: n in schema.types ==> schema.types[n].name == n
  }

  /** GetTableName(typeof(T)) for the element type T of set i; TableNameIs states its value. */
  function TableName(schema: Schema, i: nat): string
    requires WellFormed(schema) && i < |schema.sets|
  {
    var r := GetTableName(schema.sets, TypeOf(schema, schema.sets[i].elementType));
    assert TypeOf(schema, schema.sets[i].elementType).name == schema.sets[i].elementType;
    r.value
  }

  /**
   * A declared set always has a table name: GetTableName succeeds on its
   * element type, giving the [Table] name if there is one and otherwise the
   * name of the first set declaring that type (set i itself or an earlier one).
   */
  lemma TableNameIs(schema: Schema, i: nat)
    requires WellFormed(schema) && i < |schema.sets|
    ensures var t := TypeOf(schema, schema.sets[i].elementType);
      && GetTableName(schema.sets, t) == Ok(TableName(schema, i))
      && (t.table.Some? ==> TableName(schema, i) == t.table.value)
      && (t.table.None? ==> exists j :: (0 <= j <= i && schema.sets[j].elementType == schema.sets[i].elementType &&
            TableName(schema, i) == schema.sets[j].name))
  {
    var t := TypeOf(schema, schema.sets[i].elementType);
    assert t.name == schema.sets[i].elementType;
    if t.table.None? {
      var j := GetDbSet(schema.sets, t.name).value;
      assert j <= i;
    }
  }

  // ---------------------------------------------------------------------------
  // The validation gate

  /** The entities of a set that fail validation, in set order. */
  function Invalid(entities: seq<Entity>, isValid: Entity -> bool): seq<Entity>
  {
    Filter(entities, e => !isValid(e))
  }

  /**
   * The foreach over dbSets before any connection is opened: the first set
   * holding invalid entities fails with their count.
   */
  function Validate(states: seq<SetState>, isValid: Entity -> bool): (r: Outcome<SaveError>)
    ensures r.Fail? ==> r.error.InvalidEntities? && r.error.count > 0 && r.error.setTypeName == DbSetTypeName
  {
    if states == [] then Pass
    else
      var invalid := Invalid(states[0].entities, isValid);
      if |invalid| > 0 then Fail(InvalidEntities(|invalid|, DbSetTypeName))
      else Validate(states[1..], isValid)
  }

  /** Validation passes exactly when every entity of every set is valid. */
  lemma {:induction false} ValidatePasses(states: seq<SetState>, isValid: Entity -> bool)
    ensures Validate(states, isValid).Pass? <==>
      forall k, e :: 0 <= k < |states| && e in states[k].entities ==> isValid(e)
  {
    if states != [] {
      ValidatePasses(states[1..], isValid);
      FilterSelects(states[0].entities, e => !isValid(e));
      assert forall k :: 1 <= k < |states| ==> states[k] == states[1..][k - 1];
      if forall k, e :: 0 <= k < |states| && e in states[k].entities ==> isValid(e) {
        assert forall e :: e in states[0].entities ==> isValid(e);
      }
    }
  }

  /** A failed validation reports the first set with invalid entities and how many it has. */
  lemma {:induction false} ValidateReportsFirst(states: seq<SetState>, isValid: Entity -> bool)
    ensures var r := Validate(states, isValid);
      r.Fail? ==> exists k :: (0 <= k < |states| &&
        r.error == InvalidEntities(|Invalid(states[k].entities, isValid)|, DbSetTypeName) &&
        Invalid(states[k].entities, isValid) != [] &&
        forall j :: 0 <= j < k ==> Invalid(states[j].entities, isValid) == [])
  {
    if states != [] && Invalid(states[0].entities, isValid) == [] {
      ValidateReportsFirst(states[1..], isValid);
      var r := Validate(states[1..], isValid);
      if r.Fail? {
        var k :| 0 <= k < |states[1..]| &&
          r.error == InvalidEntities(|Invalid(states[1..][k].entities, isValid)|, DbSetTypeName) &&
          Invalid(states[1..][k].entities, isValid) != [] &&
          forall j :: 0 <= j < k ==> Invalid(states[1..][j].entities, isValid) == [];
        assert states[k + 1] == states[1..][k];
        assert forall j :: 1 <= j < k + 1 ==> states[j] == states[1..][j - 1];
      }
    }
  }

  // ---------------------------------------------------------------------------
  // Plans

  /**
   * The store calls of Persist<T> once the table name and its columns are
   * known: fetch the columns, then insert the added entities, update the
   * modified ones and delete the removed ones, each only when its list is
   * non-empty.
   */
  function PersistCalls(table: string, columns: seq<string>, added: seq<Entity>, modified: seq<Entity>,
                        removed: seq<Entity>): (p: seq<Action>)
    ensures 1 <= |p| <= 4
  {
    [FetchColumnNames(table)]
    + (if added != [] then [InsertEntities(table, added, columns)] else [])
    + (if modified != [] then [UpdateEntities(table, modified, columns)] else [])
    + (if removed != [] then [DeleteEntities(table, removed, columns)] else [])
  }

  /**
   * Persist<T> for set i. `modifiedOf` is the tracker's GetModifiedEntities
   * over the set's entities and `columnsOf` the store's FetchColumnNames.
   */
  function PersistPlan(schema: Schema, i: nat, st: SetState, modifiedOf: seq<Entity> -> seq<Entity>,
                       columnsOf: string -> seq<string>): seq<Action>
    requires WellFormed(schema) && i < |schema.sets|
  {
    var table := TableName(schema, i);
    PersistCalls(table, columnsOf(table), st.added, modifiedOf(st.entities), st.removed)
  }

  /** The position of an action kind within the transaction. */
  function Rank(a: Action): nat
  {
    match a
    case BeginTransaction => 0
    case FetchColumnNames(_) => 1
    case InsertEntities(_, _, _) => 2
    case UpdateEntities(_, _, _) => 3
    case DeleteEntities(_, _, _) => 4
    case Commit => 5
  }

  /**
   * Persist fetches the table's columns first and then inserts, updates
   * and deletes, strictly in that order; it never begins or commits.
   */
  lemma PersistCallsOrder(table: string, columns: seq<string>, added: seq<Entity>, modified: seq<Entity>,
                          removed: seq<Entity>)
    ensures var p := PersistCalls(table, columns, added, modified, removed);
      && p[0] == FetchColumnNames(table)
      && (forall a, b :: 0 <= a < b < |p| ==> Rank(p[a]) < Rank(p[b]))
      && (forall k :: 0 <= k < |p| ==> 1 <= Rank(p[k]) <= 4)
  {
  }

  /**
   * Each of insert, update and delete is sent exactly when its list is
   * non-empty, with that list, to the set's table, with all of the table's
   * columns.
   */
  lemma PersistCallsContents(table: string, columns: seq<string>, added: seq<Entity>, modified: seq<Entity>,
                             removed: seq<Entity>)
    ensures var p := PersistCalls(table, columns, added, modified, removed);
      && (InsertEntities(table, added, columns) in p <==> added != [])
      && (UpdateEntities(table, modified, columns) in p <==> modified != [])
      && (DeleteEntities(table, removed, columns) in p <==> removed != [])
      && (forall k :: 0 <= k < |p| && p[k].InsertEntities? ==> p[k] == InsertEntities(table, added, columns))
      && (forall k :: 0 <= k < |p| && p[k].UpdateEntities? ==> p[k] == UpdateEntities(table, modified, columns))
      && (forall k :: 0 <= k < |p| && p[k].DeleteEntities? ==> p[k] == DeleteEntities(table, removed, columns))
  {
  }

  /** The persist plans of the first n sets, in declaration order. */
  function PersistPlansUpTo(schema: Schema, states: seq<SetState>, n: nat, modifiedOf: seq<Entity> -> seq<Entity>,
                            columnsOf: string -> seq<string>): (ps: seq<seq<Action>>)
    requires WellFormed(schema) && n <= |states| == |schema.sets|
    ensures |ps| == n
  {
    if n == 0 then []
    else PersistPlansUpTo(schema, states, n - 1, modifiedOf, columnsOf) + [PersistPlan(schema, n - 1, states[n - 1], modifiedOf, columnsOf)]
  }

  /** The persist plan of every set, in declaration order. */
  function PersistPlans(schema: Schema, states: seq<SetState>, modifiedOf: seq<Entity> -> seq<Entity>,
                        columnsOf: string -> seq<string>): (ps: seq<seq<Action>>)
    requires WellFormed(schema) && |states| == |schema.sets|
    ensures |ps| == |states|
  {
    PersistPlansUpTo(schema, states, |states|, modifiedOf, columnsOf)
  }

  /** Plan i of the transaction is Persist for set i. */
  lemma {:induction false} PersistPlansAt(schema: Schema, states: seq<SetState>, n: nat,
                                          modifiedOf: seq<Entity> -> seq<Entity>, columnsOf: string -> seq<string>, i: nat)
    requires WellFormed(schema) && n <= |states| == |schema.sets| && i < n
    ensures PersistPlansUpTo(schema, states, n, modifiedOf, columnsOf)[i] == PersistPlan(schema, i, states[i], modifiedOf, columnsOf)
  {
    if i < n - 1 {
      PersistPlansAt(schema, states, n - 1, modifiedOf, columnsOf, i);
    }
  }

  /** A transaction over the given per-set plans: begin, each plan in turn, commit. */
  function SavePlanOf(ps: seq<seq<Action>>): seq<Action>
  {
    [BeginTransaction] + Concat(ps) + [Commit]
  }

  /** The whole transaction: begin, persist every set in declaration order, commit. */
  function SavePlan(schema: Schema, states: seq<SetState>, modifiedOf: seq<Entity> -> seq<Entity>,
                    columnsOf: string -> seq<string>): seq<Action>
    requires WellFormed(schema) && |states| == |schema.sets|
  {
    SavePlanOf(PersistPlans(schema, states, modifiedOf, columnsOf))
  }

  /**
   * The save plan begins the transaction first and commits last, with no
   * other Begin or Commit between.
   */
  lemma SavePlanShape(schema: Schema, states: seq<SetState>, modifiedOf: seq<Entity> -> seq<Entity>,
                      columnsOf: string -> seq<string>)
    requires WellFormed(schema) && |states| == |schema.sets|
    ensures var plan := SavePlan(schema, states, modifiedOf, columnsOf);
      && plan[0] == BeginTransaction && plan[|plan| - 1] == Commit
      && (forall k :: 0 < k < |plan| - 1 ==> 1 <= Rank(plan[k]) <= 4)
  {
    var ps := PersistPlans(schema, states, modifiedOf, columnsOf);
    var inner := Concat(ps);
    var plan := SavePlanOf(ps);
    assert forall k :: 0 < k < |plan| - 1 ==> plan[k] == inner[k - 1];
    ConcatMembers(ps);
    forall i | 0 <= i < |states|
      ensures forall a :: a in ps[i] ==> 1 <= Rank(a) <= 4
    {
      PersistPlansAt(schema, states, |states|, modifiedOf, columnsOf, i);
      var table := TableName(schema, i);
      PersistCallsOrder(table, columnsOf(table), states[i].added, modifiedOf(states[i].entities), states[i].removed);
    }
    forall k | 0 < k < |plan| - 1
      ensures 1 <= Rank(plan[k]) <= 4
    {
      assert inner[k - 1] in inner;
    }
  }

  /**
   * Plans run in the order given: plan i occurs in the transaction right
   * after plans 0 .. i-1, and the later plans follow it.
   */
  lemma SavePlanSegment(ps: seq<seq<Action>>, i: nat)
    requires i < |ps|
    ensures var plan := SavePlanOf(ps);
      var start := 1 + |Concat(ps[..i])|;
      && start + |ps[i]| == 1 + |Concat(ps[..i + 1])| < |plan|
      && plan[start..start + |ps[i]|] == ps[i]
  {
    var inner := Concat(ps);
    var plan := SavePlanOf(ps);
    ConcatSegment(ps, i);
    var start := |Concat(ps[..i])|;
    assert plan[1 + start..1 + start + |ps[i]|] == inner[start..start + |ps[i]|];
  }

  // ---------------------------------------------------------------------------
  // Running a plan against the store

  /**
   * The store calls actually made: the plan up to and including the first
   * call that throws. The save fails with that call, or passes when none
   * throws.
   */
  function Run(plan: seq<Action>, fails: Action -> bool): (r: (seq<Action>, Outcome<SaveError>))
    ensures |r.0| <= |plan| && r.0 == plan[..|r.0|]
  {
    if plan == [] then ([], Pass)
    else if fails(plan[0]) then ([plan[0]], Fail(StoreFailed(plan[0])))
    else
      var (rest, outcome) := Run(plan[1..], fails);
      ([plan[0]] + rest, outcome)
  }

  /**
   * A run passes exactly when no call of the plan throws, and then makes
   * every call; a failed run stops at the first call that throws and
   * reports it.
   */
  lemma {:induction false} RunMeaning(plan: seq<Action>, fails: Action -> bool)
    ensures var (trace, outcome) := Run(plan, fails);
      && (outcome.Pass? <==> forall k :: 0 <= k < |plan| ==> !fails(plan[k]))
      && (outcome.Pass? ==> trace == plan)
      && (outcome.Fail? ==>
            (trace != [] && fails(trace[|trace| - 1]) &&
             outcome == Fail(StoreFailed(trace[|trace| - 1])) &&
             forall k :: 0 <= k < |trace| - 1 ==> !fails(trace[k])))
  {
    if plan != [] && !fails(plan[0]) {
      RunMeaning(plan[1..], fails);
      assert forall k :: 1 <= k < |plan| ==> plan[k] == plan[1..][k - 1];
    }
  }

  /** Running p + q runs p, and q only when p passed. */
  lemma {:induction false} RunAppend(p: seq<Action>, q: seq<Action>, fails: Action -> bool)
    ensures Run(p + q, fails) ==
      if Run(p, fails).1.Fail? then Run(p, fails)
      else (p + Run(q, fails).0, Run(q, fails).1)
  {
    if p == [] {
      assert p + q == q && p + Run(q, fails).0 == Run(q, fails).0;
    } else {
      assert (p + q)[0] == p[0] && (p + q)[1..] == p[1..] + q;
      if !fails(p[0]) {
        RunAppend(p[1..], q, fails);
        RunMeaning(p[1..], fails);
        var (rest, outcome) := Run(p[1..], fails);
        if outcome.Pass? {
          assert rest == p[1..];
          assert [p[0]] + (p[1..] + Run(q, fails).0) == p + Run(q, fails).0;
        }
      }
    }
  }

  /** A run whose calls before index k all succeed and whose call k throws stops right after call k. */
  lemma {:induction false} RunFirstFailure(plan: seq<Action>, k: nat, fails: Action -> bool)
    requires k < |plan| && fails(plan[k])
    requires forall j :: 0 <= j < k ==> !fails(plan[j])
    ensures Run(plan, fails) == (plan[..k + 1], Fail(StoreFailed(plan[k])))
  {
    if k > 0 {
      RunFirstFailure(plan[1..], k - 1, fails);
      assert [plan[0]] + plan[1..][..k] == plan[..k + 1];
    }
  }

  /**
   * Running the plans of sets 0..i, when those of sets 0..i-1 passed, runs
   * plan i after them; if plan i fails, the whole run stops there.
   */
  lemma RunPlansStep(ps: seq<seq<Action>>, i: nat, fails: Action -> bool)
    requires i < |ps| && Run(Concat(ps[..i]), fails).1.Pass?
    ensures Run(Concat(ps[..i + 1]), fails) == (Run(Concat(ps[..i]), fails).0 + Run(ps[i], fails).0, Run(ps[i], fails).1)
    ensures Run(ps[i], fails).1.Fail? ==> Run(Concat(ps), fails) == Run(Concat(ps[..i + 1]), fails)
  {
    assert ps[..i + 1][..i] == ps[..i];
    RunAppend(Concat(ps[..i]), ps[i], fails);
    RunMeaning(Concat(ps[..i]), fails);
    ConcatSplit(ps, i + 1);
    RunAppend(Concat(ps[..i + 1]), Concat(ps[i + 1..]), fails);
  }

  /** A single call either throws or passes. */
  lemma RunSingle(a: Action, fails: Action -> bool)
    ensures Run([a], fails) == if fails(a) then ([a], Fail(StoreFailed(a))) else ([a], Pass)
  {
    assert [a][1..] == [] && [a] + [] == [a];
  }

  /**
   * A transaction runs Begin, then the plans while they pass, then Commit:
   * a throwing Begin stops it at once, a throwing plan stops it there, and
   * Commit is sent only after every plan passed.
   */
  lemma RunTransaction(ps: seq<seq<Action>>, fails: Action -> bool)
    ensures var inner := Run(Concat(ps), fails);
      Run(SavePlanOf(ps), fails) ==
        if fails(BeginTransaction) then ([BeginTransaction], Fail(StoreFailed(BeginTransaction)))
        else if inner.1.Fail? then ([BeginTransaction] + inner.0, inner.1)
        else if fails(Commit) then ([BeginTransaction] + inner.0 + [Commit], Fail(StoreFailed(Commit)))
        else ([BeginTransaction] + inner.0 + [Commit], Pass)
  {
    var inner := Concat(ps);
    var begun := [BeginTransaction] + inner;
    assert SavePlanOf(ps) == begun + [Commit];
    RunSingle(BeginTransaction, fails);
    RunSingle(Commit, fails);
    RunAppend([BeginTransaction], inner, fails);
    RunAppend(begun, [Commit], fails);
    if !fails(BeginTransaction) && Run(inner, fails).1.Pass? {
      RunMeaning(begun, fails);
      assert Run(begun, fails).0 == begun;
    }
  }

  // ---------------------------------------------------------------------------
  // SaveChanges

  /** The store calls SaveChanges makes and its outcome. */
  function SaveSpec(schema: Schema, states: seq<SetState>, isValid: Entity -> bool,
                    modifiedOf: seq<Entity> -> seq<Entity>, columnsOf: string -> seq<string>,
                    fails: Action -> bool): (r: (seq<Action>, Outcome<SaveError>))
    requires WellFormed(schema) && |states| == |schema.sets|
  {
    match Validate(states, isValid)
    case Fail(e) => ([], Fail(e))
    case Pass => Run(SavePlan(schema, states, modifiedOf, columnsOf), fails)
  }

  /**
   * The validation gate: when some entity is invalid, SaveChanges makes no
   * store call at all and fails with the invalid count of the first set
   * holding invalid entities; every store call happens only after all
   * entities of all sets were found valid.
   */
  lemma ValidationGate(schema: Schema, states: seq<SetState>, isValid: Entity -> bool,
                       modifiedOf: seq<Entity> -> seq<Entity>, columnsOf: string -> seq<string>,
                       fails: Action -> bool)
    requires WellFormed(schema) && |states| == |schema.sets|
    ensures var (trace, outcome) := SaveSpec(schema, states, isValid, modifiedOf, columnsOf, fails);
      && (trace != [] ==> forall k, e :: 0 <= k < |states| && e in states[k].entities ==> isValid(e))
      && ((exists k, e :: 0 <= k < |states| && e in states[k].entities && !isValid(e)) ==>
            trace == [] && outcome == Validate(states, isValid) && outcome.Fail?)
  {
    ValidatePasses(states, isValid);
  }

  /**
   * In a transaction whose plans neither begin nor commit, Commit is
   * reached only when every call before it succeeded; the run passes
   * exactly when no call fails, Commit included, and then the whole
   * transaction was sent.
   */
  lemma {:induction false} CommitIsLast(ps: seq<seq<Action>>, fails: Action -> bool)
    requires forall i, a :: 0 <= i < |ps| && a in ps[i] ==> 1 <= Rank(a) <= 4
    ensures var (trace, outcome) := Run(SavePlanOf(ps), fails);
      var plan := SavePlanOf(ps);
      && (Commit in trace ==> trace == plan && forall k :: 0 <= k < |plan| - 1 ==> !fails(plan[k]))
      && (outcome.Pass? <==> forall k :: 0 <= k < |plan| ==> !fails(plan[k]))
      && (outcome.Pass? ==> trace == plan && trace[|trace| - 1] == Commit)
  {
    var plan := SavePlanOf(ps);
    var inner := Concat(ps);
    RunMeaning(plan, fails);
    ConcatMembers(ps);
    forall k | 0 < k < |plan| - 1
      ensures Rank(plan[k]) <= 4
    {
      assert plan[k] == inner[k - 1] && inner[k - 1] in inner;
      var i :| 0 <= i < |ps| && inner[k - 1] in ps[i];
    }
    var (trace, outcome) := Run(plan, fails);
    if Commit in trace {
      var c :| 0 <= c < |trace| && trace[c] == Commit;
      assert plan[c] == Commit;
      assert c == |plan| - 1;
      assert trace == plan[..|plan|] == plan;
    }
  }

  /**
   * Commit is reached only when validation passed and every call before it,
   * that is every set's whole persist plan, succeeded; the save passes
   * exactly when, in addition, Commit itself succeeds, and then the whole
   * plan was sent.
   */
  lemma CommitOnlyIfAllPersisted(schema: Schema, states: seq<SetState>, isValid: Entity -> bool,
                                 modifiedOf: seq<Entity> -> seq<Entity>, columnsOf: string -> seq<string>,
                                 fails: Action -> bool)
    requires WellFormed(schema) && |states| == |schema.sets|
    ensures var (trace, outcome) := SaveSpec(schema, states, isValid, modifiedOf, columnsOf, fails);
      var plan := SavePlan(schema, states, modifiedOf, columnsOf);
      && (Commit in trace ==>
            (Validate(states, isValid).Pass? && trace == plan &&
             forall k :: 0 <= k < |plan| - 1 ==> !fails(plan[k])))
      && (outcome.Pass? <==> Validate(states, isValid).Pass? && forall k :: 0 <= k < |plan| ==> !fails(plan[k]))
      && (outcome.Pass? ==> trace == plan && trace[|trace| - 1] == Commit)
  {
    var ps := PersistPlans(schema, states, modifiedOf, columnsOf);
    forall i | 0 <= i < |states|
      ensures forall a :: a in ps[i] ==> 1 <= Rank(a) <= 4
    {
      PersistPlansAt(schema, states, |states|, modifiedOf, columnsOf, i);
      var table := TableName(schema, i);
      PersistCallsOrder(table, columnsOf(table), states[i].added, modifiedOf(states[i].entities), states[i].removed);
    }
    CommitIsLast(ps, fails);
  }
}
