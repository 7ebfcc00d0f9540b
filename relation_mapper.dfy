/**
 * MapRelations of DbContext, set by set: the scalar foreign-key pass (each
 * [ForeignKey] property wires its navigation property to the first entity of
 * the target set whose first [Key] value equals the foreign-key value) and
 * the collection pass (each ICollection<T> property receives the entities of
 * T's set whose selected key equals the owner's first [Key] value).
 *
 * The entities of the context's sets are given as `contents`, one list per
 * DbSet property in declaration order. Every failure of the source (a First
 * that finds nothing, a null dereference) is an error value here; the
 * mapping writes only the navigation fields and never a scalar value.
 */
module RelationMapper {
  import opened Wrappers
  import opened Sequences
  import opened Entities
  import opened Metadata
  import opened SchemaDescriptor

  datatype MapError =
    | MissingNavigationProperty(typeName: string, propertyName: string)  // GetProperty gave null
    | NoDbSetForProperty(typeName: string, propertyName: string)         // no set holds the property's type
    | TypeWithoutDbSet(typeName: string)                                 // no set holds the type
    | NoKeyProperty(typeName: string)                                    // First(HasAttribute<KeyAttribute>) found none
    | MissingForeignKeyAttribute(typeName: string, propertyName: string) // a link key without [ForeignKey]
    | NoBackReference(linkType: string, ownerType: string)               // no link key refers back to the owner
    | NoMatchingEntity(key: string)                                      // an orphaned foreign-key value
    | NullKeyValue(key: string)                                          // Equals called on a null key value

  /** All entities of all sets. */
  function Members(contents: seq<seq<Entity>>): (r: set<Entity>)
    ensures forall x :: x in r ==> exists k :: 0 <= k < |contents| && x in contents[k]
  {
    if contents == [] then {} else (set x | x in contents[0]) + Members(contents[1..])
  }

  lemma {:induction false} MembersContain(contents: seq<seq<Entity>>, k: nat)
    requires k < |contents|
    ensures forall x :: x in contents[k] ==> x in Members(contents)
  {
    if k > 0 {
      MembersContain(contents[1..], k - 1);
    }
  }

  lemma MembersContainAll(contents: seq<seq<Entity>>)
    ensures forall k, x :: 0 <= k < |contents| && x in contents[k] ==> x in Members(contents)
  {
    forall k, x | 0 <= k < |contents| && x in contents[k]
      ensures x in Members(contents)
    {
      MembersContain(contents, k);
    }
  }

  /** No entity belongs to two sets. */
  ghost predicate Disjoint(contents: seq<seq<Entity>>)
  {
    forall k, l, x :: 0 <= k < |contents| && 0 <= l < |contents| && k != l && x in contents[k] ==> x !in contents[l]
  }

  // ---------------------------------------------------------------------------
  // Scalar foreign keys

  function ForeignKeys(props: seq<Property>): (r: seq<Property>)
    ensures forall p :: p in r ==> p.foreignKey.Some?
  {
    Filter(props, IsForeignKey)
  }

  /** How one [ForeignKey] property is wired: its navigation property, the target set and key. */
  datatype ReferencePlan = ReferencePlan(navigation: string, targetSet: nat, targetKey: string)

  /**
   * Resolves a [ForeignKey] property of the owner type: its navigation
   * property, the first DbSet of the navigation property's type and that
   * type's first [Key] property.
   */
  function ResolveReference(schema: Schema, owner: EntityType, fk: Property): (r: Result<ReferencePlan, MapError>)
    requires fk.foreignKey.Some?
    ensures r.Ok? ==> r.value.navigation == fk.foreignKey.value && r.value.targetSet < |schema.sets|
  {
    var navName := fk.foreignKey.value;
    match FindProperty(owner.properties, navName)
    case None => Err(MissingNavigationProperty(owner.name, navName))
    case Some(nav) =>
      if !nav.kind.Reference? then Err(NoDbSetForProperty(owner.name, navName))
      else
        var target := nav.kind.target;
        match GetDbSet(schema.sets, target)
        case None => Err(TypeWithoutDbSet(target))
        case Some(j) =>
          match FirstKey(TypeOf(schema, target).properties)
          case None => Err(NoKeyProperty(target))
          case Some(pk) => Ok(ReferencePlan(navName, j, pk.name))
  }

  /**
   * A resolved foreign key names an existing navigation property typed as
   * an entity type T; the target set is the first DbSet of T and the target
   * key is T's first [Key] property. A missing navigation property fails.
   */
  lemma ReferencePlanMeaning(schema: Schema, owner: EntityType, fk: Property)
    requires fk.foreignKey.Some?
    ensures var r := ResolveReference(schema, owner, fk);
      r.Ok? ==>
        var nav := FindProperty(owner.properties, fk.foreignKey.value);
        var target := schema.sets[r.value.targetSet].elementType;
        && nav.Some? && nav.value.kind == Reference(target)
        && GetDbSet(schema.sets, target) == Some(r.value.targetSet)
        && FirstKey(TypeOf(schema, target).properties).Some?
        && r.value.targetKey == FirstKey(TypeOf(schema, target).properties).value.name
    ensures FindProperty(owner.properties, fk.foreignKey.value).None? ==>
      ResolveReference(schema, owner, fk) == Err(MissingNavigationProperty(owner.name, fk.foreignKey.value))
  {
  }

  /**
   * First over the target set: the first entity whose key value equals v.
   * A null key value met before a match fails (Equals on null); no match
   * fails (the foreign key is orphaned). FirstMatchIsFirst,
   * FirstMatchSucceeds and FirstMatchNullKey state the rest.
   */
  function FirstMatch(targets: seq<Entity>, key: string, v: Value): (r: Result<Entity, MapError>)
    reads targets`values
    ensures r.Ok? ==> r.value in targets
  {
    if targets == [] then Err(NoMatchingEntity(key))
    else
      var k := targets[0].Get(key);
      if k == Null then Err(NullKeyValue(key))
      else if k == v then Ok(targets[0])
      else FirstMatch(targets[1..], key, v)
  }

  /**
   * A match is the first target, in set order, whose key value equals v,
   * and v is not null.
   */
  lemma {:induction false} FirstMatchIsFirst(targets: seq<Entity>, key: string, v: Value)
    ensures var r := FirstMatch(targets, key, v);
      r.Ok? ==> v != Null && exists i :: (0 <= i < |targets| && targets[i] == r.value && targets[i].Get(key) == v &&
        forall j :: 0 <= j < i ==> targets[j].Get(key) != v)
  {
    if targets != [] && targets[0].Get(key) != Null && targets[0].Get(key) != v {
      FirstMatchIsFirst(targets[1..], key, v);
      var r := FirstMatch(targets[1..], key, v);
      if r.Ok? {
        var i :| 0 <= i < |targets[1..]| && targets[1..][i] == r.value && targets[1..][i].Get(key) == v &&
          forall j :: 0 <= j < i ==> targets[1..][j].Get(key) != v;
        assert targets[i + 1] == r.value;
        assert forall j :: 1 <= j < i + 1 ==> targets[j] == targets[1..][j - 1];
      }
    }
  }

  /** Target i's key equals v and no earlier target's key is null. */
  predicate MatchAfterKeys(targets: seq<Entity>, key: string, v: Value, i: int)
    reads targets`values
  {
    0 <= i < |targets| && targets[i].Get(key) == v && forall j :: 0 <= j < i ==> targets[j].Get(key) != Null
  }

  /**
   * First succeeds exactly when v is not null and some target's key equals
   * it with no null key before it; a null key after the match is never read.
   */
  lemma {:induction false} FirstMatchSucceeds(targets: seq<Entity>, key: string, v: Value)
    ensures FirstMatch(targets, key, v).Ok? <==> v != Null && exists i :: MatchAfterKeys(targets, key, v, i)
  {
    if targets != [] && targets[0].Get(key) != Null && targets[0].Get(key) != v {
      var rest := targets[1..];
      FirstMatchSucceeds(rest, key, v);
      if FirstMatch(rest, key, v).Ok? {
        var i :| MatchAfterKeys(rest, key, v, i);
        assert targets[i + 1] == rest[i];
        assert forall j :: 1 <= j < i + 1 ==> targets[j] == rest[j - 1];
        assert MatchAfterKeys(targets, key, v, i + 1);
      }
      if v != Null && exists i :: MatchAfterKeys(targets, key, v, i) {
        var i :| MatchAfterKeys(targets, key, v, i);
        assert rest[i - 1] == targets[i];
        assert forall j :: 0 <= j < i - 1 ==> rest[j] == targets[j + 1];
        assert MatchAfterKeys(rest, key, v, i - 1);
      }
    } else if targets != [] {
      assert targets[0].Get(key) != Null ==> MatchAfterKeys(targets, key, v, 0);
      assert targets[0].Get(key) == Null ==> forall i :: 0 < i < |targets| ==> !MatchAfterKeys(targets, key, v, i);
    }
  }

  /** Target i's key is null and no earlier target's key equals v. */
  predicate NullBeforeMatch(targets: seq<Entity>, key: string, v: Value, i: int)
    reads targets`values
  {
    0 <= i < |targets| && targets[i].Get(key) == Null && forall j :: 0 <= j < i ==> targets[j].Get(key) != v
  }

  /**
   * First fails on a null key value exactly when some target's key is null
   * and no target before it matches (Equals is called on the null key);
   * otherwise a failure is an orphaned foreign key.
   */
  lemma {:induction false} FirstMatchNullKey(targets: seq<Entity>, key: string, v: Value)
    ensures FirstMatch(targets, key, v).Err? ==>
      FirstMatch(targets, key, v).error == NullKeyValue(key) || FirstMatch(targets, key, v).error == NoMatchingEntity(key)
    ensures FirstMatch(targets, key, v) == Err(NullKeyValue(key)) <==> exists i :: NullBeforeMatch(targets, key, v, i)
  {
    if targets != [] && targets[0].Get(key) != Null && targets[0].Get(key) != v {
      var rest := targets[1..];
      FirstMatchNullKey(rest, key, v);
      if FirstMatch(rest, key, v) == Err(NullKeyValue(key)) {
        var i :| NullBeforeMatch(rest, key, v, i);
        assert targets[i + 1] == rest[i];
        assert forall j :: 1 <= j < i + 1 ==> targets[j] == rest[j - 1];
        assert NullBeforeMatch(targets, key, v, i + 1);
      }
      if exists i :: NullBeforeMatch(targets, key, v, i) {
        var i :| NullBeforeMatch(targets, key, v, i);
        assert rest[i - 1] == targets[i];
        assert forall j :: 0 <= j < i - 1 ==> rest[j] == targets[j + 1];
        assert NullBeforeMatch(rest, key, v, i - 1);
      }
    } else if targets != [] {
      assert targets[0].Get(key) == Null ==> NullBeforeMatch(targets, key, v, 0);
      assert targets[0].Get(key) == v ==> forall i :: 0 < i < |targets| ==> !NullBeforeMatch(targets, key, v, i);
    }
  }

  /** The target the navigation property of owner e is wired to, by the foreign-key property named foreignKey. */
  function ReferenceFor(targets: seq<Entity>, foreignKey: string, plan: ReferencePlan, e: Entity): Result<Entity, MapError>
    reads targets`values, e`values
  {
    FirstMatch(targets, plan.targetKey, e.Get(foreignKey))
  }

  /**
   * Wires one [ForeignKey] property on every owner: the navigation property
   * becomes the first matching target.
   */
  method WireReferences(owners: seq<Entity>, targets: seq<Entity>, foreignKey: string, plan: ReferencePlan)
    returns (r: Outcome<MapError>)
    modifies owners`references
    ensures r.Pass? <==> forall e :: e in owners ==> ReferenceFor(targets, foreignKey, plan, e).Ok?
    ensures r.Pass? ==> forall e :: e in owners ==>
      e.references == old(e.references)[plan.navigation := ReferenceFor(targets, foreignKey, plan, e).value]
  {
    var k := 0;
    while k < |owners|
      invariant k <= |owners|
      invariant forall e :: e in owners[..k] ==> (ReferenceFor(targets, foreignKey, plan, e).Ok? &&
        e.references == old(e.references)[plan.navigation := ReferenceFor(targets, foreignKey, plan, e).value])
      invariant forall e :: e in owners && e !in owners[..k] ==> e.references == old(e.references)
    {
      var entity := owners[k];
      var target := ReferenceFor(targets, foreignKey, plan, entity);
      if target.Err? {
        assert entity in owners;
        return Fail(target.error);
      }
      entity.references := entity.references[plan.navigation := target.value];
      assert owners[..k + 1] == owners[..k] + [entity];
      k := k + 1;
    }
    assert owners[..k] == owners;
    r := Pass;
  }

  // ---------------------------------------------------------------------------
  // Collection navigation properties

  function CollectionProperties(props: seq<Property>): (r: seq<Property>)
    ensures forall p :: p in r ==> p.kind.Collection?
  {
    Filter(props, IsCollection)
  }

  /**
   * How one collection property is filled: with the entities of the element
   * type's set (elementSet) whose property elementKey equals the owner's
   * property ownerKey.
   */
  datatype CollectionPlan = CollectionPlan(manyToMany: bool, ownerKey: string, elementSet: nat, elementKey: string)

  /** p is a [ForeignKey] property of the link type whose navigation property has the owner's type. */
  predicate RefersTo(linkType: EntityType, p: Property, ownerName: string)
  {
    p.foreignKey.Some? &&
    var nav := FindProperty(linkType.properties, p.foreignKey.value);
    nav.Some? && nav.value.kind == Reference(ownerName)
  }

  /** The search passes over p without failing: p is no key, or a key whose navigation has another type. */
  predicate PassesOver(linkType: EntityType, p: Property, ownerName: string)
  {
    !p.isKey ||
    (p.foreignKey.Some? && FindProperty(linkType.properties, p.foreignKey.value).Some? && !RefersTo(linkType, p, ownerName))
  }

  /**
   * The many-to-many key choice: the first [Key] property of the link type
   * whose [ForeignKey] navigation property has the owner's type. A key
   * without [ForeignKey], or one naming a missing navigation property, is a
   * null dereference in the source.
   */
  function FindBackReference(scan: seq<Property>, linkType: EntityType, ownerName: string): (r: Result<Property, MapError>)
    ensures r.Ok? ==> r.value in scan && r.value.isKey && RefersTo(linkType, r.value, ownerName)
  {
    if scan == [] then Err(NoBackReference(linkType.name, ownerName))
    else
      var p := scan[0];
      if p.isKey && p.foreignKey.None? then Err(MissingForeignKeyAttribute(linkType.name, p.name))
      else if p.isKey && FindProperty(linkType.properties, p.foreignKey.value).None? then
        Err(MissingNavigationProperty(linkType.name, p.foreignKey.value))
      else if p.isKey && RefersTo(linkType, p, ownerName) then Ok(p)
      else FindBackReference(scan[1..], linkType, ownerName)
  }

  /**
   * The back-reference found is the first property of the scan that does not
   * pass over: every earlier one is a non-key or a key referring elsewhere.
   */
  lemma {:induction false} FindBackReferenceIsFirst(scan: seq<Property>, linkType: EntityType, ownerName: string)
    ensures var r := FindBackReference(scan, linkType, ownerName);
      r.Ok? ==> exists i :: (0 <= i < |scan| && scan[i] == r.value &&
        forall j :: 0 <= j < i ==> PassesOver(linkType, scan[j], ownerName))
  {
    if scan != [] && PassesOver(linkType, scan[0], ownerName) {
      FindBackReferenceIsFirst(scan[1..], linkType, ownerName);
      var r := FindBackReference(scan[1..], linkType, ownerName);
      if r.Ok? {
        var i :| 0 <= i < |scan[1..]| && scan[1..][i] == r.value &&
          forall j :: 0 <= j < i ==> PassesOver(linkType, scan[1..][j], ownerName);
        assert scan[i + 1] == r.value;
        assert forall j :: 1 <= j < i + 1 ==> scan[j] == scan[1..][j - 1];
      }
    }
  }

  /** When every property of the scan passes over, there is no back-reference. */
  lemma {:induction false} FindBackReferenceNone(scan: seq<Property>, linkType: EntityType, ownerName: string)
    requires forall p :: p in scan ==> PassesOver(linkType, p, ownerName)
    ensures FindBackReference(scan, linkType, ownerName).Err?
  {
    if scan != [] {
      assert scan[0] in scan;
      assert forall q :: q in scan[1..] ==> q in scan;
      FindBackReferenceNone(scan[1..], linkType, ownerName);
    }
  }

  /**
   * Resolves a collection property ICollection<E> of the owner type: the
   * relation is many-to-many exactly when E has at least two [Key]
   * properties. One-to-many selects E's first key and the owner's first key;
   * many-to-many selects E's back-reference key and the first key of that
   * key's navigation type, which is the owner type itself. The set searched
   * is the first DbSet of E.
   */
  function ResolveCollection(schema: Schema, ownerName: string, coll: Property): (r: Result<CollectionPlan, MapError>)
    requires coll.kind.Collection?
    ensures r.Ok? ==> r.value.elementSet < |schema.sets|
  {
    var element := coll.kind.element;
    var link := TypeOf(schema, element);
    var keys := Keys(link.properties);
    var choice: Result<(string, string), MapError> :=
      if |keys| < 2 then
        match FirstKey(link.properties)
        case None => Err(NoKeyProperty(element))
        case Some(pk) =>
          match FirstKey(TypeOf(schema, ownerName).properties)
          case None => Err(NoKeyProperty(ownerName))
          case Some(fk) => Ok((pk.name, fk.name))
      else
        match FindBackReference(link.properties, link, ownerName)
        case Err(e) => Err(e)
        case Ok(pk) =>
          var foreignKeyType := FindProperty(link.properties, pk.foreignKey.value).value.kind.target;
          match FirstKey(TypeOf(schema, foreignKeyType).properties)
          case None => Err(NoKeyProperty(foreignKeyType))
          case Some(fk) => Ok((pk.name, fk.name));
    match choice
    case Err(e) => Err(e)
    case Ok((elementKey, ownerKey)) =>
      match GetDbSet(schema.sets, element)
      case None => Err(TypeWithoutDbSet(element))
      case Some(j) => Ok(CollectionPlan(|keys| >= 2, ownerKey, j, elementKey))
  }

  /**
   * What a resolved collection plan selects: many-to-many exactly when the
   * element type has at least two [Key] properties; the first DbSet of the
   * element type; on the owner side the owner's first [Key] in both
   * branches; on the element side the element's first [Key] (one-to-many)
   * or the link type's back-reference key (many-to-many).
   */
  lemma CollectionPlanMeaning(schema: Schema, ownerName: string, coll: Property)
    requires coll.kind.Collection?
    ensures var r := ResolveCollection(schema, ownerName, coll); r.Ok? ==> (r.value.manyToMany <==> |Keys(TypeOf(schema, coll.kind.element).properties)| >= 2)
    ensures var r := ResolveCollection(schema, ownerName, coll); r.Ok? ==> GetDbSet(schema.sets, coll.kind.element) == Some(r.value.elementSet)
    ensures var r := ResolveCollection(schema, ownerName, coll); r.Ok? ==> var ok := FirstKey(TypeOf(schema, ownerName).properties);
      ok.Some? && r.value.ownerKey == ok.value.name
    ensures var r := ResolveCollection(schema, ownerName, coll); r.Ok? && !r.value.manyToMany ==>
      var ek := FirstKey(TypeOf(schema, coll.kind.element).properties);
      ek.Some? && r.value.elementKey == ek.value.name
    ensures var r := ResolveCollection(schema, ownerName, coll); r.Ok? && r.value.manyToMany ==>
      var link := TypeOf(schema, coll.kind.element);
      var back := FindBackReference(link.properties, link, ownerName);
      back.Ok? && r.value.elementKey == back.value.name && RefersTo(link, back.value, ownerName)
  {
  }

  /**
   * Where over the element set: the elements whose key value equals v, in
   * set order. Every element's key is read (ToArray forces the whole
   * sequence), so any null key value fails, whatever v is. MatchingIsFilter
   * states the result.
   */
  function Matching(elements: seq<Entity>, key: string, v: Value): (r: Result<seq<Entity>, MapError>)
    reads elements`values
    ensures r.Ok? ==> |r.value| <= |elements|
  {
    if elements == [] then Ok([])
    else
      var x := elements[0];
      var k := x.Get(key);
      if k == Null then Err(NullKeyValue(key))
      else match Matching(elements[1..], key, v)
        case Err(e) => Err(e)
        case Ok(rest) => if k == v then Ok([x] + rest) else Ok(rest)
  }

  /** Matching succeeds exactly when no element's key is null. */
  lemma {:induction false} MatchingSucceeds(elements: seq<Entity>, key: string, v: Value)
    ensures Matching(elements, key, v).Ok? <==> forall j :: 0 <= j < |elements| ==> elements[j].Get(key) != Null
  {
    if elements != [] {
      MatchingSucceeds(elements[1..], key, v);
      assert forall j :: 1 <= j < |elements| ==> elements[j] == elements[1..][j - 1];
    }
  }

  /**
   * A successful Matching is the sub-sequence of the elements whose key
   * value equals v: nothing added, and nothing omitted (each such element
   * occurs as often as in the set).
   */
  lemma {:induction false} MatchingIsFilter(elements: seq<Entity>, key: string, v: Value)
    ensures var r := Matching(elements, key, v);
      && (r.Ok? ==> forall x :: x in r.value ==> x in elements && x.Get(key) == v)
      && (r.Ok? ==> forall x :: x in elements ==>
            multiset(r.value)[x] == if x.Get(key) == v then multiset(elements)[x] else 0)
      && (r.Ok? ==> IsSubsequence(r.value, elements))
  {
    if elements != [] {
      var x := elements[0];
      MatchingIsFilter(elements[1..], key, v);
      assert elements == [x] + elements[1..];
      var r := Matching(elements[1..], key, v);
      if x.Get(key) != Null && r.Ok? && x.Get(key) == v {
        var rest := r.value;
        assert ([x] + rest)[0] == elements[0] && ([x] + rest)[1..] == rest;
      }
    }
  }

  /** The collection owner e receives under the collection plan. */
  function CollectionFor(elements: seq<Entity>, plan: CollectionPlan, e: Entity): Result<seq<Entity>, MapError>
    reads elements`values, e`values
  {
    Matching(elements, plan.elementKey, e.Get(plan.ownerKey))
  }

  /** Fills one collection property on every owner with its matching elements. */
  method WireCollection(owners: seq<Entity>, elements: seq<Entity>, collection: string, plan: CollectionPlan)
    returns (r: Outcome<MapError>)
    modifies owners`collections
    ensures r.Pass? <==> forall e :: e in owners ==> CollectionFor(elements, plan, e).Ok?
    ensures r.Pass? ==> forall e :: e in owners ==>
      e.collections == old(e.collections)[collection := CollectionFor(elements, plan, e).value]
  {
    var k := 0;
    while k < |owners|
      invariant k <= |owners|
      invariant forall e :: e in owners[..k] ==> (CollectionFor(elements, plan, e).Ok? &&
        e.collections == old(e.collections)[collection := CollectionFor(elements, plan, e).value])
      invariant forall e :: e in owners && e !in owners[..k] ==> e.collections == old(e.collections)
    {
      var entity := owners[k];
      var found := CollectionFor(elements, plan, entity);
      if found.Err? {
        assert entity in owners;
        return Fail(found.error);
      }
      entity.collections := entity.collections[collection := found.value];
      assert owners[..k + 1] == owners[..k] + [entity];
      k := k + 1;
    }
    assert owners[..k] == owners;
    r := Pass;
  }

  // ---------------------------------------------------------------------------
  // One set's passes (the body of the foreach over dbSets)

  /** The owner type of set i. */
  function OwnerType(schema: Schema, i: nat): EntityType
    requires i < |schema.sets|
  {
    TypeOf(schema, schema.sets[i].elementType)
  }

  /** The foreign-key property fk of set i's type resolves, and every owner of set i finds its target. */
  predicate ReferenceMappable(schema: Schema, contents: seq<seq<Entity>>, i: nat, fk: Property)
    requires i < |contents| == |schema.sets| && fk.foreignKey.Some?
    reads Members(contents)`values
  {
    MembersContain(contents, i);
    var plan := ResolveReference(schema, OwnerType(schema, i), fk);
    if plan.Err? then false
    else
      MembersContain(contents, plan.value.targetSet);
      forall e :: e in contents[i] ==> ReferenceFor(contents[plan.value.targetSet], fk.name, plan.value, e).Ok?
  }

  /** Every foreign-key property in fks is mappable on set i. */
  predicate ReferencesMappable(schema: Schema, contents: seq<seq<Entity>>, i: nat, fks: seq<Property>)
    requires i < |contents| == |schema.sets|
    requires forall p :: p in fks ==> p.foreignKey.Some?
    reads Members(contents)`values
  {
    forall fk :: fk in fks ==> ReferenceMappable(schema, contents, i, fk)
  }

  /** Mappability of fks + [fk] is that of fks and that of fk. */
  lemma ReferencesMappableAppend(schema: Schema, contents: seq<seq<Entity>>, i: nat, fks: seq<Property>, fk: Property)
    requires i < |contents| == |schema.sets|
    requires forall p :: p in fks + [fk] ==> p.foreignKey.Some?
    requires ReferencesMappable(schema, contents, i, fks) && ReferenceMappable(schema, contents, i, fk)
    ensures ReferencesMappable(schema, contents, i, fks + [fk])
  {
  }

  /** The navigation map of owner e after the foreign-key property fk of set i's type is wired, from refs. */
  function ReferenceStep(schema: Schema, contents: seq<seq<Entity>>, i: nat, fk: Property, e: Entity,
                         refs: map<string, Entity>): map<string, Entity>
    requires i < |contents| == |schema.sets| && fk.foreignKey.Some?
    reads e`values, Members(contents)`values
  {
    match ResolveReference(schema, OwnerType(schema, i), fk)
    case Err(_) => refs
    case Ok(plan) =>
      MembersContain(contents, plan.targetSet);
      match ReferenceFor(contents[plan.targetSet], fk.name, plan, e)
      case Err(_) => refs
      case Ok(target) => refs[plan.navigation := target]
  }

  /**
   * The navigation map of owner e after the [ForeignKey] properties fks of
   * set i's type have been wired in order, starting from refs.
   */
  function WiredReferences(schema: Schema, contents: seq<seq<Entity>>, i: nat, fks: seq<Property>, e: Entity,
                           refs: map<string, Entity>): map<string, Entity>
    requires i < |contents| == |schema.sets|
    requires forall p :: p in fks ==> p.foreignKey.Some?
    reads e`values, Members(contents)`values
    decreases |fks|
  {
    if fks == [] then refs
    else
      ReferenceStep(schema, contents, i, fks[|fks| - 1], e,
        WiredReferences(schema, contents, i, fks[..|fks| - 1], e, refs))
  }

  /**
   * The navigation map w holds, under the navigation property fk names, the
   * target fk resolves to for owner e.
   */
  predicate ReferenceHeld(schema: Schema, contents: seq<seq<Entity>>, i: nat, fk: Property, e: Entity,
                          w: map<string, Entity>)
    requires i < |contents| == |schema.sets| && fk.foreignKey.Some?
    reads e`values, Members(contents)`values
  {
    var plan := ResolveReference(schema, OwnerType(schema, i), fk);
    if plan.Err? then false
    else
      MembersContain(contents, plan.value.targetSet);
      var target := ReferenceFor(contents[plan.value.targetSet], fk.name, plan.value, e);
      target.Ok? && plan.value.navigation in w && w[plan.value.navigation] == target.value
  }

  /** A step for a foreign key naming another navigation property keeps the entry for n. */
  lemma ReferenceStepKeeps(schema: Schema, contents: seq<seq<Entity>>, i: nat, fk: Property, e: Entity,
                           refs: map<string, Entity>, n: string)
    requires i < |contents| == |schema.sets| && fk.foreignKey.Some? && fk.foreignKey.value != n
    ensures var w := ReferenceStep(schema, contents, i, fk, e, refs);
      (n in w <==> n in refs) && (n in refs ==> w[n] == refs[n])
  {
  }

  /** On an owner of a set where fk is mappable, the step for fk sets its navigation property to the match. */
  lemma ReferenceStepSets(schema: Schema, contents: seq<seq<Entity>>, i: nat, fk: Property, e: Entity,
                          refs: map<string, Entity>)
    requires i < |contents| == |schema.sets| && fk.foreignKey.Some?
    requires ReferenceMappable(schema, contents, i, fk)
    requires e in contents[i]
    ensures ReferenceHeld(schema, contents, i, fk, e, ReferenceStep(schema, contents, i, fk, e, refs))
  {
  }

  /** A navigation property no foreign key of fks names keeps its entry (or its absence). */
  lemma {:induction false} WiredReferencesUntouched(schema: Schema, contents: seq<seq<Entity>>, i: nat, fks: seq<Property>,
                                                    e: Entity, refs: map<string, Entity>, n: string)
    requires i < |contents| == |schema.sets|
    requires forall p :: p in fks ==> p.foreignKey.Some? && p.foreignKey.value != n
    ensures var w := WiredReferences(schema, contents, i, fks, e, refs);
      (n in w <==> n in refs) && (n in refs ==> w[n] == refs[n])
    decreases |fks|
  {
    if fks != [] {
      var last := fks[|fks| - 1];
      assert last in fks;
      assert forall p :: p in fks[..|fks| - 1] ==> p in fks;
      WiredReferencesUntouched(schema, contents, i, fks[..|fks| - 1], e, refs, n);
      ReferenceStepKeeps(schema, contents, i, last, e, WiredReferences(schema, contents, i, fks[..|fks| - 1], e, refs), n);
    }
  }

  /**
   * On a mappable set, the navigation property named by the foreign key
   * fks[k], when no later foreign key names it, ends up holding the first
   * target whose key equals the owner's foreign-key value.
   */
  lemma {:induction false} WiredReferenceLast(schema: Schema, contents: seq<seq<Entity>>, i: nat, fks: seq<Property>,
                                              e: Entity, refs: map<string, Entity>, k: nat)
    requires i < |contents| == |schema.sets|
    requires forall p :: p in fks ==> p.foreignKey.Some?
    requires ReferencesMappable(schema, contents, i, fks)
    requires e in contents[i]
    requires k < |fks|
    requires forall j :: k < j < |fks| ==> fks[j].foreignKey.value != fks[k].foreignKey.value
    ensures ReferenceHeld(schema, contents, i, fks[k], e, WiredReferences(schema, contents, i, fks, e, refs))
    decreases |fks|
  {
    var last := fks[|fks| - 1];
    var prefix := fks[..|fks| - 1];
    var middle := WiredReferences(schema, contents, i, prefix, e, refs);
    assert last in fks;
    if k == |fks| - 1 {
      ReferenceStepSets(schema, contents, i, last, e, middle);
    } else {
      assert forall p :: p in prefix ==> p in fks;
      assert forall j :: k < j < |prefix| ==> prefix[j] == fks[j];
      assert prefix[k] == fks[k];
      WiredReferenceLast(schema, contents, i, prefix, e, refs, k);
      ReferenceStepKeeps(schema, contents, i, last, e, middle, fks[k].foreignKey.value);
    }
  }

  /** The navigation maps of the given owners, as they stand. */
  function ReferenceMaps(owners: seq<Entity>): (m: map<Entity, map<string, Entity>>)
    reads owners`references
    ensures forall e :: e in owners ==> e in m && m[e] == e.references
  {
    map e | e in owners :: e.references
  }

  /** Every owner of set i holds the navigation map the foreign keys fks give it from its map in before. */
  predicate ReferencesWired(schema: Schema, contents: seq<seq<Entity>>, i: nat, fks: seq<Property>,
                            before: map<Entity, map<string, Entity>>)
    requires i < |contents| == |schema.sets|
    requires forall p :: p in fks ==> p.foreignKey.Some?
    reads contents[i]`references, Members(contents)`values
  {
    MembersContain(contents, i);
    forall e :: e in contents[i] ==>
      (e in before && e.references == WiredReferences(schema, contents, i, fks, e, before[e]))
  }

  /** middle holds, for every owner of set i, the navigation map the foreign keys fks give it from before. */
  predicate ReferenceMapsAfter(schema: Schema, contents: seq<seq<Entity>>, i: nat, fks: seq<Property>,
                               before: map<Entity, map<string, Entity>>, middle: map<Entity, map<string, Entity>>)
    requires i < |contents| == |schema.sets|
    requires forall p :: p in fks ==> p.foreignKey.Some?
    reads Members(contents)`values
  {
    MembersContain(contents, i);
    forall e :: e in contents[i] ==>
      (e in before && e in middle && middle[e] == WiredReferences(schema, contents, i, fks, e, before[e]))
  }

  /** Wiring fks and then fk is wiring fks + [fk]. */
  lemma ReferencesWiredStep(schema: Schema, contents: seq<seq<Entity>>, i: nat, fks: seq<Property>, fk: Property,
                            before: map<Entity, map<string, Entity>>, middle: map<Entity, map<string, Entity>>)
    requires i < |contents| == |schema.sets|
    requires forall p :: p in fks + [fk] ==> p.foreignKey.Some?
    requires ReferenceMapsAfter(schema, contents, i, fks, before, middle)
    requires ReferencesWired(schema, contents, i, [fk], middle)
    ensures ReferencesWired(schema, contents, i, fks + [fk], before)
  {
    MembersContain(contents, i);
    forall e | e in contents[i]
      ensures e.references == WiredReferences(schema, contents, i, fks + [fk], e, before[e])
    {
      var all := fks + [fk];
      assert all[..|all| - 1] == fks && all[|all| - 1] == fk;
      assert [fk][..0] == [];
      assert WiredReferences(schema, contents, i, [fk], e, middle[e]) == ReferenceStep(schema, contents, i, fk, e, middle[e]);
    }
  }

  /** One iteration of the foreach over foreignKeys: resolve fk, then wire it on every owner of set i. */
  method MapForeignKey(schema: Schema, contents: seq<seq<Entity>>, i: nat, fk: Property) returns (r: Outcome<MapError>)
    requires i < |contents| == |schema.sets| && fk.foreignKey.Some?
    modifies contents[i]`references
    ensures r.Pass? <==> ReferenceMappable(schema, contents, i, fk)
    ensures r.Pass? ==> ReferencesWired(schema, contents, i, [fk], old(ReferenceMaps(contents[i])))
  {
    ghost var before := ReferenceMaps(contents[i]);
    var plan := ResolveReference(schema, OwnerType(schema, i), fk);
    if plan.Err? {
      return Fail(plan.error);
    }
    MembersContain(contents, plan.value.targetSet);
    r := WireReferences(contents[i], contents[plan.value.targetSet], fk.name, plan.value);
    if r.Pass? {
      MembersContain(contents, i);
      forall e | e in contents[i]
        ensures e in before && e.references == WiredReferences(schema, contents, i, [fk], e, before[e])
      {
        assert [fk][..0] == [];
      }
    }
  }

  /** MapForeignKey after the foreign keys fks have been wired from before: on success fks + [fk] have. */
  method ExtendReferences(schema: Schema, contents: seq<seq<Entity>>, i: nat, fks: seq<Property>, fk: Property,
                   ghost before: map<Entity, map<string, Entity>>) returns (r: Outcome<MapError>)
    requires i < |contents| == |schema.sets|
    requires forall p :: p in fks + [fk] ==> p.foreignKey.Some?
    requires ReferencesMappable(schema, contents, i, fks)
    requires ReferencesWired(schema, contents, i, fks, before)
    modifies contents[i]`references
    ensures r.Fail? ==> !ReferenceMappable(schema, contents, i, fk)
    ensures r.Pass? ==> ReferencesMappable(schema, contents, i, fks + [fk])
    ensures r.Pass? ==> ReferencesWired(schema, contents, i, fks + [fk], before)
  {
    ghost var middle := ReferenceMaps(contents[i]);
    assert ReferenceMapsAfter(schema, contents, i, fks, before, middle);
    label Call:
    r := MapForeignKey(schema, contents, i, fk);
    assert unchanged@Call(Members(contents)`values);
    if r.Pass? {
      ReferencesMappableAppend(schema, contents, i, fks, fk);
      ReferencesWiredStep(schema, contents, i, fks, fk, before, middle);
    }
  }

  /** The foreign-key pass over set i (the foreach over foreignKeys). */
  method MapSetReferences(schema: Schema, contents: seq<seq<Entity>>, i: nat) returns (r: Outcome<MapError>)
    requires i < |contents| == |schema.sets|
    modifies contents[i]`references
    ensures r.Pass? <==> ReferencesMappable(schema, contents, i, ForeignKeys(OwnerType(schema, i).properties))
    ensures r.Pass? ==>
      ReferencesWired(schema, contents, i, ForeignKeys(OwnerType(schema, i).properties), old(ReferenceMaps(contents[i])))
  {
    var fks := ForeignKeys(OwnerType(schema, i).properties);
    ghost var before := ReferenceMaps(contents[i]);
    MembersContain(contents, i);
    var j := 0;
    while j < |fks|
      invariant j <= |fks|
      invariant ReferencesMappable(schema, contents, i, fks[..j])
      invariant ReferencesWired(schema, contents, i, fks[..j], before)
    {
      assert fks[..j + 1] == fks[..j] + [fks[j]];
      r := ExtendReferences(schema, contents, i, fks[..j], fks[j], before);
      if r.Fail? {
        assert fks[j] in fks;
        return;
      }
      j := j + 1;
    }
    assert fks[..j] == fks;
    r := Pass;
  }

  /** The collection property c of set i's type resolves, and every owner of set i gets its collection. */
  predicate CollectionMappable(schema: Schema, contents: seq<seq<Entity>>, i: nat, c: Property)
    requires i < |contents| == |schema.sets| && c.kind.Collection?
    reads Members(contents)`values
  {
    MembersContain(contents, i);
    var plan := ResolveCollection(schema, schema.sets[i].elementType, c);
    if plan.Err? then false
    else
      MembersContain(contents, plan.value.elementSet);
      forall e :: e in contents[i] ==> CollectionFor(contents[plan.value.elementSet], plan.value, e).Ok?
  }

  /** Every collection property in cs is mappable on set i. */
  predicate CollectionsMappable(schema: Schema, contents: seq<seq<Entity>>, i: nat, cs: seq<Property>)
    requires i < |contents| == |schema.sets|
    requires forall p :: p in cs ==> p.kind.Collection?
    reads Members(contents)`values
  {
    forall c :: c in cs ==> CollectionMappable(schema, contents, i, c)
  }

  /** Mappability of cs + [c] is that of cs and that of c. */
  lemma CollectionsMappableAppend(schema: Schema, contents: seq<seq<Entity>>, i: nat, cs: seq<Property>, c: Property)
    requires i < |contents| == |schema.sets|
    requires forall p :: p in cs + [c] ==> p.kind.Collection?
    requires CollectionsMappable(schema, contents, i, cs) && CollectionMappable(schema, contents, i, c)
    ensures CollectionsMappable(schema, contents, i, cs + [c])
  {
  }

  /** The collection map of owner e after the collection property c of set i's type is filled, from colls. */
  function CollectionStep(schema: Schema, contents: seq<seq<Entity>>, i: nat, c: Property, e: Entity,
                          colls: map<string, seq<Entity>>): map<string, seq<Entity>>
    requires i < |contents| == |schema.sets| && c.kind.Collection?
    reads e`values, Members(contents)`values
  {
    match ResolveCollection(schema, schema.sets[i].elementType, c)
    case Err(_) => colls
    case Ok(plan) =>
      MembersContain(contents, plan.elementSet);
      match CollectionFor(contents[plan.elementSet], plan, e)
      case Err(_) => colls
      case Ok(found) => colls[c.name := found]
  }

  /**
   * The collection map of owner e after the collection properties cs of
   * set i's type have been filled in order, starting from colls.
   */
  function WiredCollections(schema: Schema, contents: seq<seq<Entity>>, i: nat, cs: seq<Property>, e: Entity,
                            colls: map<string, seq<Entity>>): map<string, seq<Entity>>
    requires i < |contents| == |schema.sets|
    requires forall p :: p in cs ==> p.kind.Collection?
    reads e`values, Members(contents)`values
    decreases |cs|
  {
    if cs == [] then colls
    else
      CollectionStep(schema, contents, i, cs[|cs| - 1], e,
        WiredCollections(schema, contents, i, cs[..|cs| - 1], e, colls))
  }

  /** The collection map w holds, under c's name, the elements c resolves to for owner e. */
  predicate CollectionHeld(schema: Schema, contents: seq<seq<Entity>>, i: nat, c: Property, e: Entity,
                           w: map<string, seq<Entity>>)
    requires i < |contents| == |schema.sets| && c.kind.Collection?
    reads e`values, Members(contents)`values
  {
    var plan := ResolveCollection(schema, schema.sets[i].elementType, c);
    if plan.Err? then false
    else
      MembersContain(contents, plan.value.elementSet);
      var found := CollectionFor(contents[plan.value.elementSet], plan.value, e);
      found.Ok? && c.name in w && w[c.name] == found.value
  }

  /** A step for another collection property keeps the entry for n. */
  lemma CollectionStepKeeps(schema: Schema, contents: seq<seq<Entity>>, i: nat, c: Property, e: Entity,
                            colls: map<string, seq<Entity>>, n: string)
    requires i < |contents| == |schema.sets| && c.kind.Collection? && c.name != n
    ensures var w := CollectionStep(schema, contents, i, c, e, colls);
      (n in w <==> n in colls) && (n in colls ==> w[n] == colls[n])
  {
  }

  /** On an owner of a set where c is mappable, the step for c sets the collection to the matching elements. */
  lemma CollectionStepSets(schema: Schema, contents: seq<seq<Entity>>, i: nat, c: Property, e: Entity,
                           colls: map<string, seq<Entity>>)
    requires i < |contents| == |schema.sets| && c.kind.Collection?
    requires CollectionMappable(schema, contents, i, c)
    requires e in contents[i]
    ensures CollectionHeld(schema, contents, i, c, e, CollectionStep(schema, contents, i, c, e, colls))
  {
  }

  /** A collection property that cs does not name keeps its entry (or its absence). */
  lemma {:induction false} WiredCollectionsUntouched(schema: Schema, contents: seq<seq<Entity>>, i: nat, cs: seq<Property>,
                                                     e: Entity, colls: map<string, seq<Entity>>, n: string)
    requires i < |contents| == |schema.sets|
    requires forall p :: p in cs ==> p.kind.Collection? && p.name != n
    ensures var w := WiredCollections(schema, contents, i, cs, e, colls);
      (n in w <==> n in colls) && (n in colls ==> w[n] == colls[n])
    decreases |cs|
  {
    if cs != [] {
      var last := cs[|cs| - 1];
      assert last in cs;
      assert forall p :: p in cs[..|cs| - 1] ==> p in cs;
      WiredCollectionsUntouched(schema, contents, i, cs[..|cs| - 1], e, colls, n);
      CollectionStepKeeps(schema, contents, i, last, e, WiredCollections(schema, contents, i, cs[..|cs| - 1], e, colls), n);
    }
  }

  /**
   * On a mappable set, the collection property cs[k], when no later property
   * of cs has its name, ends up holding the matching elements of its element
   * set.
   */
  lemma {:induction false} WiredCollectionLast(schema: Schema, contents: seq<seq<Entity>>, i: nat, cs: seq<Property>,
                                               e: Entity, colls: map<string, seq<Entity>>, k: nat)
    requires i < |contents| == |schema.sets|
    requires forall p :: p in cs ==> p.kind.Collection?
    requires CollectionsMappable(schema, contents, i, cs)
    requires e in contents[i]
    requires k < |cs|
    requires forall j :: k < j < |cs| ==> cs[j].name != cs[k].name
    ensures CollectionHeld(schema, contents, i, cs[k], e, WiredCollections(schema, contents, i, cs, e, colls))
    decreases |cs|
  {
    var last := cs[|cs| - 1];
    var prefix := cs[..|cs| - 1];
    var middle := WiredCollections(schema, contents, i, prefix, e, colls);
    assert last in cs;
    if k == |cs| - 1 {
      CollectionStepSets(schema, contents, i, last, e, middle);
    } else {
      assert forall p :: p in prefix ==> p in cs;
      assert forall j :: k < j < |prefix| ==> prefix[j] == cs[j];
      assert prefix[k] == cs[k];
      WiredCollectionLast(schema, contents, i, prefix, e, colls, k);
      CollectionStepKeeps(schema, contents, i, last, e, middle, cs[k].name);
    }
  }

  /** The collection maps of the given owners, as they stand. */
  function CollectionMaps(owners: seq<Entity>): (m: map<Entity, map<string, seq<Entity>>>)
    reads owners`collections
    ensures forall e :: e in owners ==> e in m && m[e] == e.collections
  {
    map e | e in owners :: e.collections
  }

  /** Every owner of set i holds the collection map the properties cs give it from its map in before. */
  predicate CollectionsWired(schema: Schema, contents: seq<seq<Entity>>, i: nat, cs: seq<Property>,
                             before: map<Entity, map<string, seq<Entity>>>)
    requires i < |contents| == |schema.sets|
    requires forall p :: p in cs ==> p.kind.Collection?
    reads contents[i]`collections, Members(contents)`values
  {
    MembersContain(contents, i);
    forall e :: e in contents[i] ==>
      (e in before && e.collections == WiredCollections(schema, contents, i, cs, e, before[e]))
  }

  /** middle holds, for every owner of set i, the collection map the properties cs give it from before. */
  predicate CollectionMapsAfter(schema: Schema, contents: seq<seq<Entity>>, i: nat, cs: seq<Property>,
                                before: map<Entity, map<string, seq<Entity>>>, middle: map<Entity, map<string, seq<Entity>>>)
    requires i < |contents| == |schema.sets|
    requires forall p :: p in cs ==> p.kind.Collection?
    reads Members(contents)`values
  {
    MembersContain(contents, i);
    forall e :: e in contents[i] ==>
      (e in before && e in middle && middle[e] == WiredCollections(schema, contents, i, cs, e, before[e]))
  }

  /** Filling cs and then c is filling cs + [c]. */
  lemma CollectionsWiredStep(schema: Schema, contents: seq<seq<Entity>>, i: nat, cs: seq<Property>, c: Property,
                             before: map<Entity, map<string, seq<Entity>>>, middle: map<Entity, map<string, seq<Entity>>>)
    requires i < |contents| == |schema.sets|
    requires forall p :: p in cs + [c] ==> p.kind.Collection?
    requires CollectionMapsAfter(schema, contents, i, cs, before, middle)
    requires CollectionsWired(schema, contents, i, [c], middle)
    ensures CollectionsWired(schema, contents, i, cs + [c], before)
  {
    MembersContain(contents, i);
    forall e | e in contents[i]
      ensures e.collections == WiredCollections(schema, contents, i, cs + [c], e, before[e])
    {
      var all := cs + [c];
      assert all[..|all| - 1] == cs && all[|all| - 1] == c;
      assert [c][..0] == [];
      assert WiredCollections(schema, contents, i, [c], e, middle[e]) == CollectionStep(schema, contents, i, c, e, middle[e]);
    }
  }

  /** One iteration of the foreach over collections: resolve c, then fill it on every owner of set i. */
  method MapCollection(schema: Schema, contents: seq<seq<Entity>>, i: nat, c: Property) returns (r: Outcome<MapError>)
    requires i < |contents| == |schema.sets| && c.kind.Collection?
    modifies contents[i]`collections
    ensures r.Pass? <==> CollectionMappable(schema, contents, i, c)
    ensures r.Pass? ==> CollectionsWired(schema, contents, i, [c], old(CollectionMaps(contents[i])))
  {
    ghost var before := CollectionMaps(contents[i]);
    var plan := ResolveCollection(schema, schema.sets[i].elementType, c);
    if plan.Err? {
      return Fail(plan.error);
    }
    MembersContain(contents, plan.value.elementSet);
    r := WireCollection(contents[i], contents[plan.value.elementSet], c.name, plan.value);
    if r.Pass? {
      MembersContain(contents, i);
      forall e | e in contents[i]
        ensures e in before && e.collections == WiredCollections(schema, contents, i, [c], e, before[e])
      {
        assert [c][..0] == [];
      }
    }
  }

  /** MapCollection after the collection properties cs have been wired from before: on success cs + [c] have. */
  method ExtendCollections(schema: Schema, contents: seq<seq<Entity>>, i: nat, cs: seq<Property>, c: Property,
                   ghost before: map<Entity, map<string, seq<Entity>>>) returns (r: Outcome<MapError>)
    requires i < |contents| == |schema.sets|
    requires forall p :: p in cs + [c] ==> p.kind.Collection?
    requires CollectionsMappable(schema, contents, i, cs)
    requires CollectionsWired(schema, contents, i, cs, before)
    modifies contents[i]`collections
    ensures r.Fail? ==> !CollectionMappable(schema, contents, i, c)
    ensures r.Pass? ==> CollectionsMappable(schema, contents, i, cs + [c])
    ensures r.Pass? ==> CollectionsWired(schema, contents, i, cs + [c], before)
  {
    ghost var middle := CollectionMaps(contents[i]);
    assert CollectionMapsAfter(schema, contents, i, cs, before, middle);
    label Call:
    r := MapCollection(schema, contents, i, c);
    assert unchanged@Call(Members(contents)`values);
    if r.Pass? {
      CollectionsMappableAppend(schema, contents, i, cs, c);
      CollectionsWiredStep(schema, contents, i, cs, c, before, middle);
    }
  }

  /** The collection pass over set i (the foreach over collections). */
  method MapSetCollections(schema: Schema, contents: seq<seq<Entity>>, i: nat) returns (r: Outcome<MapError>)
    requires i < |contents| == |schema.sets|
    modifies contents[i]`collections
    ensures r.Pass? <==> CollectionsMappable(schema, contents, i, CollectionProperties(OwnerType(schema, i).properties))
    ensures r.Pass? ==>
      CollectionsWired(schema, contents, i, CollectionProperties(OwnerType(schema, i).properties), old(CollectionMaps(contents[i])))
  {
    var cs := CollectionProperties(OwnerType(schema, i).properties);
    ghost var before := CollectionMaps(contents[i]);
    MembersContain(contents, i);
    var j := 0;
    while j < |cs|
      invariant j <= |cs|
      invariant CollectionsMappable(schema, contents, i, cs[..j])
      invariant CollectionsWired(schema, contents, i, cs[..j], before)
    {
      assert cs[..j + 1] == cs[..j] + [cs[j]];
      r := ExtendCollections(schema, contents, i, cs[..j], cs[j], before);
      if r.Fail? {
        assert cs[j] in cs;
        return;
      }
      j := j + 1;
    }
    assert cs[..j] == cs;
    r := Pass;
  }

  // ---------------------------------------------------------------------------
  // One iteration of the foreach over dbSets: both passes over set i

  /** The foreign-key pass and the collection pass over set i both succeed. */
  predicate SetMappable(schema: Schema, contents: seq<seq<Entity>>, i: nat)
    requires i < |contents| == |schema.sets|
    reads Members(contents)`values
  {
    && ReferencesMappable(schema, contents, i, ForeignKeys(OwnerType(schema, i).properties))
    && CollectionsMappable(schema, contents, i, CollectionProperties(OwnerType(schema, i).properties))
  }

  /** The navigation maps of every entity of every set, as they stand. */
  function AllReferenceMaps(contents: seq<seq<Entity>>): (m: map<Entity, map<string, Entity>>)
    reads Members(contents)`references
    ensures forall e :: e in Members(contents) ==> e in m && m[e] == e.references
  {
    map e | e in Members(contents) :: e.references
  }

  /** The collection maps of every entity of every set, as they stand. */
  function AllCollectionMaps(contents: seq<seq<Entity>>): (m: map<Entity, map<string, seq<Entity>>>)
    reads Members(contents)`collections
    ensures forall e :: e in Members(contents) ==> e in m && m[e] == e.collections
  {
    map e | e in Members(contents) :: e.collections
  }

  /** The owners of set i hold what both passes give them from their maps in refs and colls. */
  predicate SetWired(schema: Schema, contents: seq<seq<Entity>>, i: nat,
                     refs: map<Entity, map<string, Entity>>, colls: map<Entity, map<string, seq<Entity>>>)
    requires i < |contents| == |schema.sets|
    reads contents[i]`references, contents[i]`collections, Members(contents)`values
  {
    && ReferencesWired(schema, contents, i, ForeignKeys(OwnerType(schema, i).properties), refs)
    && CollectionsWired(schema, contents, i, CollectionProperties(OwnerType(schema, i).properties), colls)
  }

  /** The entities of set k still hold their navigation maps of refs and colls. */
  predicate SetUntouched(contents: seq<seq<Entity>>, k: nat,
                         refs: map<Entity, map<string, Entity>>, colls: map<Entity, map<string, seq<Entity>>>)
    requires k < |contents|
    reads contents[k]`references, contents[k]`collections
  {
    forall e :: e in contents[k] ==> e in refs && e.references == refs[e] && e in colls && e.collections == colls[e]
  }

  /** ReferencesWired depends on the snapshot only through set i's owners. */
  lemma ReferencesWiredSnapshot(schema: Schema, contents: seq<seq<Entity>>, i: nat, fks: seq<Property>,
                                m: map<Entity, map<string, Entity>>, n: map<Entity, map<string, Entity>>)
    requires i < |contents| == |schema.sets|
    requires forall p :: p in fks ==> p.foreignKey.Some?
    requires forall e :: e in contents[i] ==> e in m && e in n && m[e] == n[e]
    requires ReferencesWired(schema, contents, i, fks, m)
    ensures ReferencesWired(schema, contents, i, fks, n)
  {
  }

  /** CollectionsWired depends on the snapshot only through set i's owners. */
  lemma CollectionsWiredSnapshot(schema: Schema, contents: seq<seq<Entity>>, i: nat, cs: seq<Property>,
                                 m: map<Entity, map<string, seq<Entity>>>, n: map<Entity, map<string, seq<Entity>>>)
    requires i < |contents| == |schema.sets|
    requires forall p :: p in cs ==> p.kind.Collection?
    requires forall e :: e in contents[i] ==> e in m && e in n && m[e] == n[e]
    requires CollectionsWired(schema, contents, i, cs, m)
    ensures CollectionsWired(schema, contents, i, cs, n)
  {
  }

  /**
   * Both passes over set i: the foreign-key pass and then, if it succeeded,
   * the collection pass. Only set i's owners change.
   */
  method MapBothPasses(schema: Schema, contents: seq<seq<Entity>>, i: nat,
                       ghost refs: map<Entity, map<string, Entity>>, ghost colls: map<Entity, map<string, seq<Entity>>>)
    returns (r: Outcome<MapError>)
    requires i < |contents| == |schema.sets|
    requires SetUntouched(contents, i, refs, colls)
    modifies contents[i]`references, contents[i]`collections
    ensures r.Pass? <==> SetMappable(schema, contents, i)
    ensures r.Pass? ==> SetWired(schema, contents, i, refs, colls)
  {
    ghost var startColls := CollectionMaps(contents[i]);
    r := MapSetReferences(schema, contents, i);
    if r.Fail? {
      return;
    }
    ReferencesWiredSnapshot(schema, contents, i, ForeignKeys(OwnerType(schema, i).properties),
      old(ReferenceMaps(contents[i])), refs);
    label Between:
    r := MapSetCollections(schema, contents, i);
    assert unchanged@Between(contents[i]`references) && unchanged@Between(Members(contents)`values);
    if r.Pass? {
      CollectionsWiredSnapshot(schema, contents, i, CollectionProperties(OwnerType(schema, i).properties),
        startColls, colls);
    }
  }

  /**
   * The body of the foreach over dbSets for set i: both passes over set i.
   * Scalar values do not change, so whether each set can be mapped does
   * not change either, and the other sets keep their navigation maps.
   */
  method MapSet(schema: Schema, contents: seq<seq<Entity>>, i: nat,
                ghost refs: map<Entity, map<string, Entity>>, ghost colls: map<Entity, map<string, seq<Entity>>>)
    returns (r: Outcome<MapError>)
    requires i < |contents| == |schema.sets|
    requires Disjoint(contents)
    requires SetUntouched(contents, i, refs, colls)
    modifies contents[i]`references, contents[i]`collections
    ensures r.Pass? <==> SetMappable(schema, contents, i)
    ensures r.Pass? ==> SetWired(schema, contents, i, refs, colls)
    ensures forall j :: 0 <= j < |contents| ==> (SetMappable(schema, contents, j) <==> old(SetMappable(schema, contents, j)))
    ensures (forall j :: 0 <= j < i ==> old(SetMappable(schema, contents, j))) && r.Pass? ==>
      forall j :: 0 <= j < i + 1 ==> SetMappable(schema, contents, j)
    ensures forall j :: 0 <= j < |contents| && j != i && old(SetWired(schema, contents, j, refs, colls)) ==>
      SetWired(schema, contents, j, refs, colls)
    ensures forall k :: 0 <= k < |contents| && k != i && old(SetUntouched(contents, k, refs, colls)) ==>
      SetUntouched(contents, k, refs, colls)
  {
    MembersContain(contents, i);
    r := MapBothPasses(schema, contents, i, refs, colls);
    assert unchanged(Members(contents)`values);
    forall j | 0 <= j < |contents| && j != i
      ensures old(SetWired(schema, contents, j, refs, colls)) ==> SetWired(schema, contents, j, refs, colls)
      ensures old(SetUntouched(contents, j, refs, colls)) ==> SetUntouched(contents, j, refs, colls)
    {
      MembersContain(contents, j);
      forall e: Entity | e in contents[j]
        ensures old(e.references) == e.references && old(e.collections) == e.collections
      {
        assert e !in contents[i];
      }
    }
  }

  /**
   * The foreach over dbSets: both passes over each set in turn; the first
   * failure ends the mapping. It passes exactly when every set can be
   * mapped, and then every set's owners hold what both passes give them
   * from the navigation maps they had before.
   */
  method MapSets(schema: Schema, contents: seq<seq<Entity>>) returns (r: Outcome<MapError>)
    requires |contents| == |schema.sets| && Disjoint(contents)
    modifies Members(contents)`references, Members(contents)`collections
    ensures r.Pass? <==> forall i :: 0 <= i < |contents| ==> SetMappable(schema, contents, i)
    ensures r.Pass? ==> forall i :: 0 <= i < |contents| ==>
      SetWired(schema, contents, i, old(AllReferenceMaps(contents)), old(AllCollectionMaps(contents)))
  {
    ghost var refs := AllReferenceMaps(contents);
    ghost var colls := AllCollectionMaps(contents);
    MembersContainAll(contents);
    var i := 0;
    while i < |contents|
      invariant i <= |contents|
      invariant forall j :: 0 <= j < i ==> SetMappable(schema, contents, j)
      invariant forall j :: 0 <= j < i ==> SetWired(schema, contents, j, refs, colls)
      invariant forall k :: i <= k < |contents| ==> SetUntouched(contents, k, refs, colls)
    {
      MembersContain(contents, i);
      r := MapSet(schema, contents, i, refs, colls);
      if r.Fail? {
        return;
      }
      i := i + 1;
    }
    r := Pass;
  }
}
