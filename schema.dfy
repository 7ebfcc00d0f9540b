/**
 * The schema descriptor of DbContext: the table an entity type maps to, the
 * DbSet property that declares a type, and the columns of a type.
 */
module SchemaDescriptor {
  import opened Wrappers
  import opened Sequences
  import opened Metadata

  /** DbContext.AllowedSqlTypes: the eight property types that can be columns. */
  const AllowedSqlTypes: seq<Kind> :=
    [StringType, IntType, UIntType, LongType, ULongType, DecimalType, BoolType, DateTimeType]

  datatype SchemaError = NoDbSetFor(typeName: string)

  predicate DeclaresType(typeName: string, d: SetDecl) { d.elementType == typeName }

  /**
   * GetDbSet: the index of the first DbSet property whose element type is the
   * given type; None where the source's First would throw.
   */
  function GetDbSet(sets: seq<SetDecl>, typeName: string): (r: Option<nat>)
    ensures r.Some? ==> r.value < |sets| && sets[r.value].elementType == typeName
    ensures r.Some? ==> forall j :: 0 <= j < r.value ==> sets[j].elementType != typeName
    ensures r.None? <==> forall j :: 0 <= j < |sets| ==> sets[j].elementType != typeName
  {
    FindIndex(sets, d => DeclaresType(typeName, d))
  }

  /** GetTableName: the [Table] name if present, else the name of the declaring DbSet property. */
  function GetTableName(sets: seq<SetDecl>, t: EntityType): (r: Result<string, SchemaError>)
    ensures t.table.Some? ==> r == Ok(t.table.value)
    ensures t.table.None? ==> (r.Ok? <==> exists j :: 0 <= j < |sets| && sets[j].elementType == t.name)
    ensures t.table.None? && r.Ok? ==>
      exists j :: 0 <= j < |sets| && sets[j].elementType == t.name && sets[j].name == r.value &&
        forall k :: 0 <= k < j ==> sets[k].elementType != t.name
    ensures r.Err? ==> r.error == NoDbSetFor(t.name)
  {
    if t.table.Some? then Ok(t.table.value)
    else match GetDbSet(sets, t.name)
      case None => Err(NoDbSetFor(t.name))
      case Some(j) => Ok(sets[j].name)
  }

  /** The three-way filter of GetEntityColumnNames. */
  predicate IsColumn(dbColumns: seq<string>, p: Property)
  {
    p.name in dbColumns && !p.notMapped && p.kind in AllowedSqlTypes
  }

  function Names(props: seq<Property>): (r: seq<string>)
    ensures |r| == |props| && forall i :: 0 <= i < |r| ==> r[i] == props[i].name
  {
    if props == [] then [] else [props[0].name] + Names(props[1..])
  }

  /**
   * The column names of a type whose store table has the columns `dbColumns`:
   * the names of the properties that pass the filter, in declaration order.
   */
  function ColumnNames(dbColumns: seq<string>, props: seq<Property>): (r: seq<string>)
    ensures forall c :: c in r <==> exists p :: p in props && IsColumn(dbColumns, p) && p.name == c
    ensures IsSubsequence(r, Names(props))
    ensures forall c :: c in r ==> c in dbColumns
  {
    if props == [] then []
    else
      var rest := ColumnNames(dbColumns, props[1..]);
      assert Names(props)[1..] == Names(props[1..]);
      assert forall p :: p in props <==> p == props[0] || p in props[1..];
      if IsColumn(dbColumns, props[0]) then [props[0].name] + rest else rest
  }

  /**
   * GetEntityColumnNames: resolves the table name, asks the store for its
   * column names (`fetchColumnNames`, the store's FetchColumnNames) and
   * filters the type's properties against them.
   */
  function GetEntityColumnNames(sets: seq<SetDecl>, t: EntityType, fetchColumnNames: string -> seq<string>)
    : (r: Result<seq<string>, SchemaError>)
    ensures r.Err? <==> GetTableName(sets, t).Err?
    ensures r.Ok? ==> forall c :: c in r.value <==>
      exists p :: p in t.properties && p.name == c && !p.notMapped && p.kind in AllowedSqlTypes &&
        c in fetchColumnNames(GetTableName(sets, t).value)
  {
    match GetTableName(sets, t)
    case Err(e) => Err(e)
    case Ok(tableName) => Ok(ColumnNames(fetchColumnNames(tableName), t.properties))
  }
}
