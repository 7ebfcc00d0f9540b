/**
 * The attribute metadata the source reads through reflection, as explicit
 * records: for every entity type its optional [Table] name and its properties
 * in declaration order, each with its type, its [Key] flag, its optional
 * [ForeignKey] navigation name and its [NotMapped] flag; and, for the
 * context, its DbSet<T> properties in declaration order.
 */
module Metadata {
  import opened Wrappers
  import opened Sequences

  /** The declared type of a property. */
  datatype Kind =
    | StringType | IntType | UIntType | LongType | ULongType
    | DecimalType | BoolType | DateTimeType
    | Reference(target: string)        // a property typed as another entity type
    | Collection(element: string)      // an ICollection<element> property
    | OtherType(name: string)          // any other type, e.g. int? or double

  datatype Property = Property(
    name: string,
    kind: Kind,
    isKey: bool,                       // carries [Key]
    foreignKey: Option<string>,        // [ForeignKey(name)]: the navigation property it backs
    notMapped: bool)                   // carries [NotMapped]

  datatype EntityType = EntityType(
    name: string,
    table: Option<string>,             // [Table(name)], if present
    properties: seq<Property>)

  /** A DbSet<elementType> property of the context, named `name`. */
  datatype SetDecl = SetDecl(name: string, elementType: string)

  datatype Schema = Schema(
    types: map<string, EntityType>,
    sets: seq<SetDecl>)                // the context's DbSet properties in declaration order

  /** The metadata of a type; a type the schema does not describe has no properties. */
  function TypeOf(schema: Schema, name: string): EntityType
  {
    if name in schema.types then schema.types[name] else EntityType(name, None, [])
  }

  predicate IsKey(p: Property) { p.isKey }

  predicate IsForeignKey(p: Property) { p.foreignKey.Some? }

  predicate IsCollection(p: Property) { p.kind.Collection? }

  /** The [Key] properties, in declaration order. */
  function Keys(props: seq<Property>): seq<Property>
  {
    Filter(props, IsKey)
  }

  /** Type.GetProperty(name): the property with that name, if any. */
  function FindProperty(props: seq<Property>, name: string): (r: Option<Property>)
    ensures r.Some? ==> r.value in props && r.value.name == name
    ensures r.None? ==> forall p :: p in props ==> p.name != name
  {
    if props == [] then None
    else if props[0].name == name then Some(props[0])
    else FindProperty(props[1..], name)
  }

  /** GetProperty finds the first property, in declaration order, with that name. */
  lemma {:induction false} FindPropertyIsFirst(props: seq<Property>, j: nat)
    requires j < |props|
    requires forall k :: 0 <= k < j ==> props[k].name != props[j].name
    ensures FindProperty(props, props[j].name) == Some(props[j])
  {
    if j > 0 {
      assert props[1..][j - 1] == props[j];
      FindPropertyIsFirst(props[1..], j - 1);
    }
  }

  /** GetProperties().First(HasAttribute<KeyAttribute>), or None where First would throw. */
  function FirstKey(props: seq<Property>): (r: Option<Property>)
    ensures r.Some? ==> r.value in props && r.value.isKey
    ensures r.None? <==> Keys(props) == []
  {
    var ks := Keys(props);
    assert ks != [] ==> ks[0] in ks;
    if ks == [] then None else Some(ks[0])
  }

  /** The first key is the first property, in declaration order, that carries [Key]. */
  lemma {:induction false} FirstKeyIsFirst(props: seq<Property>, j: nat)
    requires j < |props| && props[j].isKey
    requires forall k :: 0 <= k < j ==> !props[k].isKey
    ensures FirstKey(props) == Some(props[j])
  {
    if j > 0 {
      assert !props[0].isKey;
      FirstKeyIsFirst(props[1..], j - 1);
    }
  }
}
