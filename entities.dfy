/**
 * Entity instances. The source's entities are plain CLR objects whose
 * properties are read and written through reflection; here an entity is an
 * object with three explicit maps: its scalar property values, its scalar
 * navigation properties (a reference to another entity) and its collection
 * navigation properties. Identity is object identity, as in the source.
 */
module Entities {
  import opened Wrappers
  import opened Metadata

  type Int32 = x: int | -0x8000_0000 <= x < 0x8000_0000
  type UInt32 = x: int | 0 <= x < 0x1_0000_0000
  type Int64 = x: int | -0x8000_0000_0000_0000 <= x < 0x8000_0000_0000_0000
  type UInt64 = x: int | 0 <= x < 0x1_0000_0000_0000_0000

  /**
   * A property value of one of the eight scalar types the ORM maps, or Null
   * (a null reference). Decimal and DateTime values are opaque tokens that
   * are only ever compared for equality; token 0 stands for 0m and for
   * DateTime.MinValue. Equality of two values is the boxed Object.Equals of
   * the source: values of different types are never equal.
   */
  datatype Value =
    | Null
    | Str(s: string)
    | Int(i: Int32)
    | UInt(u: UInt32)
    | Long(l: Int64)
    | ULong(ul: UInt64)
    | Decimal(d: nat)
    | Bool(b: bool)
    | DateTime(t: nat)

  /** A value a property of kind k can hold: Null only where k is not a value type. */
  predicate HasKind(v: Value, k: Kind)
  {
    match v
    case Null => k.StringType? || k.Reference? || k.Collection? || k.OtherType?
    case Str(_) => k.StringType?
    case Int(_) => k.IntType?
    case UInt(_) => k.UIntType?
    case Long(_) => k.LongType?
    case ULong(_) => k.ULongType?
    case Decimal(_) => k.DecimalType?
    case Bool(_) => k.BoolType?
    case DateTime(_) => k.DateTimeType?
  }

  /** The seven mapped types that are value types and so cannot hold null. */
  predicate IsValueType(k: Kind)
  {
    k.IntType? || k.UIntType? || k.LongType? || k.ULongType? || k.DecimalType? || k.BoolType? || k.DateTimeType?
  }

  /**
   * default(T) for a property of kind k: zero, false or the minimal date for
   * the seven value types the ORM maps, and null for string, entity and
   * collection types. Other types are taken to be nullable.
   */
  function DefaultValue(k: Kind): (r: Value)
    ensures HasKind(r, k)
    ensures r == Null <==> !IsValueType(k)
  {
    match k
    case IntType => Int(0)
    case UIntType => UInt(0)
    case LongType => Long(0)
    case ULongType => ULong(0)
    case DecimalType => Decimal(0)
    case BoolType => Bool(false)
    case DateTimeType => DateTime(0)
    case _ => Null
  }

  class Entity {
    /** The entity type this object is an instance of. */
    const typeName: string
    /** The properties of that type, in declaration order. */
    const properties: seq<Property>
    /** Scalar properties that have been assigned. */
    var values: map<string, Value>
    /** Scalar navigation properties that have been assigned. */
    var references: map<string, Entity>
    /** Collection navigation properties that have been assigned. */
    var collections: map<string, seq<Entity>>

    /**
     * Activator.CreateInstance: a new instance of type t on which no
     * property has been assigned, so each reads as its type's default
     * (UnassignedIsDefault).
     */
    constructor (t: EntityType)
      ensures typeName == t.name && properties == t.properties
      ensures values == map[] && references == map[] && collections == map[]
    {
      typeName := t.name;
      properties := t.properties;
      values := map[];
      references := map[];
      collections := map[];
    }

    /**
     * Reads a scalar property: its assigned value, or else the default of
     * its declared type (Null for a name the type does not declare).
     */
    function Get(name: string): Value
      reads this`values
    {
      if name in values then values[name]
      else match FindProperty(properties, name)
        case Some(p) => DefaultValue(p.kind)
        case None => Null
    }
  }

  /**
   * A declared property that has not been assigned reads as the default of
   * its type: zero or false for a value type, null otherwise.
   */
  lemma UnassignedIsDefault(e: Entity, i: nat)
    requires i < |e.properties| && e.properties[i].name !in e.values
    requires forall j :: 0 <= j < i ==> e.properties[j].name != e.properties[i].name
    ensures e.Get(e.properties[i].name) == DefaultValue(e.properties[i].kind)
    ensures e.Get(e.properties[i].name) == Null <==> !IsValueType(e.properties[i].kind)
  {
    FindPropertyIsFirst(e.properties, i);
  }
}
