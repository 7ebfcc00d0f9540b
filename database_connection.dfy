/**
 * The part of DatabaseConnection that is not I/O: the text of the SELECT
 * that FetchResultSet sends, and how each row the reader returns becomes an
 * entity (MapColumnsToObject). The data reader is a parameter: a function
 * from the query text to the rows it yields, each row a list of column
 * values in which DbNull marks a database NULL.
 */
module DatabaseConnection {
  import opened Wrappers
  import opened Sequences
  import opened Entities
  import opened Metadata

  /** One column value as the data reader returns it. */
  datatype Cell = DbNull | Data(value: Value)

  type Row = seq<Cell>

  datatype CodecError =
    | IndexOutOfRange              // more columns than column names
    | NullReference(column: string) // no property has the column's name

  /** A column name in brackets, as the query text quotes it. */
  function Escape(c: string): string
  {
    "[" + c + "]"
  }

  /** string.Join(", ", columnNames.Select(c => $"[{c}]")). */
  function JoinEscaped(columnNames: seq<string>): string
  {
    if columnNames == [] then ""
    else if |columnNames| == 1 then Escape(columnNames[0])
    else Escape(columnNames[0]) + ", " + JoinEscaped(columnNames[1..])
  }

  /** The query text of FetchResultSet. */
  function SelectText(tableName: string, columnNames: seq<string>): string
  {
    "SELECT " + JoinEscaped(columnNames) + " FROM " + tableName
  }

  predicate IsClose(ch: char) { ch == ']' }

  /**
   * Reads a list of bracketed names separated by ", " from the front of s;
   * yields the names and what follows the last ']'.
   */
  function ParseColumns(s: string): Option<(seq<string>, string)>
    decreases |s|
  {
    if |s| == 0 || s[0] != '[' then None
    else match FindIndex(s[1..], IsClose)
      case None => None
      case Some(k) =>
        var name := s[1..k + 1];
        var rest := s[k + 2..];
        if |rest| >= 2 && rest[..2] == ", " then
          match ParseColumns(rest[2..])
          case None => None
          case Some(p) => Some(([name] + p.0, p.1))
        else Some(([name], rest))
  }

  /** Reads a query text back into its column names and table name. */
  function ParseSelect(q: string): Option<(seq<string>, string)>
  {
    if |q| < 7 || q[..7] != "SELECT " then None
    else
      var body := q[7..];
      if |body| >= 6 && body[..6] == " FROM " then Some(([], body[6..]))
      else match ParseColumns(body)
        case None => None
        case Some(p) =>
          if |p.1| >= 6 && p.1[..6] == " FROM " then Some((p.0, p.1[6..])) else None
  }

  /** The first ']' of c + "]" + rest is the one after c, when c has none. */
  lemma CloseAfterName(c: string, rest: string)
    requires ']' !in c
    ensures FindIndex(c + "]" + rest, IsClose) == Some(|c|)
  {
    var s := c + "]" + rest;
    assert IsClose(s[|c|]);
    assert forall j :: 0 <= j < |c| ==> s[j] == c[j] && !IsClose(s[j]);
  }

  /** One step of ParseColumns: a bracketed name, then either ", " and more names, or the rest. */
  lemma ParseColumnsStep(c: string, more: string)
    requires ']' !in c
    ensures var s := "[" + c + "]" + more;
      ParseColumns(s) ==
        if |more| >= 2 && more[..2] == ", " then
          match ParseColumns(more[2..])
          case None => None
          case Some(p) => Some(([c] + p.0, p.1))
        else Some(([c], more))
  {
    var s := "[" + c + "]" + more;
    assert s[1..] == c + "]" + more;
    CloseAfterName(c, more);
    assert s[1..|c| + 1] == c;
    assert s[|c| + 2..] == more;
  }

  lemma {:induction false} JoinEscapedUnfold(columnNames: seq<string>, tail: string)
    requires columnNames != []
    ensures JoinEscaped(columnNames) + tail ==
      "[" + columnNames[0] + "]" + (if |columnNames| == 1 then tail else ", " + (JoinEscaped(columnNames[1..]) + tail))
  {
    var head := "[" + columnNames[0] + "]";
    assert Escape(columnNames[0]) == head;
    if |columnNames| > 1 {
      var rest := JoinEscaped(columnNames[1..]);
      assert JoinEscaped(columnNames) == head + ", " + rest;
      assert head + ", " + rest + tail == head + (", " + (rest + tail));
    }
  }

  lemma {:induction false} ParseColumnsJoin(columnNames: seq<string>, tail: string)
    requires columnNames != []
    requires forall c :: c in columnNames ==> ']' !in c
    requires !(|tail| >= 2 && tail[..2] == ", ")
    ensures ParseColumns(JoinEscaped(columnNames) + tail) == Some((columnNames, tail))
    decreases |columnNames|
  {
    var c := columnNames[0];
    assert c in columnNames;
    JoinEscapedUnfold(columnNames, tail);
    if |columnNames| == 1 {
      ParseColumnsStep(c, tail);
      assert [c] == columnNames;
    } else {
      var next := JoinEscaped(columnNames[1..]) + tail;
      ParseColumnsStep(c, ", " + next);
      assert (", " + next)[..2] == ", " && (", " + next)[2..] == next;
      ParseColumnsJoin(columnNames[1..], tail);
      assert [c] + columnNames[1..] == columnNames;
    }
  }

  /** How ParseSelect reads "SELECT " followed by a body. */
  lemma ParseSelectOf(body: string)
    ensures ParseSelect("SELECT " + body) ==
      if |body| >= 6 && body[..6] == " FROM " then Some(([], body[6..]))
      else match ParseColumns(body)
        case None => None
        case Some(p) =>
          if |p.1| >= 6 && p.1[..6] == " FROM " then Some((p.0, p.1[6..])) else None
  {
    var q := "SELECT " + body;
    assert q[..7] == "SELECT " && q[7..] == body;
  }

  lemma SelectTextShape(tableName: string, columnNames: seq<string>)
    ensures SelectText(tableName, columnNames) == "SELECT " + (JoinEscaped(columnNames) + (" FROM " + tableName))
    ensures (" FROM " + tableName)[..6] == " FROM " && (" FROM " + tableName)[6..] == tableName
  {
  }

  lemma {:induction false} ParseBodyWithColumns(tableName: string, columnNames: seq<string>)
    requires columnNames != []
    requires forall c :: c in columnNames ==> ']' !in c
    ensures var body := JoinEscaped(columnNames) + (" FROM " + tableName);
      !(|body| >= 6 && body[..6] == " FROM ") && ParseColumns(body) == Some((columnNames, " FROM " + tableName))
  {
    var tail := " FROM " + tableName;
    assert tail[1] == 'F';
    ParseColumnsJoin(columnNames, tail);
    JoinEscapedUnfold(columnNames, tail);
  }

  /**
   * The query text is unambiguous: it lists exactly the given columns, in
   * order, and the table name, provided no column name contains ']'.
   */
  lemma {:induction false} SelectTextRoundTrip(tableName: string, columnNames: seq<string>)
    requires forall c :: c in columnNames ==> ']' !in c
    ensures ParseSelect(SelectText(tableName, columnNames)) == Some((columnNames, tableName))
  {
    SelectTextShape(tableName, columnNames);
    ParseSelectOf(JoinEscaped(columnNames) + (" FROM " + tableName));
    if columnNames != [] {
      ParseBodyWithColumns(tableName, columnNames);
    }
  }

  /**
   * Column i of a row can be stored: there is a column name for it (else
   * columnNames[i] throws IndexOutOfRangeException) and the type declares a
   * property of that name (else GetProperty gives null and SetValue throws
   * NullReferenceException).
   */
  predicate Assignable(t: EntityType, columnNames: seq<string>, i: nat)
  {
    i < |columnNames| && FindProperty(t.properties, columnNames[i]).Some?
  }

  /** Each of the first n columns of a row can be stored. */
  predicate AllAssignable(t: EntityType, columnNames: seq<string>, n: nat)
  {
    n <= |columnNames| && forall i :: 0 <= i < n ==> Assignable(t, columnNames, i)
  }

  /** Column i is the first that cannot be stored. */
  predicate FailsAt(t: EntityType, columnNames: seq<string>, row: Row, i: nat)
  {
    i < |row| && !Assignable(t, columnNames, i) && forall j :: 0 <= j < i ==> Assignable(t, columnNames, j)
  }

  /**
   * Row k is the first row read that cannot be stored, and column i is its
   * first column that cannot be.
   */
  predicate RowFailsAt(t: EntityType, columnNames: seq<string>, rows: seq<Row>, k: nat, i: nat)
  {
    && k < |rows|
    && (forall j :: 0 <= j < k ==> AllAssignable(t, columnNames, |rows[j]|))
    && FailsAt(t, columnNames, rows[k], i)
  }

  /** The exception of a column that cannot be stored. */
  function ColumnError(columnNames: seq<string>, i: nat): CodecError
  {
    if i < |columnNames| then NullReference(columnNames[i]) else IndexOutOfRange
  }

  /**
   * What SetValue stores in a property of kind k: DbNull becomes null, which
   * a value-type property stores as its default; every other value is kept.
   */
  function Decode(k: Kind, c: Cell): Value
  {
    match c
    case DbNull => DefaultValue(k)
    case Data(v) => v
  }

  /** The kind of the property column i is stored in. */
  function ColumnKind(t: EntityType, columnNames: seq<string>, i: nat): Kind
    requires Assignable(t, columnNames, i)
  {
    FindProperty(t.properties, columnNames[i]).value.kind
  }

  /**
   * The scalar properties of an object built from a row: column i assigned
   * to the property named columnNames[i], left to right (a later column with
   * the same name overwrites an earlier one).
   */
  function ObjectValues(t: EntityType, columnNames: seq<string>, row: Row): map<string, Value>
    requires AllAssignable(t, columnNames, |row|)
  {
    if row == [] then map[]
    else
      var n := |row| - 1;
      ObjectValues(t, columnNames, row[..n])[columnNames[n] := Decode(ColumnKind(t, columnNames, n), row[n])]
  }

  /** Exactly the first |row| column names are assigned. */
  lemma {:induction false} ObjectValuesKeys(t: EntityType, columnNames: seq<string>, row: Row)
    requires AllAssignable(t, columnNames, |row|)
    ensures forall name :: name in ObjectValues(t, columnNames, row) <==> name in columnNames[..|row|]
  {
    if row != [] {
      var n := |row| - 1;
      ObjectValuesKeys(t, columnNames, row[..n]);
      assert row[..n][..n] == row[..n];
      assert columnNames[..|row|] == columnNames[..n] + [columnNames[n]];
    }
  }

  /**
   * The property named columnNames[i] holds column i, unless a later column
   * of the row has the same name: the value itself, or for DbNull the
   * default of the property's type (Null only for a nullable type).
   */
  lemma {:induction false} ObjectValuesAt(t: EntityType, columnNames: seq<string>, row: Row, i: nat)
    requires AllAssignable(t, columnNames, |row|) && i < |row|
    requires forall j :: i < j < |row| ==> columnNames[j] != columnNames[i]
    ensures columnNames[i] in ObjectValues(t, columnNames, row)
    ensures row[i].Data? ==> ObjectValues(t, columnNames, row)[columnNames[i]] == row[i].value
    ensures row[i] == DbNull ==>
      ObjectValues(t, columnNames, row)[columnNames[i]] == DefaultValue(ColumnKind(t, columnNames, i))
  {
    var n := |row| - 1;
    if i < n {
      assert row[..n][i] == row[i];
      ObjectValuesAt(t, columnNames, row[..n], i);
    }
  }

  /**
   * MapColumnsToObject: a new instance of t with column i assigned to the
   * property columnNames[i]. It fails at the first column that cannot be
   * stored.
   */
  method MapColumnsToObject(t: EntityType, columnNames: seq<string>, columns: Row)
    returns (r: Result<Entity, CodecError>)
    ensures r.Ok? <==> AllAssignable(t, columnNames, |columns|)
    ensures r.Err? ==> exists i :: FailsAt(t, columnNames, columns, i) && r.error == ColumnError(columnNames, i)
    ensures r.Ok? ==> fresh(r.value) && r.value.typeName == t.name && r.value.properties == t.properties
    ensures r.Ok? ==> r.value.values == ObjectValues(t, columnNames, columns)
    ensures r.Ok? ==> r.value.references == map[] && r.value.collections == map[]
  {
    var obj := new Entity(t);
    var i := 0;
    while i < |columns|
      invariant i <= |columns| && AllAssignable(t, columnNames, i)
      invariant fresh(obj) && obj.typeName == t.name && obj.properties == t.properties
      invariant obj.values == ObjectValues(t, columnNames, columns[..i])
      invariant obj.references == map[] && obj.collections == map[]
    {
      if i >= |columnNames| {
        assert FailsAt(t, columnNames, columns, i);
        return Err(IndexOutOfRange);
      }
      var columnName := columnNames[i];
      var property := FindProperty(t.properties, columnName);
      if property.None? {
        assert FailsAt(t, columnNames, columns, i);
        return Err(NullReference(columnName));
      }
      var columnValue := columns[i];
      var value := if columnValue.DbNull? then DefaultValue(property.value.kind) else columnValue.value;
      obj.values := obj.values[columnName := value];
      assert columns[..i + 1][..i] == columns[..i];
      i := i + 1;
    }
    assert columns[..i] == columns;
    r := Ok(obj);
  }

  /**
   * FetchResultSet: sends the SELECT for the given columns and builds one new
   * entity of type t per row read, in read order. `read` is the data reader.
   */
  method FetchResultSet(t: EntityType, tableName: string, columnNames: seq<string>, read: string -> seq<Row>)
    returns (r: Result<seq<Entity>, CodecError>)
    ensures var rows := read(SelectText(tableName, columnNames));
      r.Ok? <==> forall k :: 0 <= k < |rows| ==> AllAssignable(t, columnNames, |rows[k]|)
    ensures var rows := read(SelectText(tableName, columnNames));
      r.Ok? ==> (|r.value| == |rows| &&
        forall k :: 0 <= k < |rows| ==>
          fresh(r.value[k]) && r.value[k].typeName == t.name && r.value[k].properties == t.properties &&
          AllAssignable(t, columnNames, |rows[k]|) && r.value[k].values == ObjectValues(t, columnNames, rows[k]) &&
          r.value[k].references == map[] && r.value[k].collections == map[])
    ensures r.Ok? ==> forall k, l :: 0 <= k < l < |r.value| ==> r.value[k] != r.value[l]
    ensures var rows := read(SelectText(tableName, columnNames));
      r.Err? ==> exists k, i :: RowFailsAt(t, columnNames, rows, k, i) && r.error == ColumnError(columnNames, i)
  {
    var queryText := SelectText(tableName, columnNames);
    var reader := read(queryText);
    var rows: seq<Entity> := [];
    while |rows| < |reader|
      invariant |rows| <= |reader|
      invariant forall k :: 0 <= k < |rows| ==> AllAssignable(t, columnNames, |reader[k]|)
      invariant forall k :: 0 <= k < |rows| ==>
        fresh(rows[k]) && rows[k].typeName == t.name && rows[k].properties == t.properties &&
        rows[k].values == ObjectValues(t, columnNames, reader[k]) &&
        rows[k].references == map[] && rows[k].collections == map[]
      invariant forall k, l :: 0 <= k < l < |rows| ==> rows[k] != rows[l]
    {
      var obj := MapColumnsToObject(t, columnNames, reader[|rows|]);
      if obj.Err? {
        var i :| FailsAt(t, columnNames, reader[|rows|], i) && obj.error == ColumnError(columnNames, i);
        assert RowFailsAt(t, columnNames, reader, |rows|, i);
        return Err(obj.error);
      }
      rows := rows + [obj.value];
    }
    r := Ok(rows);
  }
}
