/** Column types, values and schemas (storage/types.go). */
module Types {
  import opened Wrappers
  import opened Words

  /** OtherType is any tag that is not one of the three supported types: ColumnType is an
      unchecked byte and a schema may carry one. */
  datatype ColumnType = Int64 | Float64 | String | OtherType(tag: byte)

  /** A Go `any`. Floats are their 64-bit patterns; Uint is the count of a COUNT(*) cell, and
      together with Nil it also stands for any value a column cannot hold. */
  datatype Value =
    | Int(i: int64)
    | Float(bits: u64)
    | Str(s: Bytes)
    | Uint(u: u64)
    | Nil

  type Row = seq<Value>

  datatype Column = Column(name: Bytes, ty: ColumnType)

  datatype Schema = Schema(pk: Bytes, columns: seq<Column>)

  datatype SchemaError = NoColumns | DuplicateColumn | PKNotFound

  predicate HasType(v: Value, t: ColumnType) {
    match t
    case Int64 => v.Int?
    case Float64 => v.Float?
    case String => v.Str?
    case OtherType(_) => false
  }

  predicate AllOfType(vs: seq<Value>, t: ColumnType) {
    forall i :: 0 <= i < |vs| ==> HasType(vs[i], t)
  }

  /** Every int64, every pattern and every byte string is a value of its type, and of no other. */
  lemma TypesExactly(v: Value, t: ColumnType)
    ensures HasType(v, t) <==> (t == Int64 && exists i: int64 :: v == Int(i))
                               || (t == Float64 && exists b: u64 :: v == Float(b))
                               || (t == String && exists s: Bytes :: v == Str(s))
  {
    if HasType(v, t) {
      match v
      case Int(i) => assert v == Int(i);
      case Float(b) => assert v == Float(b);
      case Str(s) => assert v == Str(s);
    }
  }

  // ---- Schema.Validate ----

  ghost predicate HasDuplicate(columns: seq<Column>) {
    exists i, j :: 0 <= i < j < |columns| && columns[i].name == columns[j].name
  }

  ghost predicate Names(columns: seq<Column>, name: Bytes) {
    exists i :: 0 <= i < |columns| && columns[i].name == name
  }

  ghost predicate ValidSchema(s: Schema) {
    s.columns != [] && !HasDuplicate(s.columns) && Names(s.columns, s.pk)
  }

  method Validate(s: Schema) returns (err: Option<SchemaError>)
    ensures err == None <==> ValidSchema(s)
    ensures err == Some(NoColumns) <==> s.columns == []
    ensures err == Some(DuplicateColumn) <==> HasDuplicate(s.columns)
    ensures err == Some(PKNotFound) <==>
      s.columns != [] && !HasDuplicate(s.columns) && !Names(s.columns, s.pk)
  {
    if |s.columns| == 0 {
      return Some(NoColumns);
    }
    var seen: set<Bytes> := {};
    for i := 0 to |s.columns|
      invariant forall n :: n in seen <==> exists a :: 0 <= a < i && s.columns[a].name == n
      invariant forall a, b :: 0 <= a < b < i ==> s.columns[a].name != s.columns[b].name
    {
      var c := s.columns[i];
      if c.name in seen {
        return Some(DuplicateColumn);
      }
      seen := seen + {c.name};
    }
    if s.pk !in seen {
      return Some(PKNotFound);
    }
    return None;
  }

  // ---- Lookups ----

  /** The position of the first column called name, as Schema.ColumnIndex scans for it. */
  function ColumnIndex(columns: seq<Column>, name: Bytes): (r: Option<nat>)
    ensures r.Some? <==> Names(columns, name)
    ensures r.Some? ==> r.value < |columns| && columns[r.value].name == name
    ensures r.Some? ==> forall j :: 0 <= j < r.value ==> columns[j].name != name
  {
    if columns == [] then None
    else if columns[0].name == name then Some(0)
    else
      match ColumnIndex(columns[1..], name)
      case None =>
        assert forall i :: 0 < i < |columns| ==> columns[i] == columns[1..][i - 1];
        None
      case Some(k) =>
        assert columns[k + 1] == columns[1..][k];
        assert forall j :: 0 < j < k + 1 ==> columns[j] == columns[1..][j - 1];
        Some(k + 1)
  }

  /** The first column of a name. */
  ghost predicate FirstNamed(columns: seq<Column>, name: Bytes, i: nat) {
    i < |columns| && columns[i].name == name && forall j :: 0 <= j < i ==> columns[j].name != name
  }

  lemma ColumnIndexExactly(columns: seq<Column>, name: Bytes, i: nat)
    ensures ColumnIndex(columns, name) == Some(i) <==> FirstNamed(columns, name, i)
  {
  }

  /** Without duplicate names a column is found at its own position. */
  lemma ColumnIndexUnique(columns: seq<Column>, i: nat)
    requires i < |columns| && !HasDuplicate(columns)
    ensures ColumnIndex(columns, columns[i].name) == Some(i)
  {
  }

  function PKIndex(s: Schema): (i: nat)
    requires ValidSchema(s)
    ensures i < |s.columns| && s.columns[i].name == s.pk
  {
    ColumnIndex(s.columns, s.pk).value
  }

  predicate KnownType(t: ColumnType) {
    !t.OtherType?
  }

  predicate AllKnown(columns: seq<Column>) {
    forall i :: 0 <= i < |columns| ==> KnownType(columns[i].ty)
  }

  /** A row the write buffer takes: one value of the right type for every column. */
  predicate RowFits(columns: seq<Column>, row: Row) {
    |row| == |columns| && forall i :: 0 <= i < |columns| ==> HasType(row[i], columns[i].ty)
  }

  ghost predicate AllRowsFit(columns: seq<Column>, rows: seq<Row>) {
    forall r :: 0 <= r < |rows| ==> RowFits(columns, rows[r])
  }

  /** Column i of a list of rows: the column-major view of the same data. */
  function ColumnOf(rows: seq<Row>, i: nat): (vs: seq<Value>)
    requires forall r :: 0 <= r < |rows| ==> i < |rows[r]|
    ensures |vs| == |rows|
    ensures forall r :: 0 <= r < |rows| ==> vs[r] == rows[r][i]
  {
    seq(|rows|, r requires 0 <= r < |rows| => rows[r][i])
  }
}
