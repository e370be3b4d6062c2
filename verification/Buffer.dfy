/** The column-major write buffer (storage/buffer.go). */
module Buffer {
  import opened Wrappers
  import opened Words
  import opened Types

  /** The slices hold exactly the rows, column by column. */
  ghost predicate Columnar(columns: seq<Column>, cols: map<nat, seq<Value>>, rows: seq<Row>) {
    && AllRowsFit(columns, rows)
    && (forall i :: i in cols <==> 0 <= i < |columns| && KnownType(columns[i].ty))
    && (forall i :: i in cols ==> cols[i] == ColumnOf(rows, i))
  }

  lemma ColumnarAppend(columns: seq<Column>, was: map<nat, seq<Value>>, cols: map<nat, seq<Value>>, rows: seq<Row>, row: Row)
    requires Columnar(columns, was, rows) && RowFits(columns, row)
    requires forall j :: j in cols <==> j in was
    requires forall j :: j in was ==> j < |row| && cols[j] == was[j] + [row[j]]
    ensures Columnar(columns, cols, rows + [row])
  {
  }

  lemma ColumnarReset(columns: seq<Column>, was: map<nat, seq<Value>>, cols: map<nat, seq<Value>>, rows: seq<Row>)
    requires Columnar(columns, was, rows)
    requires forall j :: j in cols <==> j in was
    requires forall j :: j in was ==> cols[j] == []
    ensures Columnar(columns, cols, [])
  {
  }

  class WriteBuffer {
    const schema: Schema
    /** The typed column slices, keyed by column position. The source keeps one map for each of
        its three types; a column of no supported type has no slice. */
    var cols: map<nat, seq<Value>>
    var rows: nat
    /** The buffered rows, in order of arrival. */
    ghost var contents: seq<Row>

    /** Each slice is the column of the buffered rows. */
    ghost predicate Valid()
      reads this
    {
      |contents| == rows && Columnar(schema.columns, cols, contents)
    }

    constructor (schema: Schema)
      ensures this.schema == schema && Valid() && contents == []
    {
      this.schema := schema;
      this.cols := map[];
      this.rows := 0;
      this.contents := [];
      new;
      for i := 0 to |schema.columns|
        invariant rows == 0 && contents == []
        invariant forall j :: j in cols <==> 0 <= j < i && KnownType(schema.columns[j].ty)
        invariant forall j :: j in cols ==> cols[j] == []
      {
        if KnownType(schema.columns[i].ty) {
          cols := cols[i := []];
        }
      }
    }

    /** Append checks every value before it stores any, so a bad row changes nothing. */
    method Append(row: Row) returns (ok: bool)
      requires Valid()
      modifies this
      ensures Valid()
      ensures ok == RowFits(schema.columns, row)
      ensures contents == if ok then old(contents) + [row] else old(contents)
      ensures !ok ==> cols == old(cols) && rows == old(rows)
    {
      if |row| != |schema.columns| {
        return false;
      }
      for i := 0 to |schema.columns|
        invariant forall j :: 0 <= j < i ==> HasType(row[j], schema.columns[j].ty)
        invariant contents == old(contents) && cols == old(cols) && rows == old(rows)
      {
        if row[i] == Nil || !HasType(row[i], schema.columns[i].ty) {
          return false;
        }
      }
      hide AllRowsFit, ColumnOf;
      assert forall j :: j in cols ==> j < |row|;
      assert forall j :: 0 <= j < |row| ==> j in cols;
      hide Columnar;
      for i := 0 to |schema.columns|
        invariant rows == old(rows) && contents == old(contents)
        invariant forall j :: j in cols <==> j in old(cols)
        invariant forall j :: j in cols && j < i ==> cols[j] == old(cols)[j] + [row[j]]
        invariant forall j :: j in cols && j >= i ==> cols[j] == old(cols)[j]
      {
        cols := cols[i := cols[i] + [row[i]]];
      }
      rows := rows + 1;
      contents := contents + [row];
      ColumnarAppend(schema.columns, old(cols), cols, old(contents), row);
      return true;
    }

    method Reset()
      requires Valid()
      modifies this
      ensures Valid() && contents == []
    {
      assert forall j :: j in cols ==> j < |schema.columns|;
      hide Columnar;
      for i := 0 to |schema.columns|
        invariant contents == old(contents)
        invariant forall j :: j in cols <==> j in old(cols)
        invariant forall j :: j in cols && j < i ==> cols[j] == []
      {
        if i in cols {
          cols := cols[i := []];
        }
      }
      rows := 0;
      contents := [];
      ColumnarReset(schema.columns, old(cols), cols, old(contents));
    }
  }
}
