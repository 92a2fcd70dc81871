// Table and column schemas.

module Catalog {
  import opened Common

  datatype DataType = INT64 | BOOL | STRING

  datatype ColumnSchema = ColumnSchema(name: string, kind: DataType, maxLength: nat)

  /** The first column of that name. */
  function FirstColumn(columns: seq<ColumnSchema>, name: string): (r: Option<ColumnSchema>)
    ensures r.None? <==> forall i :: 0 <= i < |columns| ==> columns[i].name != name
    ensures r.Some? ==> r.value in columns && r.value.name == name
  {
    if columns == [] then None
    else if columns[0].name == name then Some(columns[0])
    else FirstColumn(columns[1..], name)
  }

  lemma {:induction false} FirstColumnAt(columns: seq<ColumnSchema>, name: string, k: nat)
    requires k < |columns| && columns[k].name == name
    requires forall j :: 0 <= j < k ==> columns[j].name != name
    ensures FirstColumn(columns, name) == Some(columns[k])
  {
    if k > 0 {
      FirstColumnAt(columns[1..], name, k - 1);
    }
  }

  datatype TableSchema = TableSchema(tableId: string, columns: seq<ColumnSchema>) {
    predicate HasColumn(name: string) {
      FirstColumn(columns, name).Some?
    }

    function Column(name: string): ColumnSchema
      requires HasColumn(name)
    {
      FirstColumn(columns, name).value
    }
  }

  type TableMap = map<string, TableSchema>
}
