/** Loading the enriched records into a table (import_json_to_duckdb.py).

    The script collects the union of the records' keys as the column list,
    gives every column a type by one scan over the rows in order, and issues
    one INSERT per record whose values follow the same column order. The
    store itself is left out: the model produces the column list with types
    and the value lists the INSERT statements carry. `json.dumps` is the
    parameter `dumps`. */
module ImportTable {
  import opened Seqs
  import opened JsonValues

  /** The column types the script writes into CREATE TABLE. */
  datatype ColType = VARCHAR | INTEGER | DOUBLE

  datatype Column = Column(name: string, colType: ColType)

  /** What the script sends to the store: the CREATE TABLE columns and, in
      order, the value list of each INSERT. */
  datatype Table = Table(columns: seq<Column>, inserts: seq<seq<Json>>)

  // ---------------------------------------------------------------------
  // Columns

  /** Every key of every row. */
  ghost function KeysOf(rows: seq<Record>): set<string> {
    set r, k | r in rows && k in r :: k
  }

  /** `all_keys.update(row.keys())` over the rows, then `list(all_keys)`. */
  method CollectColumns(data: seq<Record>) returns (allKeys: seq<string>)
    ensures Distinct(allKeys)
    ensures forall k :: k in allKeys <==> exists r :: r in data && k in r
  {
    var keys: set<string> := {};
    for i := 0 to |data|
      invariant keys == KeysOf(data[..i])
    {
      keys := keys + data[i].Keys;
      assert data[..i + 1] == data[..i] + [data[i]];
    }
    assert data[..|data|] == data;
    allKeys := SetToSeq(keys);
  }

  // ---------------------------------------------------------------------
  // Column types

  /** The values that set a column's type: Python's `int` (which includes
      `bool`), `float`, `list` and `dict`. Strings and `None` do not. */
  predicate SetsType(v: Json) {
    v.JInt? || v.JBool? || v.JFloat? || IsCompound(v)
  }

  /** The type such a value gives its column. */
  function TypeOf(v: Json): ColType
    requires SetsType(v)
  {
    if v.JInt? || v.JBool? then INTEGER
    else if v.JFloat? then DOUBLE
    else VARCHAR
  }

  /** The reference reading of the scan: the type of the last row whose
      value for `k` sets a type, VARCHAR when there is none. */
  function ColumnType(rows: seq<Record>, k: string): ColType {
    if rows == [] then VARCHAR
    else
      var v := Get(rows[|rows| - 1], k);
      if SetsType(v) then TypeOf(v) else ColumnType(rows[..|rows| - 1], k)
  }

  /** A column in which no row has an int, float, list or dict stays VARCHAR. */
  lemma {:induction false} UntypedColumnIsVarchar(rows: seq<Record>, k: string)
    requires forall r :: r in rows ==> !SetsType(Get(r, k))
    ensures ColumnType(rows, k) == VARCHAR
  {
    if rows != [] {
      assert rows[|rows| - 1] in rows;
      UntypedColumnIsVarchar(rows[..|rows| - 1], k);
    }
  }

  /** The last typed value decides: when row `j` sets a type and no later row
      does, the column has row `j`'s type, whatever came before it. */
  lemma {:induction false} LastTypedValueWins(rows: seq<Record>, k: string, j: nat)
    requires j < |rows| && SetsType(Get(rows[j], k))
    requires forall l :: j < l < |rows| ==> !SetsType(Get(rows[l], k))
    ensures ColumnType(rows, k) == TypeOf(Get(rows[j], k))
    decreases |rows|
  {
    if j < |rows| - 1 {
      var init := rows[..|rows| - 1];
      assert init[j] == rows[j];
      forall l | j < l < |init| ensures !SetsType(Get(init[l], k)) {
        assert init[l] == rows[l];
      }
      LastTypedValueWins(init, k, j);
    }
  }

  /** The scan is order-dependent: an int then a float gives DOUBLE, the
      same two values the other way round give INTEGER. */
  lemma ScanIsOrderDependent()
    ensures ColumnType([map["population" := JInt(42)], map["population" := JFloat(42.5)]], "population") == DOUBLE
    ensures ColumnType([map["population" := JFloat(42.5)], map["population" := JInt(42)]], "population") == INTEGER
  {
    var a: Record := map["population" := JInt(42)];
    var b: Record := map["population" := JFloat(42.5)];
    assert [a, b][..1] == [a];
    assert [b, a][..1] == [b];
  }

  /** A list seen before an int does not keep the column VARCHAR. */
  lemma CompoundThenIntIsInteger()
    ensures ColumnType([map["tags" := JList([])], map["tags" := JInt(1)]], "tags") == INTEGER
  {
  }

  /** What one visit of the scan does to a column whose type is `t`. */
  function Step(t: ColType, v: Json): ColType {
    if SetsType(v) then TypeOf(v) else t
  }

  /** Scanning one more row is one more `Step`. */
  lemma ColumnTypeSnoc(rows: seq<Record>, row: Record, k: string)
    ensures ColumnType(rows + [row], k) == Step(ColumnType(rows, k), Get(row, k))
  {
    assert (rows + [row])[..|rows|] == rows;
  }

  /** The inner loop over the columns for one row. */
  method ScanRow(colTypes: map<string, ColType>, row: Record, allKeys: seq<string>)
    returns (updated: map<string, ColType>)
    requires Distinct(allKeys)
    requires forall k :: k in allKeys ==> k in colTypes
    ensures updated.Keys == colTypes.Keys
    ensures forall k :: k in allKeys ==> updated[k] == Step(colTypes[k], Get(row, k))
  {
    updated := colTypes;
    for m := 0 to |allKeys|
      invariant updated.Keys == colTypes.Keys
      invariant forall n :: 0 <= n < m ==> updated[allKeys[n]] == Step(colTypes[allKeys[n]], Get(row, allKeys[n]))
      invariant forall n :: m <= n < |allKeys| ==> updated[allKeys[n]] == colTypes[allKeys[n]]
    {
      var k := allKeys[m];
      var v := Get(row, k);
      if v.JInt? || v.JBool? {
        updated := updated[k := INTEGER];
      } else if v.JFloat? {
        updated := updated[k := DOUBLE];
      } else if v.JList? || v.JObject? {
        updated := updated[k := VARCHAR];
      }
    }
    forall k | k in allKeys ensures updated[k] == Step(colTypes[k], Get(row, k)) {
      var n :| 0 <= n < |allKeys| && allKeys[n] == k;
    }
  }

  /** The `col_types` loops: every column starts as VARCHAR, then a scan of
      the rows in order, and of the columns within each row, overwrites the
      column's type whenever the value is an int, a float, a list or a dict. */
  method InferTypes(data: seq<Record>, allKeys: seq<string>) returns (colTypes: map<string, ColType>)
    requires Distinct(allKeys)
    ensures colTypes.Keys == set k | k in allKeys
    ensures forall k :: k in allKeys ==> colTypes[k] == ColumnType(data, k)
  {
    colTypes := map[];
    for m := 0 to |allKeys|
      invariant colTypes.Keys == set k | k in allKeys[..m]
      invariant forall k :: k in colTypes ==> colTypes[k] == VARCHAR
    {
      colTypes := colTypes[allKeys[m] := VARCHAR];
      assert allKeys[..m + 1] == allKeys[..m] + [allKeys[m]];
    }
    assert allKeys[..|allKeys|] == allKeys;
    for i := 0 to |data|
      invariant colTypes.Keys == set k | k in allKeys
      invariant forall k :: k in allKeys ==> colTypes[k] == ColumnType(data[..i], k)
    {
      colTypes := ScanRow(colTypes, data[i], allKeys);
      assert data[..i + 1] == data[..i] + [data[i]];
      forall k | k in allKeys ensures colTypes[k] == ColumnType(data[..i + 1], k) {
        ColumnTypeSnoc(data[..i], data[i], k);
      }
    }
    assert data[..|data|] == data;
  }

  // ---------------------------------------------------------------------
  // Rows

  /** The `values` loop for one row: one value per column, in column order;
      `None` for a missing key, the JSON text for a list or dict, and the
      value itself otherwise. */
  method RowValues(row: Record, allKeys: seq<string>, dumps: Json -> string) returns (values: seq<Json>)
    ensures |values| == |allKeys|
    ensures forall i :: 0 <= i < |allKeys| && allKeys[i] !in row ==> values[i] == JNull
    ensures forall i :: 0 <= i < |allKeys| && allKeys[i] in row && IsCompound(row[allKeys[i]]) ==>
              values[i] == JString(dumps(row[allKeys[i]]))
    ensures forall i :: 0 <= i < |allKeys| && allKeys[i] in row && !IsCompound(row[allKeys[i]]) ==>
              values[i] == row[allKeys[i]]
  {
    values := [];
    for m := 0 to |allKeys|
      invariant |values| == m
      invariant forall i :: 0 <= i < m && allKeys[i] !in row ==> values[i] == JNull
      invariant forall i :: 0 <= i < m && allKeys[i] in row && IsCompound(row[allKeys[i]]) ==>
                  values[i] == JString(dumps(row[allKeys[i]]))
      invariant forall i :: 0 <= i < m && allKeys[i] in row && !IsCompound(row[allKeys[i]]) ==>
                  values[i] == row[allKeys[i]]
    {
      var v := Get(row, allKeys[m]);
      if v.JList? || v.JObject? {
        values := values + [JString(dumps(v))];
      } else {
        values := values + [v];
      }
    }
  }

  // ---------------------------------------------------------------------
  // The whole script

  /** The script: columns are the union of the keys, each typed by the scan,
      and exactly one INSERT per record, in record order, whose values follow
      the CREATE TABLE column order. */
  method ImportRecords(data: seq<Record>, dumps: Json -> string) returns (table: Table)
    ensures Distinct(ColumnNames(table.columns))
    ensures forall k :: k in ColumnNames(table.columns) <==> exists r :: r in data && k in r
    ensures forall c :: c in table.columns ==> c.colType == ColumnType(data, c.name)
    ensures |table.inserts| == |data|
    ensures forall j :: 0 <= j < |data| ==> |table.inserts[j]| == |table.columns|
    ensures forall j, i :: 0 <= j < |data| && 0 <= i < |table.columns| ==>
              table.inserts[j][i] == CellValue(data[j], table.columns[i].name, dumps)
  {
    var allKeys := CollectColumns(data);
    var colTypes := InferTypes(data, allKeys);
    var columns := seq(|allKeys|, i requires 0 <= i < |allKeys| => Column(allKeys[i], colTypes[allKeys[i]]));
    assert ColumnNames(columns) == allKeys;
    var inserts: seq<seq<Json>> := [];
    for j := 0 to |data|
      invariant |inserts| == j
      invariant forall l :: 0 <= l < j ==> |inserts[l]| == |columns|
      invariant forall l, i :: 0 <= l < j && 0 <= i < |columns| ==>
                  inserts[l][i] == CellValue(data[l], columns[i].name, dumps)
    {
      var values := RowValues(data[j], allKeys, dumps);
      inserts := inserts + [values];
    }
    table := Table(columns, inserts);
    forall c | c in table.columns ensures c.colType == ColumnType(data, c.name) {
      var i :| 0 <= i < |columns| && columns[i] == c;
    }
  }

  function ColumnNames(columns: seq<Column>): (names: seq<string>)
    ensures |names| == |columns|
    ensures forall i :: 0 <= i < |columns| ==> names[i] == columns[i].name
  {
    seq(|columns|, i requires 0 <= i < |columns| => columns[i].name)
  }

  /** The value one INSERT carries for column `k`. */
  function CellValue(row: Record, k: string, dumps: Json -> string): Json {
    if k !in row then JNull
    else if IsCompound(row[k]) then JString(dumps(row[k]))
    else row[k]
  }
}
