/**
 * The table-description cache of the record engine (getTableInfo,
 * getFields, getFieldType).  One cache is shared by every record type:
 * it holds the DESCRIBE rows of a single table, followed by a marker
 * naming that table, and it is fetched again whenever a record type with
 * another table asks.
 */
module Schema {
  import opened Optional

  /** One row of `DESCRIBE t`: the column's `Field` and raw `Type`. */
  datatype Column = Column(field: string, typ: string)

  /** One entry of the cached array: a DESCRIBE row, or the `'table' => t` marker. */
  datatype InfoEntry = Row(column: Column) | TableMarker(table: string)

  /** What the database answers to `DESCRIBE t`, for each table it has. */
  type Database = map<string, seq<Column>>

  /** The rows fetched for `DESCRIBE t`; a missing table yields none. */
  function Describe(db: Database, table: string): seq<Column>
  {
    if table in db then db[table] else []
  }

  /** The cache after a fetch: the rows in order, then the marker. */
  function Fetched(columns: seq<Column>, table: string): (r: seq<InfoEntry>)
    ensures |r| == |columns| + 1 && r[|columns|] == TableMarker(table)
    ensures forall i :: 0 <= i < |columns| ==> r[i] == Row(columns[i])
  {
    seq(|columns|, i requires 0 <= i < |columns| => Row(columns[i])) + [TableMarker(table)]
  }

  /** `$_tableInfo['table']`, None when the key is missing. */
  function CachedTable(info: seq<InfoEntry>): (r: Option<string>)
    ensures r.Some? ==> TableMarker(r.value) in info
    ensures r.None? ==> forall i :: 0 <= i < |info| ==> info[i].Row?
  {
    if info == [] then None
    else if info[0].TableMarker? then Some(info[0].table)
    else CachedTable(info[1..])
  }

  lemma {:induction false} CachedTableOfFetched(columns: seq<Column>, table: string)
    ensures CachedTable(Fetched(columns, table)) == Some(table)
  {
    var info := Fetched(columns, table);
    if columns != [] {
      assert info[1..] == Fetched(columns[1..], table);
      CachedTableOfFetched(columns[1..], table);
    }
  }

  /** getTableInfo fetches when the cache is empty or is for another table. */
  predicate Stale(info: seq<InfoEntry>, table: string)
  {
    info == [] || CachedTable(info) != Some(table)
  }

  /** The `Field` of every column, in order. */
  function ColumnNames(columns: seq<Column>): (r: seq<string>)
    ensures |r| == |columns| && forall i :: 0 <= i < |columns| ==> r[i] == columns[i].field
  {
    seq(|columns|, i requires 0 <= i < |columns| => columns[i].field)
  }

  /** getFields: the `Field` of every row entry in order, skipping the marker. */
  function Fields(info: seq<InfoEntry>): seq<string>
  {
    if info == [] then []
    else
      var last := info[|info| - 1];
      Fields(info[..|info| - 1]) + (if last.Row? then [last.column.field] else [])
  }

  /** After a fetch, getFields lists the described columns in schema order. */
  lemma {:induction false} FieldsOfFetched(columns: seq<Column>, table: string)
    ensures Fields(Fetched(columns, table)) == ColumnNames(columns)
  {
    var info := Fetched(columns, table);
    assert info[..|info| - 1] == seq(|columns|, i requires 0 <= i < |columns| => Row(columns[i]));
    RowsFields(columns);
  }

  lemma {:induction false} RowsFields(columns: seq<Column>)
    ensures Fields(seq(|columns|, i requires 0 <= i < |columns| => Row(columns[i]))) == ColumnNames(columns)
  {
    var rows := seq(|columns|, i requires 0 <= i < |columns| => Row(columns[i]));
    if columns != [] {
      var init := columns[..|columns| - 1];
      assert rows[..|rows| - 1] == seq(|init|, i requires 0 <= i < |init| => Row(init[i]));
      RowsFields(init);
      assert ColumnNames(columns) == ColumnNames(init) + [columns[|columns| - 1].field];
    }
  }

  /**
   * getFieldType: the `Type` of the first row whose `Field` is `field`,
   * None (PHP's `false`) when there is no such row.
   */
  function FieldType(info: seq<InfoEntry>, field: string): (r: Option<string>)
    ensures r.None? <==> forall i :: 0 <= i < |info| && info[i].Row? ==> info[i].column.field != field
    ensures r.Some? ==> exists i :: (0 <= i < |info| && info[i] == Row(Column(field, r.value))
      && forall j :: 0 <= j < i && info[j].Row? ==> info[j].column.field != field)
  {
    if info == [] then None
    else if info[0].Row? && info[0].column.field == field then Some(info[0].column.typ)
    else
      var r := FieldType(info[1..], field);
      assert r.Some? ==> exists i :: (1 <= i < |info| && info[i] == Row(Column(field, r.value))
        && forall j :: 0 <= j < i && info[j].Row? ==> info[j].column.field != field) by {
        if r.Some? {
          var i :| 0 <= i < |info[1..]| && info[1..][i] == Row(Column(field, r.value))
            && forall j :: 0 <= j < i && info[1..][j].Row? ==> info[1..][j].column.field != field;
          assert info[i + 1] == Row(Column(field, r.value));
          assert forall j :: 0 <= j < i + 1 && info[j].Row? ==> info[j].column.field != field by {
            forall j | 0 <= j < i + 1 && info[j].Row?
              ensures info[j].column.field != field
            {
              if j > 0 { assert info[j] == info[1..][j - 1]; }
            }
          }
        }
      }
      r
  }

  /** getFields lists exactly the fields that getFieldType finds a type for. */
  lemma {:induction false} FieldsHaveTypes(info: seq<InfoEntry>, field: string)
    ensures field in Fields(info) <==> FieldType(info, field).Some?
  {
    if info != [] {
      var init := info[..|info| - 1];
      FieldsHaveTypes(init, field);
      var last := info[|info| - 1];
      if last.Row? && last.column.field == field {
        assert field in Fields(info);
      }
      assert (forall i :: 0 <= i < |info| && info[i].Row? ==> info[i].column.field != field)
        <==> (forall i :: 0 <= i < |init| && init[i].Row? ==> init[i].column.field != field)
             && !(last.Row? && last.column.field == field);
    }
  }

  /** The static `$_tableInfo` of the engine. */
  class SchemaCache {
    /** The cached array; [] stands for the initial null. */
    var info: seq<InfoEntry>

    constructor ()
      ensures info == []
    {
      info := [];
    }

    /** The cache holds the database's description of the table it names. */
    ghost predicate Coherent(db: Database)
      reads this
    {
      info == [] || (CachedTable(info).Some? && info == Fetched(Describe(db, CachedTable(info).value), CachedTable(info).value))
    }

    /**
     * getTableInfo: DESCRIBE again only when the cache is empty or names
     * another table; otherwise return the cache as it is.
     */
    method GetTableInfo(table: string, db: Database) returns (r: seq<InfoEntry>)
      modifies this
      ensures r == info
      ensures if Stale(old(info), table) then info == Fetched(Describe(db, table), table) else info == old(info)
      ensures CachedTable(info) == Some(table)
      ensures old(Coherent(db)) ==> Coherent(db) && info == Fetched(Describe(db, table), table)
    {
      if Stale(info, table) {
        info := Fetched(Describe(db, table), table);
        CachedTableOfFetched(Describe(db, table), table);
      }
      r := info;
    }

    /** getFields: the loop over the cached array that keeps only row entries. */
    method GetFields(table: string, db: Database) returns (fields: seq<string>)
      modifies this
      ensures if Stale(old(info), table) then info == Fetched(Describe(db, table), table) else info == old(info)
      ensures CachedTable(info) == Some(table)
      ensures fields == Fields(info)
      ensures old(Coherent(db)) ==> Coherent(db) && info == Fetched(Describe(db, table), table)
      ensures old(Coherent(db)) ==> fields == ColumnNames(Describe(db, table))
    {
      var entries := GetTableInfo(table, db);
      fields := [];
      var i := 0;
      while i < |entries|
        invariant 0 <= i <= |entries|
        invariant fields == Fields(entries[..i])
      {
        assert entries[..i + 1][..i] == entries[..i];
        if entries[i].Row? {
          fields := fields + [entries[i].column.field];
        }
        i := i + 1;
      }
      assert entries[..i] == entries;
      if old(Coherent(db)) {
        FieldsOfFetched(Describe(db, table), table);
      }
    }

    /** getFieldType: a search of the cached array for the field's row. */
    method GetFieldType(table: string, db: Database, field: string) returns (t: Option<string>)
      modifies this
      ensures if Stale(old(info), table) then info == Fetched(Describe(db, table), table) else info == old(info)
      ensures CachedTable(info) == Some(table)
      ensures t == FieldType(info, field)
    {
      var entries := GetTableInfo(table, db);
      var i := 0;
      while i < |entries|
        invariant 0 <= i <= |entries|
        invariant FieldType(entries[i..], field) == FieldType(entries, field)
      {
        if entries[i].Row? && entries[i].column.field == field {
          return Some(entries[i].column.typ);
        }
        assert entries[i..][1..] == entries[i + 1..];
        i := i + 1;
      }
      return None;
    }
  }
}
