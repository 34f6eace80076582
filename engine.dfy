/**
 * The static operations of a record type: where, find, all, create and
 * findOrCreate.  The database is an input: the rows a SELECT returns,
 * whether an INSERT executed, and the id it generated.  Each operation
 * returns the statements it prepares alongside its result.
 */
module Engine {
  import opened Optional
  import opened Coercion
  import opened Schema
  import opened Config
  import opened Query
  import opened Relations
  import opened Records

  /** create's result: false when the INSERT fails, else what find(lastInsertId) returns. */
  datatype Created = InsertFailed | Inserted(found: Option<Record>)

  /** findOrCreate's result: the first match, or what create returned. */
  datatype FoundOrCreated = Existing(record: Record) | New(created: Created)

  /** The properties create builds its record from: created-at stamped iff timestamps are on. */
  function Stamped(kind: RecordType, properties: map<string, Value>, now: int): (r: map<string, Value>)
    ensures kind.timestamps ==> kind.createdAt in r && r[kind.createdAt] == Int(now)
    ensures forall k :: k != kind.createdAt ==> (k in r <==> k in properties) && (k in r ==> r[k] == properties[k])
    ensures !kind.timestamps ==> r == properties
  {
    if kind.timestamps then properties[kind.createdAt := Int(now)] else properties
  }

  /** The INSERT create prepares for a record with these properties. */
  function InsertStatement(table: string, fields: seq<string>, props: map<string, Value>): Statement
  {
    var cols := InsertColumns(fields, props);
    Statement(InsertSql(table, cols), PositionalBindings(ValuesOf(cols, props)))
  }

  /** `r` is the record the constructor builds from `row` under the cached schema `info`. */
  ghost predicate Built(r: Record, kind: RecordType, reg: Registry, info: seq<InfoEntry>, row: map<string, Value>)
    reads r
  {
    && AllRegistered(kind, reg)
    && r.kind == kind
    && r.props == Materialize(info, row)
    && r.relations == Assign(map[], Declared(kind, reg, r.props))
  }

  /** where's fetch loop: `new static($row)` for each returned row, with the schema already cached. */
  method Construct(kind: RecordType, reg: Registry, cache: SchemaCache, db: Database, rows: seq<map<string, Value>>)
    returns (records: seq<Record>)
    requires AllRegistered(kind, reg)
    requires CachedTable(cache.info) == Some(TableName(kind))
    modifies cache
    ensures cache.info == old(cache.info)
    ensures |records| == |rows|
    ensures forall i :: 0 <= i < |rows| ==> fresh(records[i]) && Built(records[i], kind, reg, cache.info, rows[i])
  {
    records := [];
    ghost var info := cache.info;
    assert !Stale(info, TableName(kind));
    for i := 0 to |rows|
      invariant cache.info == info
      invariant |records| == i
      invariant forall j :: 0 <= j < i ==> fresh(records[j]) && Built(records[j], kind, reg, info, rows[j])
    {
      var r := new Record(kind, reg, cache, db, rows[i]);
      records := records + [r];
    }
  }

  /**
   * where: conditions, SELECT, and one record per returned row; null for
   * no rows.  The schema cache is refreshed only when the filtering or
   * the order-by check reads the fields, or when a row comes back: the
   * first `new static($row)` then reads the fields itself.
   */
  method Where(kind: RecordType, reg: Registry, cache: SchemaCache, db: Database, entries: seq<Entry>, orderBy: OrderBy,
               rows: seq<map<string, Value>>) returns (stmt: Statement, result: Option<seq<Record>>)
    requires AllRegistered(kind, reg)
    modifies cache
    ensures if ReadsSchema(WhereEntries(kind.softDeletes, kind.deletedAt, entries), orderBy) || rows != [] then
              (if Stale(old(cache.info), TableName(kind)) then cache.info == Fetched(Describe(db, TableName(kind)), TableName(kind))
               else cache.info == old(cache.info))
              && CachedTable(cache.info) == Some(TableName(kind))
            else cache.info == old(cache.info)
    ensures old(cache.Coherent(db)) && (ReadsSchema(WhereEntries(kind.softDeletes, kind.deletedAt, entries), orderBy) || rows != []) ==>
      Fields(cache.info) == ColumnNames(Describe(db, TableName(kind)))
    ensures stmt == SelectStatement(TableName(kind), Fields(cache.info), WhereEntries(kind.softDeletes, kind.deletedAt, entries), orderBy)
    ensures result.None? <==> rows == []
    ensures result.Some? ==> |result.value| == |rows|
    ensures result.Some? ==> forall i :: 0 <= i < |rows| ==>
      fresh(result.value[i]) && Built(result.value[i], kind, reg, cache.info, rows[i])
  {
    var table := TableName(kind);
    var conditions := WhereEntries(kind.softDeletes, kind.deletedAt, entries);
    var fields: seq<string> := [];
    if ReadsSchema(conditions, orderBy) {
      fields := cache.GetFields(table, db);
    }
    stmt := BuildSelect(table, fields, conditions, orderBy);
    if |rows| == 0 {
      if !ReadsSchema(conditions, orderBy) {
        SelectWithoutSchema(table, fields, Fields(cache.info), conditions, orderBy);
      }
      return stmt, None;
    }
    if !ReadsSchema(conditions, orderBy) {
      // the first constructor's getFields
      var columns := cache.GetFields(table, db);
      SelectWithoutSchema(table, fields, Fields(cache.info), conditions, orderBy);
    }
    ghost var info := cache.info;
    var records := Construct(kind, reg, cache, db, rows);
    assert cache.info == info;
    result := Some(records);
    assert result.value == records;
  }

  /** find: the first record of `where([field => value])`, or null. */
  method Find(kind: RecordType, reg: Registry, cache: SchemaCache, db: Database, value: Value, field: string,
              rows: seq<map<string, Value>>) returns (stmt: Statement, result: Option<Record>)
    requires AllRegistered(kind, reg)
    modifies cache
    ensures if Stale(old(cache.info), TableName(kind)) then cache.info == Fetched(Describe(db, TableName(kind)), TableName(kind))
            else cache.info == old(cache.info)
    ensures CachedTable(cache.info) == Some(TableName(kind))
    ensures stmt == SelectStatement(TableName(kind), Fields(cache.info),
                                    WhereEntries(kind.softDeletes, kind.deletedAt, [Entry(Named(field), Scalar(value))]), NoOrder)
    ensures result.None? <==> rows == []
    ensures result.Some? ==> fresh(result.value) && Built(result.value, kind, reg, cache.info, rows[0])
  {
    var found;
    stmt, found := Where(kind, reg, cache, db, [Entry(Named(field), Scalar(value))], NoOrder, rows);
    if found.Some? {
      result := Some(found.value[0]);
    } else {
      result := None;
    }
  }

  /** all: `where()` without conditions, still filtered by the soft-delete marker. */
  method All(kind: RecordType, reg: Registry, cache: SchemaCache, db: Database, rows: seq<map<string, Value>>)
    returns (stmt: Statement, result: Option<seq<Record>>)
    requires AllRegistered(kind, reg)
    modifies cache
    ensures if kind.softDeletes || rows != [] then
              (if Stale(old(cache.info), TableName(kind)) then cache.info == Fetched(Describe(db, TableName(kind)), TableName(kind))
               else cache.info == old(cache.info))
              && CachedTable(cache.info) == Some(TableName(kind))
            else cache.info == old(cache.info)
    ensures stmt == SelectStatement(TableName(kind), Fields(cache.info), WhereEntries(kind.softDeletes, kind.deletedAt, []), NoOrder)
    ensures result.None? <==> rows == []
    ensures result.Some? ==> |result.value| == |rows|
    ensures result.Some? ==> forall i :: 0 <= i < |rows| ==>
      fresh(result.value[i]) && Built(result.value[i], kind, reg, cache.info, rows[i])
  {
    stmt, result := Where(kind, reg, cache, db, [], NoOrder, rows);
  }

  /**
   * create: stamp, construct, INSERT the set non-`id` fields; on success
   * re-fetch by the generated id.
   */
  method Create(kind: RecordType, reg: Registry, cache: SchemaCache, db: Database, properties: map<string, Value>, now: int,
                insertOk: bool, lastId: Value, rows: seq<map<string, Value>>)
    returns (insert: Statement, refetch: Option<Statement>, result: Created)
    requires AllRegistered(kind, reg)
    modifies cache
    ensures if Stale(old(cache.info), TableName(kind)) then cache.info == Fetched(Describe(db, TableName(kind)), TableName(kind))
            else cache.info == old(cache.info)
    ensures CachedTable(cache.info) == Some(TableName(kind))
    ensures insert == InsertStatement(TableName(kind), Fields(cache.info), Materialize(cache.info, Stamped(kind, properties, now)))
    ensures refetch.Some? <==> insertOk
    ensures result.InsertFailed? <==> !insertOk
    ensures insertOk ==> refetch.value == SelectStatement(TableName(kind), Fields(cache.info),
                           WhereEntries(kind.softDeletes, kind.deletedAt, [Entry(Named("id"), Scalar(lastId))]), NoOrder)
    ensures result.Inserted? ==> (result.found.None? <==> rows == [])
    ensures result.Inserted? && result.found.Some? ==>
      fresh(result.found.value) && Built(result.found.value, kind, reg, cache.info, rows[0])
  {
    var rec;
    rec, insert := PrepareInsert(kind, reg, cache, db, Stamped(kind, properties, now));
    if insertOk {
      rec.props := rec.props["id" := lastId];
      var s;
      s, result := Refetch(kind, reg, cache, db, lastId, rows);
      refetch := Some(s);
    } else {
      refetch := None;
      result := InsertFailed;
    }
  }

  /** create's construction of the new record and the INSERT of its set fields. */
  method PrepareInsert(kind: RecordType, reg: Registry, cache: SchemaCache, db: Database, properties: map<string, Value>)
    returns (rec: Record, insert: Statement)
    requires AllRegistered(kind, reg)
    modifies cache
    ensures if Stale(old(cache.info), TableName(kind)) then cache.info == Fetched(Describe(db, TableName(kind)), TableName(kind))
            else cache.info == old(cache.info)
    ensures CachedTable(cache.info) == Some(TableName(kind))
    ensures fresh(rec) && Built(rec, kind, reg, cache.info, properties)
    ensures insert == InsertStatement(TableName(kind), Fields(cache.info), Materialize(cache.info, properties))
  {
    var table := TableName(kind);
    rec := new Record(kind, reg, cache, db, properties);
    var fields := cache.GetFields(table, db);
    insert := BuildInsert(table, fields, rec.props);
  }

  /** create's `return static::find($id)` after a successful INSERT. */
  method Refetch(kind: RecordType, reg: Registry, cache: SchemaCache, db: Database, lastId: Value, rows: seq<map<string, Value>>)
    returns (stmt: Statement, result: Created)
    requires AllRegistered(kind, reg)
    requires CachedTable(cache.info) == Some(TableName(kind))
    modifies cache
    ensures cache.info == old(cache.info)
    ensures stmt == SelectStatement(TableName(kind), Fields(cache.info),
                      WhereEntries(kind.softDeletes, kind.deletedAt, [Entry(Named("id"), Scalar(lastId))]), NoOrder)
    ensures result.Inserted? && (result.found.None? <==> rows == [])
    ensures result.found.Some? ==> fresh(result.found.value) && Built(result.found.value, kind, reg, cache.info, rows[0])
  {
    var found;
    stmt, found := Find(kind, reg, cache, db, lastId, "id", rows);
    result := Inserted(found);
  }

  /** The entries findOrCreate keeps: every condition that is not in array form. */
  function Simple(entries: seq<Entry>): (r: seq<Entry>)
    ensures forall i :: 0 <= i < |r| ==> r[i].arg.Scalar?
  {
    if entries == [] then []
    else Simple(entries[..|entries| - 1]) + (if entries[|entries| - 1].arg.Scalar? then [entries[|entries| - 1]] else [])
  }

  /** findOrCreate's loop that unsets the array-valued conditions. */
  method StripComplex(entries: seq<Entry>) returns (kept: seq<Entry>)
    ensures kept == Simple(entries)
  {
    kept := [];
    for i := 0 to |entries|
      invariant kept == Simple(entries[..i])
    {
      assert entries[..i + 1][..i] == entries[..i];
      if !entries[i].arg.Cond? {
        kept := kept + [entries[i]];
      }
    }
    assert entries[..|entries|] == entries;
  }

  /** The stripped condition array read as create's property array (string keys only). */
  function PropsOf(entries: seq<Entry>): map<string, Value>
  {
    if entries == [] then map[]
    else
      var e := entries[|entries| - 1];
      var m := PropsOf(entries[..|entries| - 1]);
      if e.key.Named? && e.arg.Scalar? then m[e.key.name := e.arg.value] else m
  }

  /**
   * findOrCreate: strip the array-form conditions, look up with the rest,
   * and create from the stripped properties only when nothing matched.
   */
  method FindOrCreate(kind: RecordType, reg: Registry, cache: SchemaCache, db: Database, entries: seq<Entry>,
                      rows: seq<map<string, Value>>, now: int, insertOk: bool, lastId: Value, createdRows: seq<map<string, Value>>)
    returns (select: Statement, insert: Option<Statement>, refetch: Option<Statement>, result: FoundOrCreated)
    requires AllRegistered(kind, reg)
    modifies cache
    ensures if Stale(old(cache.info), TableName(kind)) then cache.info == Fetched(Describe(db, TableName(kind)), TableName(kind))
            else cache.info == old(cache.info)
    ensures CachedTable(cache.info) == Some(TableName(kind))
    ensures insert.None? <==> rows != []
    ensures refetch.Some? <==> rows == [] && insertOk
    ensures refetch.Some? ==> refetch.value == SelectStatement(TableName(kind), Fields(cache.info),
                                WhereEntries(kind.softDeletes, kind.deletedAt, [Entry(Named("id"), Scalar(lastId))]), NoOrder)
    ensures result.Existing? <==> rows != []
    ensures rows != [] ==> fresh(result.record) && Built(result.record, kind, reg, cache.info, rows[0])
    ensures select == SelectStatement(TableName(kind), Fields(cache.info),
                                      WhereEntries(kind.softDeletes, kind.deletedAt, Simple(entries)), NoOrder)
    ensures rows == [] ==> insert.value == InsertStatement(TableName(kind), Fields(cache.info),
                                                          Materialize(cache.info, Stamped(kind, PropsOf(Simple(entries)), now)))
    ensures rows == [] ==> (result.New? && (result.created.InsertFailed? <==> !insertOk))
    ensures rows == [] && insertOk ==> (result.created.found.None? <==> createdRows == [])
    ensures rows == [] && insertOk && result.created.found.Some? ==>
      fresh(result.created.found.value) && Built(result.created.found.value, kind, reg, cache.info, createdRows[0])
  {
    var simple := StripComplex(entries);
    var found;
    select, found := Where(kind, reg, cache, db, simple, NoOrder, rows);
    if found.Some? {
      result := Existing(found.value[0]);
      insert, refetch := None, None;
    } else {
      ghost var info := cache.info;
      var ins, created;
      ins, refetch, created := Create(kind, reg, cache, db, PropsOf(simple), now, insertOk, lastId, createdRows);
      var conditions := WhereEntries(kind.softDeletes, kind.deletedAt, simple);
      if ReadsSchema(conditions, NoOrder) {
        assert !Stale(info, TableName(kind));
        assert cache.info == info;
      } else {
        SelectWithoutSchema(TableName(kind), Fields(info), Fields(cache.info), conditions, NoOrder);
      }
      insert := Some(ins);
      result := New(created);
    }
  }

  // ---- properties ----------------------------------------------------------------

  /** Array-form conditions never survive stripping; every other entry does, in order. */
  lemma {:induction false} SimpleKeepsScalars(a: seq<Entry>, b: seq<Entry>)
    ensures Simple(a + b) == Simple(a) + Simple(b)
  {
    if b != [] {
      assert (a + b)[..|a + b| - 1] == a + b[..|b| - 1];
      SimpleKeepsScalars(a, b[..|b| - 1]);
    } else {
      assert a + b == a;
    }
  }

  lemma {:induction false} SimpleMembership(entries: seq<Entry>, e: Entry)
    ensures e in Simple(entries) <==> e in entries && e.arg.Scalar?
  {
    if entries != [] {
      var n := |entries| - 1;
      SimpleMembership(entries[..n], e);
      assert entries == entries[..n] + [entries[n]];
    }
  }

  /**
   * With timestamps on, create inserts the created-at column, holding
   * `now` coerced by its type.  With them off, a created-at column of a
   * type outside the coercion switch that the caller left unset is not
   * inserted at all (int and string columns are, as 0 and '').
   */
  lemma CreatedAtInserted(kind: RecordType, info: seq<InfoEntry>, properties: map<string, Value>, now: int)
    requires kind.createdAt in Fields(info) && kind.createdAt != "id"
    ensures var props := Materialize(info, Stamped(kind, properties, now));
      kind.timestamps ==> (kind.createdAt in InsertColumns(Fields(info), props) && kind.createdAt in props
                           && props[kind.createdAt] == Coerce(FieldType(info, kind.createdAt), Int(now)))
    ensures var props := Materialize(info, Stamped(kind, properties, now));
      (!kind.timestamps && Get(properties, kind.createdAt) == Null && DomainOfType(FieldType(info, kind.createdAt)) == Unchanged)
      ==> kind.createdAt !in InsertColumns(Fields(info), props)
  {
    var props := Materialize(info, Stamped(kind, properties, now));
    MaterializeShape(info, Stamped(kind, properties, now));
    InsertColumnsMembership(Fields(info), props, kind.createdAt);
    CoerceNull(FieldType(info, kind.createdAt), Get(Stamped(kind, properties, now), kind.createdAt));
  }

  /** The INSERT of create never names `id`, and names each set schema field. */
  lemma InsertShape(info: seq<InfoEntry>, props: map<string, Value>, f: string)
    ensures "id" !in InsertColumns(Fields(info), props)
    ensures f in InsertColumns(Fields(info), props) <==> f in Fields(info) && f != "id" && Isset(Get(props, f))
  {
    InsertColumnsMembership(Fields(info), props, "id");
    InsertColumnsMembership(Fields(info), props, f);
  }
}
