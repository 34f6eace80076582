/**
 * A record: one row materialised as an instance of a record type.  The
 * constructor assigns every schema field with its value coerced by the
 * column type and attaches the relationship lookups; `update`,
 * `updateProperty`, `save` and `delete` change it in place and write it
 * through.
 */
module Records {
  import opened Optional
  import opened Coercion
  import opened Schema
  import opened Config
  import opened Query
  import opened Relations

  /**
   * The properties after the constructor's field loop has run over
   * `fields`: the declared `id` (null until assigned) and each field in
   * turn, coerced by its type.
   */
  function Coerced(info: seq<InfoEntry>, fields: seq<string>, properties: map<string, Value>): map<string, Value>
  {
    if fields == [] then map["id" := Null]
    else
      var f := fields[|fields| - 1];
      Coerced(info, fields[..|fields| - 1], properties)[f := Coerce(FieldType(info, f), Get(properties, f))]
  }

  /** The properties of a record constructed from `properties`. */
  function Materialize(info: seq<InfoEntry>, properties: map<string, Value>): map<string, Value>
  {
    Coerced(info, Fields(info), properties)
  }

  lemma {:induction false} CoercedKeys(info: seq<InfoEntry>, fields: seq<string>, properties: map<string, Value>)
    ensures forall k :: k in Coerced(info, fields, properties) <==> k == "id" || k in fields
  {
    if fields != [] {
      var n := |fields| - 1;
      CoercedKeys(info, fields[..n], properties);
      assert fields == fields[..n] + [fields[n]];
    }
  }

  lemma {:induction false} CoercedValue(info: seq<InfoEntry>, fields: seq<string>, properties: map<string, Value>, f: string)
    requires f in fields
    ensures f in Coerced(info, fields, properties)
    ensures Coerced(info, fields, properties)[f] == Coerce(FieldType(info, f), Get(properties, f))
  {
    var n := |fields| - 1;
    if fields[n] != f {
      assert fields == fields[..n] + [fields[n]];
      CoercedValue(info, fields[..n], properties, f);
    }
  }

  lemma {:induction false} CoercedId(info: seq<InfoEntry>, fields: seq<string>, properties: map<string, Value>)
    requires "id" !in fields
    ensures "id" in Coerced(info, fields, properties) && Coerced(info, fields, properties)["id"] == Null
  {
    if fields != [] {
      var n := |fields| - 1;
      assert fields == fields[..n] + [fields[n]];
      CoercedId(info, fields[..n], properties);
    }
  }

  /**
   * Every schema field is assigned, with its value coerced by the type
   * getFieldType reports; `id` is always a property, null unless a field.
   */
  lemma MaterializeShape(info: seq<InfoEntry>, properties: map<string, Value>)
    ensures forall k :: k in Materialize(info, properties) <==> k == "id" || k in Fields(info)
    ensures forall f :: f in Fields(info) ==>
      f in Materialize(info, properties) && Materialize(info, properties)[f] == Coerce(FieldType(info, f), Get(properties, f))
    ensures "id" !in Fields(info) ==> "id" in Materialize(info, properties) && Materialize(info, properties)["id"] == Null
  {
    CoercedKeys(info, Fields(info), properties);
    forall f | f in Fields(info)
      ensures f in Materialize(info, properties) && Materialize(info, properties)[f] == Coerce(FieldType(info, f), Get(properties, f))
    {
      CoercedValue(info, Fields(info), properties, f);
    }
    if "id" !in Fields(info) {
      CoercedId(info, Fields(info), properties);
    }
  }

  /** A decimal string given for an integer column becomes that integer: "3" becomes 3. */
  lemma DecimalIntoIntColumn(info: seq<InfoEntry>, properties: map<string, Value>, f: string, n: int)
    requires f in Fields(info) && DomainOfType(FieldType(info, f)) == IntDomain
    requires Get(properties, f) == Str(DecimalString(n))
    requires IntMin <= n <= IntMax
    ensures f in Materialize(info, properties) && Materialize(info, properties)[f] == Int(n)
  {
    MaterializeShape(info, properties);
    DecimalRoundTrip(n);
  }

  /** A field missing from the input is null, then coerced: 0 or "" for int and string columns. */
  lemma MissingFieldCoerced(info: seq<InfoEntry>, properties: map<string, Value>, f: string)
    requires f in Fields(info) && f !in properties
    ensures f in Materialize(info, properties)
    ensures DomainOfType(FieldType(info, f)) == IntDomain ==> Materialize(info, properties)[f] == Int(0)
    ensures DomainOfType(FieldType(info, f)) == StringDomain ==> Materialize(info, properties)[f] == Str("")
    ensures DomainOfType(FieldType(info, f)) == Unchanged ==> Materialize(info, properties)[f] == Null
  {
    MaterializeShape(info, properties);
  }

  // ---- update ------------------------------------------------------------------

  /**
   * update's assignment loop: each `field => value` in order, assigned
   * only when the record already has that property.
   */
  function Assigned(props: map<string, Value>, updates: seq<(string, Value)>): map<string, Value>
  {
    if updates == [] then props
    else
      var u := updates[|updates| - 1];
      var a := Assigned(props, updates[..|updates| - 1]);
      if u.0 in a then a[u.0 := u.1] else a
  }

  /** The record's properties after `update(updates)` at time `now`. */
  function Updated(kind: RecordType, props: map<string, Value>, updates: seq<(string, Value)>, now: int): map<string, Value>
  {
    var a := Assigned(props, updates);
    if kind.timestamps then a[kind.updatedAt := Int(now)] else a
  }

  /**
   * Assignment keeps the set of properties, sets a targeted property to
   * the LAST value given for it, and leaves every other property as it was.
   */
  lemma {:induction false} AssignedEffect(props: map<string, Value>, updates: seq<(string, Value)>)
    ensures Assigned(props, updates).Keys == props.Keys
    ensures forall k :: k in props && (forall i :: 0 <= i < |updates| ==> updates[i].0 != k) ==>
      Assigned(props, updates)[k] == props[k]
    ensures forall i :: (0 <= i < |updates| && updates[i].0 in props
                         && (forall j :: i < j < |updates| ==> updates[j].0 != updates[i].0)
                         ==> Assigned(props, updates)[updates[i].0] == updates[i].1)
  {
    AssignedKeys(props, updates);
    forall k | k in props && (forall i :: 0 <= i < |updates| ==> updates[i].0 != k)
      ensures Assigned(props, updates)[k] == props[k]
    {
      AssignedUntouched(props, updates, k);
    }
    forall i | (0 <= i < |updates| && updates[i].0 in props
                && (forall j :: i < j < |updates| ==> updates[j].0 != updates[i].0))
      ensures Assigned(props, updates)[updates[i].0] == updates[i].1
    {
      AssignedLast(props, updates, i);
    }
  }

  lemma {:induction false} AssignedKeys(props: map<string, Value>, updates: seq<(string, Value)>)
    ensures Assigned(props, updates).Keys == props.Keys
  {
    if updates != [] {
      AssignedKeys(props, updates[..|updates| - 1]);
    }
  }

  lemma {:induction false} AssignedUntouched(props: map<string, Value>, updates: seq<(string, Value)>, k: string)
    requires k in props && forall i :: 0 <= i < |updates| ==> updates[i].0 != k
    ensures k in Assigned(props, updates) && Assigned(props, updates)[k] == props[k]
  {
    if updates != [] {
      var n := |updates| - 1;
      assert forall i :: 0 <= i < n ==> updates[..n][i] == updates[i];
      AssignedUntouched(props, updates[..n], k);
    }
  }

  lemma {:induction false} AssignedLast(props: map<string, Value>, updates: seq<(string, Value)>, i: nat)
    requires i < |updates| && updates[i].0 in props
    requires forall j :: i < j < |updates| ==> updates[j].0 != updates[i].0
    ensures updates[i].0 in Assigned(props, updates) && Assigned(props, updates)[updates[i].0] == updates[i].1
  {
    var n := |updates| - 1;
    var init := updates[..n];
    AssignedKeys(props, init);
    if i < n {
      assert init[i] == updates[i];
      assert forall j :: i < j < n ==> init[j] == updates[j];
      AssignedLast(props, init, i);
    }
  }

  /**
   * update touches only the targeted fields plus the updated-at marker:
   * the marker holds `now` when timestamps are on; when they are off
   * nothing but the targeted fields changes and no property is added.
   */
  lemma UpdateTouchesOnlyTargeted(kind: RecordType, props: map<string, Value>, updates: seq<(string, Value)>, now: int)
    ensures var r := Updated(kind, props, updates, now);
      r.Keys == props.Keys + (if kind.timestamps then {kind.updatedAt} else {})
    ensures kind.timestamps ==> Updated(kind, props, updates, now)[kind.updatedAt] == Int(now)
    ensures forall k :: (k in props && !(kind.timestamps && k == kind.updatedAt)
                         && (forall i :: 0 <= i < |updates| ==> updates[i].0 != k)
                         ==> Updated(kind, props, updates, now)[k] == props[k])
    ensures forall i :: (0 <= i < |updates| && updates[i].0 in props && !(kind.timestamps && updates[i].0 == kind.updatedAt)
                         && (forall j :: i < j < |updates| ==> updates[j].0 != updates[i].0)
                         ==> Updated(kind, props, updates, now)[updates[i].0] == updates[i].1)
  {
    AssignedEffect(props, updates);
  }

  lemma CoercedSnoc(info: seq<InfoEntry>, fields: seq<string>, properties: map<string, Value>, i: nat)
    requires i < |fields|
    ensures Coerced(info, fields[..i + 1], properties)
         == Coerced(info, fields[..i], properties)[fields[i] := Coerce(FieldType(info, fields[i]), Get(properties, fields[i]))]
  {
    assert fields[..i + 1][..i] == fields[..i];
  }

  /**
   * The constructor's field loop: getFields, then for each field
   * getFieldType and the coercion switch.
   */
  method AssignFields(table: string, cache: SchemaCache, db: Database, properties: map<string, Value>)
    returns (p: map<string, Value>)
    modifies cache
    ensures if Stale(old(cache.info), table) then cache.info == Fetched(Describe(db, table), table)
            else cache.info == old(cache.info)
    ensures CachedTable(cache.info) == Some(table)
    ensures p == Materialize(cache.info, properties)
  {
    var fields := cache.GetFields(table, db);
    ghost var info := cache.info;
    p := map["id" := Null];
    for i := 0 to |fields|
      invariant cache.info == info
      invariant p == Coerced(info, fields[..i], properties)
    {
      var t := cache.GetFieldType(table, db, fields[i]);
      CoercedSnoc(info, fields, properties, i);
      p := p[fields[i] := Coerce(t, Get(properties, fields[i]))];
    }
    assert fields[..|fields|] == fields;
  }

  // ---- the record ------------------------------------------------------------------

  class Record {
    /** static::class of the instance. */
    const kind: RecordType
    /** The column properties, `id` included. */
    var props: map<string, Value>
    /** The relationship properties, each holding the lookup that fills it. */
    var relations: map<string, Lookup>

    /**
     * `new static($properties)`: the field loop (getFields, then
     * getFieldType and the coercion switch for each field) and the four
     * relationship loops.
     */
    constructor (kind: RecordType, reg: Registry, cache: SchemaCache, db: Database, properties: map<string, Value>)
      requires AllRegistered(kind, reg)
      modifies cache
      ensures this.kind == kind
      ensures if Stale(old(cache.info), TableName(kind)) then cache.info == Fetched(Describe(db, TableName(kind)), TableName(kind))
              else cache.info == old(cache.info)
      ensures CachedTable(cache.info) == Some(TableName(kind))
      ensures props == Materialize(cache.info, properties)
      ensures relations == Assign(map[], Declared(kind, reg, props))
    {
      var p := AssignFields(TableName(kind), cache, db, properties);
      var rel := AttachAll(kind, reg, p, map[]);
      this.kind := kind;
      props := p;
      relations := rel;
    }

    /**
     * save: the UPDATE of every non-`id` field keyed by `id`; `executed`
     * is what the statement's execute() reports.  With no column to set,
     * nothing is prepared and the result is false: this is the corrected
     * form of the source's unbalanced id-only UPDATE, which
     * Query.IdOnlyUpdateMismatch models as written.
     */
    method Save(cache: SchemaCache, db: Database, executed: bool) returns (stmt: Option<Statement>, ok: bool)
      modifies cache
      ensures if Stale(old(cache.info), TableName(kind)) then cache.info == Fetched(Describe(db, TableName(kind)), TableName(kind))
              else cache.info == old(cache.info)
      ensures CachedTable(cache.info) == Some(TableName(kind))
      ensures stmt.None? <==> UpdateColumns(Fields(cache.info)) == []
      ensures stmt.Some? ==> stmt.value.sql == UpdateSql(TableName(kind), UpdateColumns(Fields(cache.info)))
      ensures stmt.Some? ==> stmt.value.bindings == UpdateBindings(UpdateColumns(Fields(cache.info)), props)
      ensures ok <==> stmt.Some? && executed
    {
      var fields := cache.GetFields(TableName(kind), db);
      stmt := PrepareUpdate(TableName(kind), fields, props);
      ok := stmt.Some? && executed;
    }

    /** update: the assignment loop, the updated-at stamp, then save. */
    method Update(updates: seq<(string, Value)>, now: int, cache: SchemaCache, db: Database, executed: bool)
      returns (stmt: Option<Statement>, ok: bool)
      modifies this, cache
      ensures props == Updated(kind, old(props), updates, now)
      ensures relations == old(relations)
      ensures if Stale(old(cache.info), TableName(kind)) then cache.info == Fetched(Describe(db, TableName(kind)), TableName(kind))
              else cache.info == old(cache.info)
      ensures CachedTable(cache.info) == Some(TableName(kind))
      ensures stmt.None? <==> UpdateColumns(Fields(cache.info)) == []
      ensures stmt.Some? ==> stmt.value.sql == UpdateSql(TableName(kind), UpdateColumns(Fields(cache.info)))
      ensures stmt.Some? ==> stmt.value.bindings == UpdateBindings(UpdateColumns(Fields(cache.info)), props)
      ensures ok <==> stmt.Some? && executed
    {
      for i := 0 to |updates|
        invariant props == Assigned(old(props), updates[..i])
        invariant relations == old(relations)
        invariant cache.info == old(cache.info)
      {
        assert updates[..i + 1][..i] == updates[..i];
        if updates[i].0 in props {
          props := props[updates[i].0 := updates[i].1];
        }
      }
      assert updates[..|updates|] == updates;
      if kind.timestamps {
        props := props[kind.updatedAt := Int(now)];
      }
      stmt, ok := Save(cache, db, executed);
    }

    /** updateProperty: update with the single entry `field => value`. */
    method UpdateProperty(field: string, value: Value, now: int, cache: SchemaCache, db: Database, executed: bool)
      returns (stmt: Option<Statement>, ok: bool)
      modifies this, cache
      ensures props == Updated(kind, old(props), [(field, value)], now)
      ensures relations == old(relations)
      ensures if Stale(old(cache.info), TableName(kind)) then cache.info == Fetched(Describe(db, TableName(kind)), TableName(kind))
              else cache.info == old(cache.info)
      ensures CachedTable(cache.info) == Some(TableName(kind))
      ensures stmt.None? <==> UpdateColumns(Fields(cache.info)) == []
      ensures stmt.Some? ==> stmt.value.sql == UpdateSql(TableName(kind), UpdateColumns(Fields(cache.info)))
      ensures stmt.Some? ==> stmt.value.bindings == UpdateBindings(UpdateColumns(Fields(cache.info)), props)
      ensures ok <==> stmt.Some? && executed
    {
      stmt, ok := Update([(field, value)], now, cache, db, executed);
    }

    /**
     * delete: with soft deletes, updateProperty(deleted_at, now) and
     * nothing else, so one clock reading (`now`) stamps both deleted-at
     * and updated-at; otherwise `DELETE FROM t WHERE id = :Id` with the id
     * bound by name, and the record unchanged.
     */
    method Delete(now: int, cache: SchemaCache, db: Database, executed: bool) returns (stmt: Option<Statement>, ok: bool)
      modifies this, cache
      ensures relations == old(relations)
      ensures kind.softDeletes ==> props == Updated(kind, old(props), [(kind.deletedAt, Int(now))], now)
      ensures kind.softDeletes ==>
        (if Stale(old(cache.info), TableName(kind)) then cache.info == Fetched(Describe(db, TableName(kind)), TableName(kind))
         else cache.info == old(cache.info))
        && CachedTable(cache.info) == Some(TableName(kind))
      ensures kind.softDeletes ==> (stmt.None? <==> UpdateColumns(Fields(cache.info)) == [])
      ensures kind.softDeletes && stmt.Some? ==>
        stmt.value == Statement(UpdateSql(TableName(kind), UpdateColumns(Fields(cache.info))),
                                UpdateBindings(UpdateColumns(Fields(cache.info)), props))
      ensures !kind.softDeletes ==>
        props == old(props) && cache.info == old(cache.info) && stmt == Some(DeleteStatement(TableName(kind), Get(props, "id")))
      ensures ok <==> stmt.Some? && executed
    {
      if kind.softDeletes {
        stmt, ok := UpdateProperty(kind.deletedAt, Int(now), now, cache, db, executed);
      } else {
        stmt := Some(DeleteStatement(TableName(kind), Get(props, "id")));
        ok := executed;
      }
    }
  }
}
