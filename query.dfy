/**
 * The SQL text and the positional parameter lists that the record engine
 * assembles: SELECT from `where`, INSERT from `create`, UPDATE from
 * `save`.  Values never enter the text: each becomes a `?` and a binding.
 */
module Query {
  import opened Optional
  import opened Strings
  import opened Coercion

  /** The key of an entry of a condition array: a string, or an integer. */
  datatype Key = Named(name: string) | Positional

  /**
   * The value of an entry: a scalar (meaning `key = value`) or the array
   * form `[field, operator, value]`.
   */
  datatype Arg = Scalar(value: Value) | Cond(field: string, op: string, operand: Value)

  /** One `key => value` entry of a condition array, which is ordered. */
  datatype Entry = Entry(key: Key, arg: Arg)

  /** A condition that reaches the WHERE clause, rendered `field op ?`, bound to `param`. */
  datatype Condition = Condition(field: string, op: string, param: Arg)

  /** The `$orderBy` argument: absent, one field name, or `field => direction` pairs. */
  datatype OrderBy = NoOrder | ByField(field: string) | ByList(pairs: seq<(string, string)>)

  /** bindParam's first argument: a 1-based position or a name. */
  datatype Slot = Pos(n: nat) | Name(name: string)

  datatype Binding = Binding(slot: Slot, arg: Arg)

  /** A prepared statement with everything bound to it. */
  datatype Statement = Statement(sql: string, bindings: seq<Binding>)

  /** A property read: a missing key reads as null. */
  function Get(props: map<string, Value>, k: string): Value
  {
    if k in props then props[k] else Null
  }

  /** isset on a property: set and not null. */
  predicate Isset(v: Value) { !v.Null? }

  // ---- binding ---------------------------------------------------------------

  /** The bindings `bindParam(i, params[i-1])` for i = 1 .. |params|. */
  function PositionalBindings(params: seq<Arg>): (r: seq<Binding>)
    ensures |r| == |params| && forall i :: 0 <= i < |params| ==> r[i] == Binding(Pos(i + 1), params[i])
  {
    seq(|params|, i requires 0 <= i < |params| => Binding(Pos(i + 1), params[i]))
  }

  /** The `for ($i = 1; $i <= count($parameters); $i++)` binding loop. */
  method BindPositional(params: seq<Arg>) returns (bs: seq<Binding>)
    ensures |bs| == |params|
    ensures forall k :: 0 <= k < |params| ==> bs[k] == Binding(Pos(k + 1), params[k])
  {
    bs := [];
    var i := 1;
    while i <= |params|
      invariant 1 <= i <= |params| + 1
      invariant |bs| == i - 1
      invariant forall k :: 0 <= k < i - 1 ==> bs[k] == Binding(Pos(k + 1), params[k])
    {
      bs := bs + [Binding(Pos(i), params[i - 1])];
      i := i + 1;
    }
  }

  // ---- SELECT ------------------------------------------------------------------

  /** The implicit soft-delete condition `[deleted_at, '=', '0']`. */
  function SoftDeleteEntry(deletedAt: string): Entry
  {
    Entry(Positional, Cond(deletedAt, "=", Str("0")))
  }

  /** The caller's conditions, with the soft-delete condition appended when it applies. */
  function WhereEntries(softDeletes: bool, deletedAt: string, entries: seq<Entry>): seq<Entry>
  {
    if softDeletes then entries + [SoftDeleteEntry(deletedAt)] else entries
  }

  /**
   * One iteration of the filtering loop of `where`: the array form is kept
   * when its field is known and is bound to its third element; otherwise a
   * known string key stands for `key = value`, bound to the whole value.
   */
  function Keep(fields: seq<string>, e: Entry): (r: Option<Condition>)
    ensures r.Some? ==> r.value.field in fields
  {
    if e.arg.Cond? && e.arg.field in fields then
      Some(Condition(e.arg.field, e.arg.op, Scalar(e.arg.operand)))
    else if e.key.Named? && e.key.name in fields then
      Some(Condition(e.key.name, "=", e.arg))
    else None
  }

  function KeptOne(fields: seq<string>, e: Entry): seq<Condition>
  {
    if Keep(fields, e).Some? then [Keep(fields, e).value] else []
  }

  /** The conditions of `where` that survive the field check, in order. */
  function Kept(fields: seq<string>, entries: seq<Entry>): seq<Condition>
  {
    if entries == [] then []
    else Kept(fields, entries[..|entries| - 1]) + KeptOne(fields, entries[|entries| - 1])
  }

  /** `implode(' ', [field, op, '?'])` */
  function Render(c: Condition): string
  {
    c.field + " " + c.op + " ?"
  }

  function Renders(conds: seq<Condition>): (r: seq<string>)
    ensures |r| == |conds| && forall i :: 0 <= i < |conds| ==> r[i] == Render(conds[i])
  {
    seq(|conds|, i requires 0 <= i < |conds| => Render(conds[i]))
  }

  function WhereClause(conds: seq<Condition>): string
  {
    (if |conds| > 0 then " WHERE " else "") + Join(" AND ", Renders(conds))
  }

  /** One `property DIRECTION` item of an array order-by. */
  function OrderItem(p: (string, string)): string
  {
    p.0 + " " + Upper(p.1)
  }

  function OrderItems(pairs: seq<(string, string)>): (r: seq<string>)
    ensures |r| == |pairs| && forall i :: 0 <= i < |pairs| ==> r[i] == OrderItem(pairs[i])
  {
    seq(|pairs|, i requires 0 <= i < |pairs| => OrderItem(pairs[i]))
  }

  /** PHP truthiness of a string. */
  predicate Truthy(s: string) { s != "" && s != "0" }

  /**
   * The ORDER BY part: a known single field ascending; every pair of an
   * array, unchecked; nothing for a falsy argument or an unknown field.
   */
  function OrderClause(fields: seq<string>, orderBy: OrderBy): (r: string)
    ensures r == "" <==> (orderBy.NoOrder? || (orderBy.ByField? && !(Truthy(orderBy.field) && orderBy.field in fields))
                          || (orderBy.ByList? && orderBy.pairs == []))
    ensures orderBy.ByField? && r != "" ==> orderBy.field in fields && r == " ORDER BY " + orderBy.field + " ASC"
    ensures orderBy.ByList? && r != "" ==> r == " ORDER BY " + Join(", ", OrderItems(orderBy.pairs))
  {
    match orderBy
    case NoOrder => ""
    case ByField(f) => if Truthy(f) && f in fields then " ORDER BY " + f + " ASC" else ""
    case ByList(pairs) => if pairs == [] then "" else " ORDER BY " + Join(", ", OrderItems(pairs))
  }

  function SelectSql(table: string, conds: seq<Condition>, order: string): string
  {
    "SELECT * FROM " + table + WhereClause(conds) + order
  }

  function Params(conds: seq<Condition>): (r: seq<Arg>)
    ensures |r| == |conds| && forall i :: 0 <= i < |conds| ==> r[i] == conds[i].param
  {
    seq(|conds|, i requires 0 <= i < |conds| => conds[i].param)
  }

  /** The statement `where` prepares, as a function of its inputs. */
  function SelectStatement(table: string, fields: seq<string>, entries: seq<Entry>, orderBy: OrderBy): Statement
  {
    var conds := Kept(fields, entries);
    Statement(SelectSql(table, conds, OrderClause(fields, orderBy)), PositionalBindings(Params(conds)))
  }

  /**
   * `where` consults the schema (getFields) while filtering each
   * condition and when checking a truthy single order-by field, and
   * nowhere else.
   */
  predicate ReadsSchema(entries: seq<Entry>, orderBy: OrderBy)
  {
    entries != [] || (orderBy.ByField? && Truthy(orderBy.field))
  }

  /** A SELECT that never consults the schema does not depend on it. */
  lemma SelectWithoutSchema(table: string, fields: seq<string>, others: seq<string>, entries: seq<Entry>, orderBy: OrderBy)
    requires !ReadsSchema(entries, orderBy)
    ensures SelectStatement(table, fields, entries, orderBy) == SelectStatement(table, others, entries, orderBy)
  {
  }

  /**
   * The filtering loop of `where`, which builds the conditions and their
   * parameters side by side.
   */
  method FilterConditions(fields: seq<string>, entries: seq<Entry>)
    returns (conditions: seq<Condition>, parameters: seq<Arg>)
    ensures conditions == Kept(fields, entries)
    ensures parameters == Params(conditions)
  {
    conditions := [];
    parameters := [];
    var i := 0;
    while i < |entries|
      invariant 0 <= i <= |entries|
      invariant conditions == Kept(fields, entries[..i])
      invariant |parameters| == |conditions|
      invariant forall k :: 0 <= k < |conditions| ==> parameters[k] == conditions[k].param
    {
      assert entries[..i + 1][..i] == entries[..i];
      var e := entries[i];
      if e.arg.Cond? && e.arg.field in fields {
        parameters := parameters + [Scalar(e.arg.operand)];
        conditions := conditions + [Condition(e.arg.field, e.arg.op, Scalar(e.arg.operand))];
      } else if e.key.Named? && e.key.name in fields {
        conditions := conditions + [Condition(e.key.name, "=", e.arg)];
        parameters := parameters + [e.arg];
      }
      i := i + 1;
    }
    assert entries[..i] == entries;
    assert parameters == Params(conditions);
  }

  /** The ORDER BY branch of `where`, with its loop over an array argument. */
  method BuildOrderBy(fields: seq<string>, orderBy: OrderBy) returns (clause: string)
    ensures clause == OrderClause(fields, orderBy)
  {
    clause := "";
    match orderBy {
      case NoOrder =>
      case ByList(pairs) =>
        if pairs != [] {
          var items: seq<string> := [];
          for j := 0 to |pairs|
            invariant items == OrderItems(pairs[..j])
          {
            items := items + [OrderItem(pairs[j])];
          }
          assert pairs[..|pairs|] == pairs;
          clause := " ORDER BY " + Join(", ", items);
        }
      case ByField(f) =>
        if Truthy(f) && f in fields {
          clause := " ORDER BY " + f + " ASC";
        }
    }
  }

  /**
   * The query assembly of `where`: filtering, the rendering loop, the
   * ORDER BY part and the binding loop.
   */
  method BuildSelect(table: string, fields: seq<string>, entries: seq<Entry>, orderBy: OrderBy)
    returns (stmt: Statement)
    ensures stmt == SelectStatement(table, fields, entries, orderBy)
  {
    var conditions, parameters := FilterConditions(fields, entries);
    var prepared: seq<string> := [];
    var where := "";
    if |conditions| > 0 {
      where := " WHERE ";
      for j := 0 to |conditions|
        invariant prepared == Renders(conditions[..j])
      {
        prepared := prepared + [Render(conditions[j])];
      }
      assert conditions[..|conditions|] == conditions;
    }
    where := where + Join(" AND ", prepared);
    assert where == WhereClause(conditions);
    var order := BuildOrderBy(fields, orderBy);
    var query := "SELECT * FROM " + table + where + order;
    var bindings := BindPositional(parameters);
    stmt := Statement(query, bindings);
  }

  // ---- properties of the SELECT --------------------------------------------------

  /** Keeping distributes over concatenation: conditions keep their order. */
  lemma {:induction false} KeptAppend(fields: seq<string>, a: seq<Entry>, b: seq<Entry>)
    ensures Kept(fields, a + b) == Kept(fields, a) + Kept(fields, b)
  {
    if b != [] {
      var init := b[..|b| - 1];
      assert (a + b)[..|a + b| - 1] == a + init;
      KeptAppend(fields, a, init);
    } else {
      assert a + b == a;
    }
  }

  /** Only schema-known fields reach the WHERE clause. */
  lemma {:induction false} KeptFieldsKnown(fields: seq<string>, entries: seq<Entry>)
    ensures forall i :: 0 <= i < |Kept(fields, entries)| ==> Kept(fields, entries)[i].field in fields
  {
    if entries != [] {
      KeptFieldsKnown(fields, entries[..|entries| - 1]);
    }
  }

  /** A single entry yields a condition exactly when its field or its key is known. */
  lemma {:induction false} KeptSingle(fields: seq<string>, e: Entry)
    ensures |Kept(fields, [e])| == 1 <==> (e.arg.Cond? && e.arg.field in fields) || (e.key.Named? && e.key.name in fields)
    ensures |Kept(fields, [e])| <= 1
    ensures e.arg.Cond? && e.arg.field in fields ==>
      Kept(fields, [e]) == [Condition(e.arg.field, e.arg.op, Scalar(e.arg.operand))]
    ensures !(e.arg.Cond? && e.arg.field in fields) && e.key.Named? && e.key.name in fields ==>
      Kept(fields, [e]) == [Condition(e.key.name, "=", e.arg)]
  {
    assert [e][..0] == [];
  }

  /**
   * With soft deletes on and the marker column known, the last condition
   * of every `where` is `deleted_at = ?` bound to '0', after all of the
   * caller's own.
   */
  lemma {:induction false} SoftDeleteConditionLast(fields: seq<string>, deletedAt: string, entries: seq<Entry>)
    requires deletedAt in fields
    ensures Kept(fields, WhereEntries(true, deletedAt, entries))
      == Kept(fields, entries) + [Condition(deletedAt, "=", Scalar(Str("0")))]
  {
    KeptAppend(fields, entries, [SoftDeleteEntry(deletedAt)]);
    KeptSingle(fields, SoftDeleteEntry(deletedAt));
  }

  lemma {:induction false} RenderPlaceholder(c: Condition)
    requires '?' !in c.field && '?' !in c.op
    ensures Count(Render(c), '?') == 1
  {
    var s := c.field + " " + c.op;
    CountAbsent(s, '?');
    assert Render(c) == s + " " + ['?'];
    CountFreeSuffix(s, " ", '?');
    CountMarkSuffix(s + " ", '?');
  }

  /** No `?` in any schema field name, operator or order-by text. */
  ghost predicate NoMarks(table: string, fields: seq<string>, entries: seq<Entry>, orderBy: OrderBy)
  {
    && '?' !in table
    && (forall i :: 0 <= i < |fields| ==> '?' !in fields[i])
    && (forall i :: 0 <= i < |entries| && entries[i].arg.Cond? ==> '?' !in entries[i].arg.op)
    && (orderBy.ByList? ==> forall i :: 0 <= i < |orderBy.pairs| ==> '?' !in orderBy.pairs[i].0 && '?' !in orderBy.pairs[i].1)
  }

  lemma {:induction false} KeptOpsClean(fields: seq<string>, entries: seq<Entry>)
    requires forall i :: 0 <= i < |entries| && entries[i].arg.Cond? ==> '?' !in entries[i].arg.op
    ensures forall i :: 0 <= i < |Kept(fields, entries)| ==> Kept(fields, entries)[i].op == "=" || '?' !in Kept(fields, entries)[i].op
  {
    if entries != [] {
      KeptOpsClean(fields, entries[..|entries| - 1]);
    }
  }

  lemma {:induction false} UpperKeepsMarks(s: string)
    requires '?' !in s
    ensures '?' !in Upper(s)
  {
  }

  lemma {:induction false} OrderClausePlaceholders(fields: seq<string>, orderBy: OrderBy)
    requires forall i :: 0 <= i < |fields| ==> '?' !in fields[i]
    requires orderBy.ByList? ==> forall i :: 0 <= i < |orderBy.pairs| ==> '?' !in orderBy.pairs[i].0 && '?' !in orderBy.pairs[i].1
    ensures Count(OrderClause(fields, orderBy), '?') == 0
  {
    var r := OrderClause(fields, orderBy);
    match orderBy
    case NoOrder =>
    case ByField(f) =>
      if r != "" {
        CountAbsent(r, '?');
      }
    case ByList(pairs) =>
      if r != "" {
        var items := OrderItems(pairs);
        forall i | 0 <= i < |items| ensures Count(items[i], '?') == 0 {
          UpperKeepsMarks(pairs[i].1);
          CountAbsent(items[i], '?');
        }
        CountJoinNone(", ", items, '?');
        CountFreePrefix(" ORDER BY ", Join(", ", items), '?');
      }
  }

  /** Each rendered kept condition holds exactly one placeholder. */
  lemma {:induction false} RendersHoldOne(fields: seq<string>, entries: seq<Entry>)
    requires forall i :: 0 <= i < |fields| ==> '?' !in fields[i]
    requires forall i :: 0 <= i < |entries| && entries[i].arg.Cond? ==> '?' !in entries[i].arg.op
    ensures forall i :: 0 <= i < |Kept(fields, entries)| ==> Count(Render(Kept(fields, entries)[i]), '?') == 1
  {
    var conds := Kept(fields, entries);
    KeptFieldsKnown(fields, entries);
    KeptOpsClean(fields, entries);
    forall i | 0 <= i < |conds| ensures Count(Render(conds[i]), '?') == 1 {
      var c := conds[i];
      assert c.field in fields;
      var k :| 0 <= k < |fields| && fields[k] == c.field;
      RenderPlaceholder(c);
    }
  }

  lemma {:induction false} WherePlaceholders(fields: seq<string>, entries: seq<Entry>)
    requires forall i :: 0 <= i < |fields| ==> '?' !in fields[i]
    requires forall i :: 0 <= i < |entries| && entries[i].arg.Cond? ==> '?' !in entries[i].arg.op
    ensures Count(WhereClause(Kept(fields, entries)), '?') == |Kept(fields, entries)|
  {
    var conds := Kept(fields, entries);
    var rs := Renders(conds);
    RendersHoldOne(fields, entries);
    CountJoinOnce(" AND ", rs, '?');
    if |conds| > 0 {
      CountFreePrefix(" WHERE ", Join(" AND ", rs), '?');
    } else {
      assert WhereClause(conds) == Join(" AND ", rs);
    }
  }

  /**
   * The SELECT of `where` holds exactly one `?` per bound parameter, as
   * long as no identifier, operator or order-by text itself holds a `?`.
   */
  lemma {:induction false} SelectPlaceholders(table: string, fields: seq<string>, entries: seq<Entry>, orderBy: OrderBy)
    requires NoMarks(table, fields, entries, orderBy)
    ensures var stmt := SelectStatement(table, fields, entries, orderBy);
      Count(stmt.sql, '?') == |stmt.bindings| == |Kept(fields, entries)|
  {
    var where := WhereClause(Kept(fields, entries));
    var order := OrderClause(fields, orderBy);
    WherePlaceholders(fields, entries);
    OrderClausePlaceholders(fields, orderBy);
    var head := "SELECT * FROM " + table;
    CountAbsent(head, '?');
    CountAppend(head, where, '?');
    CountAppend(head + where, order, '?');
  }

  /**
   * Parameter i + 1 is bound to the i-th kept condition, and that
   * condition's `?` is the (i + 1)-th of the SELECT text: the text up to
   * and including the i-th rendered condition starts the SELECT, ends
   * with that rendering, and holds i + 1 placeholders.
   */
  lemma {:induction false} SelectPlaceholderOrder(table: string, fields: seq<string>, entries: seq<Entry>, orderBy: OrderBy, i: nat)
    requires NoMarks(table, fields, entries, orderBy)
    requires i < |Kept(fields, entries)|
    ensures var conds := Kept(fields, entries);
      var stmt := SelectStatement(table, fields, entries, orderBy);
      var upTo := "SELECT * FROM " + table + " WHERE " + Join(" AND ", Renders(conds)[..i + 1]);
      && upTo <= stmt.sql
      && |Render(conds[i])| <= |upTo| && upTo[|upTo| - |Render(conds[i])|..] == Render(conds[i])
      && Count(upTo, '?') == i + 1
      && stmt.bindings[i] == Binding(Pos(i + 1), conds[i].param)
  {
    RendersHoldOne(fields, entries);
    ConditionOrder(table, Kept(fields, entries), OrderClause(fields, orderBy), i);
  }

  /** SelectPlaceholderOrder for any conditions whose renderings hold one `?` each. */
  lemma ConditionOrder(table: string, conds: seq<Condition>, order: string, i: nat)
    requires '?' !in table
    requires forall k :: 0 <= k < |conds| ==> Count(Render(conds[k]), '?') == 1
    requires i < |conds|
    ensures var upTo := "SELECT * FROM " + table + " WHERE " + Join(" AND ", Renders(conds)[..i + 1]);
      && upTo <= SelectSql(table, conds, order)
      && |Render(conds[i])| <= |upTo| && upTo[|upTo| - |Render(conds[i])|..] == Render(conds[i])
      && Count(upTo, '?') == i + 1
  {
    var rs := Renders(conds);
    assert SelectSql(table, conds, order) == "SELECT * FROM " + table + " WHERE " + Join(" AND ", rs) + order;
    SelectHeadFree(table);
    JoinUpTo("SELECT * FROM " + table + " WHERE ", " AND ", rs, order, i + 1, '?');
  }

  /** The fixed SELECT text around the conditions holds no placeholder. */
  lemma SelectHeadFree(table: string)
    requires '?' !in table
    ensures '?' !in "SELECT * FROM " + table + " WHERE " && '?' !in " AND "
  {
  }

  /**
   * MySQL's `=` between a stored value and a bound one: equal values, or
   * an integer against text, which compares the text's number.
   */
  predicate SqlEqual(a: Value, b: Value)
  {
    a == b || (a.Int? && b.Str? && a.i == ToInt(b)) || (a.Str? && b.Int? && ToInt(a) == b.i)
  }

  /**
   * A row meets the equality conditions among `conds`, compared as MySQL
   * compares them; conditions with other operators, or bound to an array,
   * are not evaluated.
   */
  ghost predicate MeetsEqualities(row: map<string, Value>, conds: seq<Condition>)
  {
    forall i :: 0 <= i < |conds| && conds[i].op == "=" && conds[i].param.Scalar? ==> SqlEqual(Get(row, conds[i].field), conds[i].param.value)
  }

  /** The text '0' reads as the number 0. */
  lemma ZeroText()
    ensures ToInt(Str("0")) == 0
  {
    assert DecimalString(0) == "0";
    DecimalRoundTrip(0);
  }

  /**
   * With soft deletes on, every row that meets the conditions of a
   * `where` has its deleted-at marker at '0' or at the number 0: a plain
   * `where` never returns a soft-deleted row.
   */
  lemma SoftDeletedRowsExcluded(fields: seq<string>, deletedAt: string, entries: seq<Entry>, row: map<string, Value>)
    requires deletedAt in fields
    requires MeetsEqualities(row, Kept(fields, WhereEntries(true, deletedAt, entries)))
    ensures Get(row, deletedAt) == Str("0") || Get(row, deletedAt) == Int(0)
  {
    SoftDeleteConditionLast(fields, deletedAt, entries);
    var conds := Kept(fields, WhereEntries(true, deletedAt, entries));
    assert conds[|conds| - 1] == Condition(deletedAt, "=", Scalar(Str("0")));
    MeetsAt(row, conds, |conds| - 1);
    ZeroText();
  }

  /**
   * Since the marker condition is appended to the caller's, asking for
   * the rows soft-deleted at a time t (`deleted_at => t`, where a soft
   * delete stamps a time after the epoch, so t is not 0) still requires
   * `deleted_at = '0'`: no row meets both.
   */
  lemma DeletedRowsUnreachable(fields: seq<string>, deletedAt: string, t: int, row: map<string, Value>)
    requires deletedAt in fields
    requires t != 0
    ensures !MeetsEqualities(row, Kept(fields, WhereEntries(true, deletedAt, [Entry(Named(deletedAt), Scalar(Int(t)))])))
  {
    var e := Entry(Named(deletedAt), Scalar(Int(t)));
    SoftDeleteConditionLast(fields, deletedAt, [e]);
    KeptSingle(fields, e);
    var conds := Kept(fields, WhereEntries(true, deletedAt, [e]));
    var asked := Kept(fields, [e]);
    assert asked == [Condition(deletedAt, "=", Scalar(Int(t)))];
    assert conds == asked + [Condition(deletedAt, "=", Scalar(Str("0")))];
    ZeroText();
    if MeetsEqualities(row, conds) {
      MeetsAt(row, conds, 0);
      MeetsAt(row, conds, 1);
    }
  }

  /** A row that meets the equalities meets each one of them. */
  lemma MeetsAt(row: map<string, Value>, conds: seq<Condition>, i: nat)
    requires MeetsEqualities(row, conds) && i < |conds| && conds[i].op == "=" && conds[i].param.Scalar?
    ensures SqlEqual(Get(row, conds[i].field), conds[i].param.value)
  {
  }

  // ---- INSERT ------------------------------------------------------------------

  /** The INSERT columns: schema fields in order, except `id` and unset ones. */
  function InsertColumns(fields: seq<string>, props: map<string, Value>): seq<string>
  {
    if fields == [] then []
    else
      var f := fields[|fields| - 1];
      InsertColumns(fields[..|fields| - 1], props) + (if f != "id" && Isset(Get(props, f)) then [f] else [])
  }

  /** The values bound for some columns: the record's property of each. */
  function ValuesOf(cols: seq<string>, props: map<string, Value>): (r: seq<Arg>)
    ensures |r| == |cols| && forall i :: 0 <= i < |cols| ==> r[i] == Scalar(Get(props, cols[i]))
  {
    seq(|cols|, i requires 0 <= i < |cols| => Scalar(Get(props, cols[i])))
  }

  function InsertSql(table: string, cols: seq<string>): string
  {
    "INSERT INTO " + table + " (`" + Join("`, `", cols) + "`) VALUES (" + Join(", ", Repeat("?", |cols|)) + ")"
  }

  /** The query assembly of `create`: the column loop and the binding loop. */
  method BuildInsert(table: string, fields: seq<string>, props: map<string, Value>) returns (stmt: Statement)
    ensures stmt.sql == InsertSql(table, InsertColumns(fields, props))
    ensures stmt.bindings == PositionalBindings(ValuesOf(InsertColumns(fields, props), props))
  {
    var cols: seq<string> := [];
    var values: seq<Arg> := [];
    var placeholders: seq<string> := [];
    for i := 0 to |fields|
      invariant cols == InsertColumns(fields[..i], props)
      invariant values == ValuesOf(cols, props)
      invariant placeholders == Repeat("?", |cols|)
    {
      assert fields[..i + 1][..i] == fields[..i];
      var f := fields[i];
      if Isset(Get(props, f)) && f != "id" {
        cols := cols + [f];
        values := values + [Scalar(Get(props, f))];
        placeholders := placeholders + ["?"];
      }
    }
    assert fields[..|fields|] == fields;
    var query := "INSERT INTO " + table + " (`" + Join("`, `", cols) + "`) VALUES (" + Join(", ", placeholders) + ")";
    var bindings := BindPositional(values);
    stmt := Statement(query, bindings);
  }

  /** A field is inserted exactly when it is a schema field other than `id` and is set. */
  lemma {:induction false} InsertColumnsMembership(fields: seq<string>, props: map<string, Value>, f: string)
    ensures f in InsertColumns(fields, props) <==> f in fields && f != "id" && Isset(Get(props, f))
  {
    if fields != [] {
      InsertColumnsMembership(fields[..|fields| - 1], props, f);
      assert fields == fields[..|fields| - 1] + [fields[|fields| - 1]];
    }
  }

  /** The INSERT columns come in schema order. */
  lemma {:induction false} InsertColumnsAppend(a: seq<string>, b: seq<string>, props: map<string, Value>)
    ensures InsertColumns(a + b, props) == InsertColumns(a, props) + InsertColumns(b, props)
  {
    if b != [] {
      assert (a + b)[..|a + b| - 1] == a + b[..|b| - 1];
      InsertColumnsAppend(a, b[..|b| - 1], props);
    } else {
      assert a + b == a;
    }
  }

  lemma {:induction false} InsertHeadCount(table: string, cols: seq<string>)
    requires '?' !in table && forall i :: 0 <= i < |cols| ==> '?' !in cols[i]
    ensures Count("INSERT INTO " + table + " (`" + Join("`, `", cols) + "`) VALUES (", '?') == 0
  {
    forall i | 0 <= i < |cols| ensures Count(cols[i], '?') == 0 {
      CountAbsent(cols[i], '?');
    }
    CountJoinNone("`, `", cols, '?');
    var p := "INSERT INTO " + table + " (`";
    CountFreePrefix(p, Join("`, `", cols), '?');
    CountFreeSuffix(p + Join("`, `", cols), "`) VALUES (", '?');
  }

  /** The INSERT holds one `?` per column and per binding. */
  lemma {:induction false} InsertPlaceholders(table: string, cols: seq<string>, props: map<string, Value>)
    requires '?' !in table && forall i :: 0 <= i < |cols| ==> '?' !in cols[i]
    ensures Count(InsertSql(table, cols), '?') == |cols| == |PositionalBindings(ValuesOf(cols, props))|
  {
    var head := "INSERT INTO " + table + " (`" + Join("`, `", cols) + "`) VALUES (";
    InsertHeadCount(table, cols);
    var qs := Repeat("?", |cols|);
    forall i | 0 <= i < |qs| ensures Count(qs[i], '?') == 1 {
      CountMarkSuffix("", '?');
      assert qs[i] == "" + ['?'];
    }
    CountJoinOnce(", ", qs, '?');
    CountAppend(head, Join(", ", qs), '?');
    CountFreeSuffix(head + Join(", ", qs), ")", '?');
  }

  // ---- UPDATE ------------------------------------------------------------------

  /** The SET columns: every schema field except `id`, in order. */
  function UpdateColumns(fields: seq<string>): seq<string>
  {
    if fields == [] then []
    else
      var f := fields[|fields| - 1];
      UpdateColumns(fields[..|fields| - 1]) + (if f != "id" then [f] else [])
  }

  function UpdateSql(table: string, cols: seq<string>): string
  {
    "UPDATE " + table + " SET " + Join(" = ?, ", cols) + " = ? WHERE id = ?"
  }

  /** The bindings of `save`: each SET value, then the id at position n+1. */
  function UpdateBindings(cols: seq<string>, props: map<string, Value>): seq<Binding>
  {
    PositionalBindings(ValuesOf(cols, props)) + [Binding(Pos(|cols| + 1), Scalar(Get(props, "id")))]
  }

  /**
   * The query assembly of `save`, as written: the column loop, the
   * binding loop, and the id bound at the position the loop counter
   * reached.
   */
  method BuildUpdate(table: string, fields: seq<string>, props: map<string, Value>) returns (stmt: Statement)
    ensures stmt.sql == UpdateSql(table, UpdateColumns(fields))
    ensures stmt.bindings == UpdateBindings(UpdateColumns(fields), props)
  {
    var cols: seq<string> := [];
    var values: seq<Arg> := [];
    for k := 0 to |fields|
      invariant cols == UpdateColumns(fields[..k])
      invariant values == ValuesOf(cols, props)
    {
      assert fields[..k + 1][..k] == fields[..k];
      if fields[k] != "id" {
        cols := cols + [fields[k]];
        values := values + [Scalar(Get(props, fields[k]))];
      }
    }
    assert fields[..|fields|] == fields;
    var query := "UPDATE " + table + " SET " + Join(" = ?, ", cols) + " = ? WHERE id = ?";
    var bindings: seq<Binding> := [];
    var i := 1;
    while i <= |cols|
      invariant 1 <= i <= |cols| + 1
      invariant |bindings| == i - 1
      invariant forall k :: 0 <= k < i - 1 ==> bindings[k] == Binding(Pos(k + 1), values[k])
    {
      bindings := bindings + [Binding(Pos(i), values[i - 1])];
      i := i + 1;
    }
    assert bindings == PositionalBindings(values);
    bindings := bindings + [Binding(Pos(i), Scalar(Get(props, "id")))];
    stmt := Statement(query, bindings);
  }

  lemma {:induction false} UpdateColumnsMembership(fields: seq<string>, f: string)
    ensures f in UpdateColumns(fields) <==> f in fields && f != "id"
  {
    if fields != [] {
      UpdateColumnsMembership(fields[..|fields| - 1], f);
      assert fields == fields[..|fields| - 1] + [fields[|fields| - 1]];
    }
  }

  /**
   * With at least one column, the UPDATE holds n+1 placeholders for its
   * n+1 bindings, and the last binding is the id at position n+1.
   */
  lemma {:induction false} UpdatePlaceholders(table: string, cols: seq<string>, props: map<string, Value>)
    requires cols != []
    requires '?' !in table && forall i :: 0 <= i < |cols| ==> '?' !in cols[i]
    ensures Count(UpdateSql(table, cols), '?') == |cols| + 1 == |UpdateBindings(cols, props)|
    ensures UpdateBindings(cols, props)[|cols|] == Binding(Pos(|cols| + 1), Scalar(Get(props, "id")))
  {
    UpdateCount(table, cols);
  }

  lemma SetSeparatorCount()
    ensures Count(" = ?, ", '?') == 1
  {
    assert " = ?, " == " = " + ['?'] + ", ";
    CountOnce(" = ", '?', ", ");
  }

  /** The text after the SET list adds two placeholders: the last column's and the id's. */
  lemma UpdateTailCount(s: string)
    ensures Count(s + " = ? WHERE id = ?", '?') == Count(s, '?') + 2
  {
    var a := s + " = ";
    var b := a + ['?'] + " WHERE id = ";
    assert s + " = ? WHERE id = ?" == b + ['?'];
    CountFreeSuffix(s, " = ", '?');
    CountMarkSuffix(a, '?');
    CountFreeSuffix(a + ['?'], " WHERE id = ", '?');
    CountMarkSuffix(b, '?');
  }

  lemma {:induction false} SetListCount(cols: seq<string>)
    requires forall i :: 0 <= i < |cols| ==> '?' !in cols[i]
    ensures Count(Join(" = ?, ", cols), '?') == if cols == [] then 0 else |cols| - 1
  {
    forall i | 0 <= i < |cols| ensures Count(cols[i], '?') == 0 {
      CountAbsent(cols[i], '?');
    }
    SetSeparatorCount();
    CountJoinSeparators(" = ?, ", cols, '?');
  }

  lemma {:induction false} UpdateCount(table: string, cols: seq<string>)
    requires '?' !in table && forall i :: 0 <= i < |cols| ==> '?' !in cols[i]
    ensures Count(UpdateSql(table, cols), '?') == if cols == [] then 2 else |cols| + 1
  {
    SetListCount(cols);
    var p := "UPDATE " + table + " SET ";
    CountFreePrefix(p, Join(" = ?, ", cols), '?');
    UpdateTailCount(p + Join(" = ?, ", cols));
  }

  /**
   * As written, `save` on a table whose only column is `id` prepares
   * `UPDATE t SET  = ? WHERE id = ?`: two placeholders, one binding.
   */
  lemma {:induction false} IdOnlyUpdateMismatch(table: string, props: map<string, Value>)
    requires '?' !in table
    ensures UpdateColumns(["id"]) == []
    ensures UpdateSql(table, []) == "UPDATE " + table + " SET  = ? WHERE id = ?"
    ensures Count(UpdateSql(table, UpdateColumns(["id"])), '?') == 2
    ensures |UpdateBindings(UpdateColumns(["id"]), props)| == 1
  {
    assert ["id"][..0] == [];
    UpdateCount(table, []);
  }

  /**
   * The UPDATE of `save`, corrected: no statement at all when there is
   * no column to set (the empty payload), otherwise the one above.
   */
  method PrepareUpdate(table: string, fields: seq<string>, props: map<string, Value>) returns (stmt: Option<Statement>)
    ensures stmt.None? <==> UpdateColumns(fields) == []
    ensures stmt.Some? ==> stmt.value.sql == UpdateSql(table, UpdateColumns(fields))
    ensures stmt.Some? ==> stmt.value.bindings == UpdateBindings(UpdateColumns(fields), props)
    ensures stmt.Some? && '?' !in table && (forall i :: 0 <= i < |fields| ==> '?' !in fields[i]) ==>
      Count(stmt.value.sql, '?') == |stmt.value.bindings|
  {
    var cols := UpdateColumns(fields);
    if cols == [] {
      stmt := None;
    } else {
      var s := BuildUpdate(table, fields, props);
      stmt := Some(s);
      if '?' !in table && (forall i :: 0 <= i < |fields| ==> '?' !in fields[i]) {
        forall i | 0 <= i < |cols| ensures '?' !in cols[i] {
          UpdateColumnsMembership(fields, cols[i]);
          var k :| 0 <= k < |fields| && fields[k] == cols[i];
        }
        UpdatePlaceholders(table, cols, props);
      }
    }
  }

  // ---- DELETE ------------------------------------------------------------------

  /** The hard delete: the id bound by name to `:Id`. */
  function DeleteStatement(table: string, id: Value): Statement
  {
    Statement("DELETE FROM " + table + " WHERE id = :Id", [Binding(Name("Id"), Scalar(id))])
  }
}
