/**
 * Relationship resolution: the key each kind of relationship looks up
 * by, the one-level guard against reciprocal declarations, and the
 * lookups the constructor attaches as properties.  A lookup is recorded
 * as a value (the target type and its condition) rather than executed.
 */
module Relations {
  import opened Optional
  import opened Coercion
  import opened Config
  import opened Query

  /** The declared record types, by fully qualified class name. */
  type Registry = map<string, RecordType>

  /** What hasRelationship and belongsRelationship return: `field` must equal `value`. */
  datatype RelationKey = RelationKey(field: string, value: Value)

  /** `Target::find(value, field)` or `Target::where([field => value])`. */
  datatype Lookup =
    | FindOne(target: string, field: string, value: Value)
    | FindMany(target: string, field: string, value: Value)

  datatype Kind = HasOneKind | HasManyKind | BelongsToKind | BelongsToManyKind

  /** A key argument that PHP's `!$key` does not replace: set and truthy. */
  function KeyOr(key: Option<string>, default: string): (r: string)
    ensures key.Some? && Truthy(key.value) ==> r == key.value
    ensures !(key.Some? && Truthy(key.value)) ==> r == default
  {
    if key.Some? && Truthy(key.value) then key.value else default
  }

  /**
   * hasRelationship: the foreign key defaults to `<ownerTable>_id`, the
   * local key to `id`; the value is the owner's local-key property.
   */
  function HasRelationship(owner: RecordType, props: map<string, Value>, fk: Option<string>, lk: Option<string>): RelationKey
  {
    RelationKey(KeyOr(fk, TableName(owner) + "_id"), Get(props, KeyOr(lk, "id")))
  }

  /**
   * belongsRelationship: the foreign key defaults to `id`, the local key
   * to `<targetTable>_id`.
   */
  function BelongsRelationship(target: RecordType, props: map<string, Value>, fk: Option<string>, lk: Option<string>): RelationKey
  {
    RelationKey(KeyOr(fk, "id"), Get(props, KeyOr(lk, TableName(target) + "_id")))
  }

  function HasOne(owner: RecordType, target: RecordType, props: map<string, Value>, fk: Option<string>, lk: Option<string>): (l: Lookup)
    ensures l.FindOne? && l.target == target.name
    ensures l.field == KeyOr(fk, TableName(owner) + "_id") && l.value == Get(props, KeyOr(lk, "id"))
  {
    var k := HasRelationship(owner, props, fk, lk);
    FindOne(target.name, k.field, k.value)
  }

  function HasMany(owner: RecordType, target: RecordType, props: map<string, Value>, fk: Option<string>, lk: Option<string>): (l: Lookup)
    ensures l.FindMany? && l.target == target.name
    ensures l.field == KeyOr(fk, TableName(owner) + "_id") && l.value == Get(props, KeyOr(lk, "id"))
  {
    var k := HasRelationship(owner, props, fk, lk);
    FindMany(target.name, k.field, k.value)
  }

  function BelongsTo(target: RecordType, props: map<string, Value>, fk: Option<string>, lk: Option<string>): (l: Lookup)
    ensures l.FindOne? && l.target == target.name
    ensures l.field == KeyOr(fk, "id") && l.value == Get(props, KeyOr(lk, TableName(target) + "_id"))
  {
    var k := BelongsRelationship(target, props, fk, lk);
    FindOne(target.name, k.field, k.value)
  }

  /** belongsToMany keys like hasMany, from the owner's side. */
  function BelongsToMany(owner: RecordType, target: RecordType, props: map<string, Value>, fk: Option<string>, lk: Option<string>): (l: Lookup)
    ensures l.FindMany? && l.target == target.name
    ensures l.field == KeyOr(fk, TableName(owner) + "_id") && l.value == Get(props, KeyOr(lk, "id"))
  {
    var k := HasRelationship(owner, props, fk, lk);
    FindMany(target.name, k.field, k.value)
  }

  /** The condition array a lookup passes to `where`. */
  function LookupEntries(l: Lookup): seq<Entry>
  {
    [Entry(Named(l.field), Scalar(l.value))]
  }

  /** `in_array(name, rels)` on a `property => class` array: some relationship of the array targets `name`. */
  predicate Lists(rels: seq<Relation>, name: string)
    decreases |rels|
  {
    rels != [] && (rels[0].target == name || Lists(rels[1..], name))
  }

  /** Lists holds exactly when some position of the array names the target. */
  lemma {:induction false} ListsAt(rels: seq<Relation>, name: string)
    ensures Lists(rels, name) <==> exists j :: 0 <= j < |rels| && rels[j].target == name
  {
    if rels != [] {
      ListsAt(rels[1..], name);
      if Lists(rels[1..], name) {
        var j :| 0 <= j < |rels[1..]| && rels[1..][j].target == name;
        assert rels[j + 1].target == name;
      }
      if j :| 0 <= j < |rels| && rels[j].target == name {
        if j > 0 {
          assert rels[1..][j - 1].target == name;
        }
      }
    }
  }

  /** The target declares a hasOne or hasMany whose target is the owner. */
  predicate Reciprocal(owner: RecordType, target: RecordType)
  {
    Lists(target.hasOne, owner.name) || Lists(target.hasMany, owner.name)
  }

  /** The constructor's `continue`: only belongsTo and belongsToMany are guarded. */
  predicate Skipped(kind: Kind, owner: RecordType, target: RecordType)
  {
    (kind.BelongsToKind? || kind.BelongsToManyKind?) && Reciprocal(owner, target)
  }

  /** The lookup the constructor makes for one declared relationship, with default keys. */
  function Resolve(kind: Kind, owner: RecordType, target: RecordType, props: map<string, Value>): (l: Lookup)
    ensures l.target == target.name
    ensures l.FindOne? <==> kind.HasOneKind? || kind.BelongsToKind?
  {
    match kind
    case HasOneKind => HasOne(owner, target, props, None, None)
    case HasManyKind => HasMany(owner, target, props, None, None)
    case BelongsToKind => BelongsTo(target, props, None, None)
    case BelongsToManyKind => BelongsToMany(owner, target, props, None, None)
  }

  /** Each registered type is registered under its own class name. */
  ghost predicate Consistent(reg: Registry)
  {
    forall k :: k in reg ==> reg[k].name == k
  }

  ghost predicate Registered(rels: seq<Relation>, reg: Registry)
  {
    forall i :: 0 <= i < |rels| ==> rels[i].target in reg
  }

  ghost predicate AllRegistered(owner: RecordType, reg: Registry)
  {
    Registered(owner.hasOne, reg) && Registered(owner.hasMany, reg)
    && Registered(owner.belongsTo, reg) && Registered(owner.belongsToMany, reg)
  }

  /** The assignment one declared relationship produces: none when the guard skips it. */
  function PairOf(kind: Kind, owner: RecordType, target: RecordType, props: map<string, Value>, property: string): seq<(string, Lookup)>
  {
    if Skipped(kind, owner, target) then [] else [(property, Resolve(kind, owner, target, props))]
  }

  /** The `property => lookup` assignments one relationship array produces, in order. */
  function Pairs(kind: Kind, owner: RecordType, reg: Registry, props: map<string, Value>, rels: seq<Relation>): seq<(string, Lookup)>
    requires Registered(rels, reg)
  {
    if rels == [] then []
    else
      var r := rels[|rels| - 1];
      Pairs(kind, owner, reg, props, rels[..|rels| - 1]) + PairOf(kind, owner, reg[r.target], props, r.property)
  }

  /** Every assignment of the constructor's four relationship loops, in order. */
  function Declared(owner: RecordType, reg: Registry, props: map<string, Value>): seq<(string, Lookup)>
    requires AllRegistered(owner, reg)
  {
    Pairs(HasOneKind, owner, reg, props, owner.hasOne)
      + Pairs(HasManyKind, owner, reg, props, owner.hasMany)
      + Pairs(BelongsToKind, owner, reg, props, owner.belongsTo)
      + Pairs(BelongsToManyKind, owner, reg, props, owner.belongsToMany)
  }

  /** Assigning properties in order: a later assignment to the same property wins. */
  function Assign(m: map<string, Lookup>, pairs: seq<(string, Lookup)>): map<string, Lookup>
  {
    if pairs == [] then m
    else Assign(m, pairs[..|pairs| - 1])[pairs[|pairs| - 1].0 := pairs[|pairs| - 1].1]
  }

  lemma PairsSnoc(kind: Kind, owner: RecordType, reg: Registry, props: map<string, Value>, rels: seq<Relation>, i: nat)
    requires Registered(rels, reg) && i < |rels|
    ensures Registered(rels[..i], reg) && Registered(rels[..i + 1], reg)
    ensures Pairs(kind, owner, reg, props, rels[..i + 1])
      == Pairs(kind, owner, reg, props, rels[..i]) + PairOf(kind, owner, reg[rels[i].target], props, rels[i].property)
  {
    assert rels[..i + 1][..i] == rels[..i];
  }

  /** One relationship loop of the constructor. */
  method AttachKind(kind: Kind, owner: RecordType, reg: Registry, props: map<string, Value>, rels: seq<Relation>,
                    m: map<string, Lookup>) returns (r: map<string, Lookup>)
    requires Registered(rels, reg)
    ensures r == Assign(m, Pairs(kind, owner, reg, props, rels))
  {
    r := m;
    for i := 0 to |rels|
      invariant r == Assign(m, Pairs(kind, owner, reg, props, rels[..i]))
    {
      PairsSnoc(kind, owner, reg, props, rels, i);
      ghost var ps := Pairs(kind, owner, reg, props, rels[..i]);
      var target := reg[rels[i].target];
      ghost var q := PairOf(kind, owner, target, props, rels[i].property);
      AssignAppend(m, ps, q);
      if Skipped(kind, owner, target) {
        continue;
      }
      AssignOne(Assign(m, ps), q[0]);
      r := r[rels[i].property := Resolve(kind, owner, target, props)];
    }
    assert rels[..|rels|] == rels;
  }

  /** The constructor's four relationship loops: hasOne, hasMany, belongsTo, belongsToMany. */
  method AttachAll(owner: RecordType, reg: Registry, props: map<string, Value>, m: map<string, Lookup>)
    returns (r: map<string, Lookup>)
    requires AllRegistered(owner, reg)
    ensures r == Assign(m, Declared(owner, reg, props))
  {
    var a := Pairs(HasOneKind, owner, reg, props, owner.hasOne);
    var b := Pairs(HasManyKind, owner, reg, props, owner.hasMany);
    var c := Pairs(BelongsToKind, owner, reg, props, owner.belongsTo);
    var d := Pairs(BelongsToManyKind, owner, reg, props, owner.belongsToMany);
    r := AttachKind(HasOneKind, owner, reg, props, owner.hasOne, m);
    r := AttachKind(HasManyKind, owner, reg, props, owner.hasMany, r);
    AssignAppend(m, a, b);
    r := AttachKind(BelongsToKind, owner, reg, props, owner.belongsTo, r);
    AssignAppend(m, a + b, c);
    r := AttachKind(BelongsToManyKind, owner, reg, props, owner.belongsToMany, r);
    AssignAppend(m, a + b + c, d);
  }

  // ---- properties ----------------------------------------------------------------

  lemma AssignOne(m: map<string, Lookup>, p: (string, Lookup))
    ensures Assign(m, [p]) == m[p.0 := p.1]
  {
    assert [p][..0] == [];
  }

  lemma {:induction false} AssignAppend(m: map<string, Lookup>, a: seq<(string, Lookup)>, b: seq<(string, Lookup)>)
    ensures Assign(m, a + b) == Assign(Assign(m, a), b)
  {
    if b != [] {
      assert (a + b)[..|a + b| - 1] == a + b[..|b| - 1];
      AssignAppend(m, a, b[..|b| - 1]);
    } else {
      assert a + b == a;
    }
  }

  /**
   * After the assignments, a property holds the lookup of the LAST
   * assignment to it, and properties nobody assigned are untouched.
   */
  lemma {:induction false} AssignLastWins(m: map<string, Lookup>, pairs: seq<(string, Lookup)>, k: string)
    ensures (exists i :: 0 <= i < |pairs| && pairs[i].0 == k) ==>
      (exists i :: (0 <= i < |pairs| && pairs[i].0 == k && k in Assign(m, pairs) && Assign(m, pairs)[k] == pairs[i].1
                   && forall j :: i < j < |pairs| ==> pairs[j].0 != k))
    ensures (forall i :: 0 <= i < |pairs| ==> pairs[i].0 != k) ==>
      (k in Assign(m, pairs) <==> k in m) && (k in m ==> Assign(m, pairs)[k] == m[k])
  {
    if pairs != [] {
      var init := pairs[..|pairs| - 1];
      AssignLastWins(m, init, k);
      if pairs[|pairs| - 1].0 != k {
        if exists i :: 0 <= i < |pairs| && pairs[i].0 == k {
          var i :| 0 <= i < |pairs| && pairs[i].0 == k;
          assert init[i].0 == k;
        }
      }
    }
  }

  /**
   * The guard: a relationship yields an assignment exactly when it is not
   * a belongsTo/belongsToMany whose target lists the owner among its own
   * hasOne/hasMany targets; and what it assigns is the default-key lookup.
   */
  lemma {:induction false} PairsSingle(kind: Kind, owner: RecordType, reg: Registry, props: map<string, Value>, r: Relation)
    requires r.target in reg
    ensures Pairs(kind, owner, reg, props, [r]) == []
      <==> ((kind.BelongsToKind? || kind.BelongsToManyKind?) && Reciprocal(owner, reg[r.target]))
    ensures Pairs(kind, owner, reg, props, [r]) != [] ==>
      Pairs(kind, owner, reg, props, [r]) == [(r.property, Resolve(kind, owner, reg[r.target], props))]
  {
    assert [r][..0] == [];
  }

  lemma {:induction false} PairsAppend(kind: Kind, owner: RecordType, reg: Registry, props: map<string, Value>, a: seq<Relation>, b: seq<Relation>)
    requires Registered(a, reg) && Registered(b, reg)
    ensures Registered(a + b, reg)
    ensures Pairs(kind, owner, reg, props, a + b) == Pairs(kind, owner, reg, props, a) + Pairs(kind, owner, reg, props, b)
  {
    if b != [] {
      var n := |b| - 1;
      assert (a + b)[..|a + b| - 1] == a + b[..n];
      assert (a + b)[|a + b| - 1] == b[n];
      assert Registered(b[..n], reg);
      PairsAppend(kind, owner, reg, props, a, b[..n]);
    } else {
      assert a + b == a;
    }
  }

  /**
   * Relationships the guard does not skip each yield their one assignment,
   * in order; hasOne and hasMany are never skipped.
   */
  lemma {:induction false} UnskippedPairs(kind: Kind, owner: RecordType, reg: Registry, props: map<string, Value>, rels: seq<Relation>)
    requires Registered(rels, reg)
    requires kind.HasOneKind? || kind.HasManyKind? || forall i :: 0 <= i < |rels| ==> !Skipped(kind, owner, reg[rels[i].target])
    ensures |Pairs(kind, owner, reg, props, rels)| == |rels|
    ensures forall i :: 0 <= i < |rels| ==>
      Pairs(kind, owner, reg, props, rels)[i] == (rels[i].property, Resolve(kind, owner, reg[rels[i].target], props))
  {
    assert Unguarded(kind, owner, reg, rels);
    UnskippedCount(kind, owner, reg, props, rels);
    forall i | 0 <= i < |rels|
      ensures Pairs(kind, owner, reg, props, rels)[i] == (rels[i].property, Resolve(kind, owner, reg[rels[i].target], props))
    {
      UnskippedAt(kind, owner, reg, props, rels, i);
    }
  }

  /** No relationship of the array is skipped by the guard. */
  ghost predicate Unguarded(kind: Kind, owner: RecordType, reg: Registry, rels: seq<Relation>)
    requires Registered(rels, reg)
  {
    kind.HasOneKind? || kind.HasManyKind? || forall i :: 0 <= i < |rels| ==> !Skipped(kind, owner, reg[rels[i].target])
  }

  /** An unguarded relationship array yields exactly one assignment per relationship. */
  lemma {:induction false} UnskippedCount(kind: Kind, owner: RecordType, reg: Registry, props: map<string, Value>, rels: seq<Relation>)
    requires Registered(rels, reg) && Unguarded(kind, owner, reg, rels)
    ensures |Pairs(kind, owner, reg, props, rels)| == |rels|
  {
    if rels != [] {
      var n := |rels| - 1;
      UnskippedInit(kind, owner, reg, rels);
      UnskippedCount(kind, owner, reg, props, rels[..n]);
      UnskippedLast(kind, owner, reg, props, rels);
    }
  }

  /** The assignment at position `i` of an unguarded relationship array belongs to relationship `i`. */
  lemma {:induction false} UnskippedAt(kind: Kind, owner: RecordType, reg: Registry, props: map<string, Value>, rels: seq<Relation>, i: nat)
    requires Registered(rels, reg) && Unguarded(kind, owner, reg, rels) && i < |rels|
    ensures |Pairs(kind, owner, reg, props, rels)| == |rels|
    ensures Pairs(kind, owner, reg, props, rels)[i] == (rels[i].property, Resolve(kind, owner, reg[rels[i].target], props))
  {
    var n := |rels| - 1;
    UnskippedInit(kind, owner, reg, rels);
    UnskippedCount(kind, owner, reg, props, rels[..n]);
    UnskippedLast(kind, owner, reg, props, rels);
    if i < n {
      var init := rels[..n];
      UnskippedAt(kind, owner, reg, props, init, i);
      var ps := Pairs(kind, owner, reg, props, init);
      var last := (rels[n].property, Resolve(kind, owner, reg[rels[n].target], props));
      assert (ps + [last])[i] == ps[i];
      assert init[i] == rels[i];
    }
  }

  /** Dropping the last relationship keeps an array registered and unguarded. */
  lemma UnskippedInit(kind: Kind, owner: RecordType, reg: Registry, rels: seq<Relation>)
    requires Registered(rels, reg) && Unguarded(kind, owner, reg, rels) && rels != []
    ensures Registered(rels[..|rels| - 1], reg)
    ensures !Skipped(kind, owner, reg[rels[|rels| - 1].target])
    ensures Unguarded(kind, owner, reg, rels[..|rels| - 1])
  {
    var init := rels[..|rels| - 1];
    assert forall i :: 0 <= i < |init| ==> init[i] == rels[i];
  }

  /** The last relationship of an unguarded array adds its own assignment. */
  lemma UnskippedLast(kind: Kind, owner: RecordType, reg: Registry, props: map<string, Value>, rels: seq<Relation>)
    requires Registered(rels, reg) && rels != []
    requires !Skipped(kind, owner, reg[rels[|rels| - 1].target])
    ensures Pairs(kind, owner, reg, props, rels) == Pairs(kind, owner, reg, props, rels[..|rels| - 1])
      + [(rels[|rels| - 1].property, Resolve(kind, owner, reg[rels[|rels| - 1].target], props))]
  {
  }

  /**
   * A relationship array makes no lookup of type `x` when each of its
   * entries naming `x` is skipped by the guard.
   */
  lemma {:induction false} NoLookupOf(kind: Kind, owner: RecordType, reg: Registry, props: map<string, Value>, rels: seq<Relation>, x: string)
    requires Registered(rels, reg)
    requires forall j :: 0 <= j < |rels| && reg[rels[j].target].name == x ==> Skipped(kind, owner, reg[rels[j].target])
    ensures forall i :: 0 <= i < |Pairs(kind, owner, reg, props, rels)| ==> Pairs(kind, owner, reg, props, rels)[i].1.target != x
  {
    if rels != [] {
      var n := |rels| - 1;
      var init := rels[..n];
      assert forall j :: 0 <= j < n ==> init[j] == rels[j];
      NoLookupOf(kind, owner, reg, props, init, x);
      var pi := Pairs(kind, owner, reg, props, init);
      var q := PairOf(kind, owner, reg[rels[n].target], props, rels[n].property);
      assert Pairs(kind, owner, reg, props, rels) == pi + q;
    }
  }

  /**
   * The relationship lookups run the condition `<ownerTable>_id = ?` bound
   * to the owner's `id` (hasOne, hasMany, belongsToMany), or `id = ?`
   * bound to the owner's `<targetTable>_id` (belongsTo), whenever the
   * target's schema has that column.  The target's `where` then appends
   * its own soft-delete condition, when it has soft deletes and the
   * marker column.
   */
  lemma LookupCondition(kind: Kind, owner: RecordType, target: RecordType, props: map<string, Value>, targetFields: seq<string>)
    requires Resolve(kind, owner, target, props).field in targetFields
    ensures var l := Resolve(kind, owner, target, props);
      Kept(targetFields, LookupEntries(l)) == [Condition(l.field, "=", Scalar(l.value))]
    ensures var l := Resolve(kind, owner, target, props);
      Kept(targetFields, WhereEntries(target.softDeletes, target.deletedAt, LookupEntries(l)))
        == [Condition(l.field, "=", Scalar(l.value))]
           + (if target.softDeletes && target.deletedAt in targetFields
              then [Condition(target.deletedAt, "=", Scalar(Str("0")))] else [])
    ensures !kind.BelongsToKind? ==>
      Kept(targetFields, LookupEntries(Resolve(kind, owner, target, props)))
        == [Condition(TableName(owner) + "_id", "=", Scalar(Get(props, "id")))]
    ensures kind.BelongsToKind? ==>
      Kept(targetFields, LookupEntries(Resolve(kind, owner, target, props)))
        == [Condition("id", "=", Scalar(Get(props, TableName(target) + "_id")))]
  {
    var l := Resolve(kind, owner, target, props);
    KeptSingle(targetFields, Entry(Named(l.field), Scalar(l.value)));
    if target.softDeletes {
      KeptAppend(targetFields, LookupEntries(l), [SoftDeleteEntry(target.deletedAt)]);
      KeptSingle(targetFields, SoftDeleteEntry(target.deletedAt));
    }
  }

  /**
   * A one-level reciprocal pair (A hasMany/hasOne B, B belongsTo or
   * belongsToMany A): constructing B makes no lookup of A unless B itself
   * declares A in its own hasOne/hasMany, so the construction of B does
   * not come back to A.
   */
  lemma ReciprocalPairStops(a: RecordType, b: RecordType, reg: Registry, props: map<string, Value>)
    requires AllRegistered(b, reg) && Consistent(reg)
    requires a.name in reg && reg[a.name] == a
    requires Lists(a.hasOne, b.name) || Lists(a.hasMany, b.name)
    requires !Lists(b.hasOne, a.name) && !Lists(b.hasMany, a.name)
    ensures forall i :: 0 <= i < |Declared(b, reg, props)| ==> Declared(b, reg, props)[i].1.target != a.name
  {
    ListsAt(b.hasOne, a.name);
    ListsAt(b.hasMany, a.name);
    forall j | 0 <= j < |b.hasOne| ensures reg[b.hasOne[j].target].name != a.name {
      assert b.hasOne[j].target != a.name;
    }
    forall j | 0 <= j < |b.hasMany| ensures reg[b.hasMany[j].target].name != a.name {
      assert b.hasMany[j].target != a.name;
    }
    var p1 := Pairs(HasOneKind, b, reg, props, b.hasOne);
    var p2 := Pairs(HasManyKind, b, reg, props, b.hasMany);
    var p3 := Pairs(BelongsToKind, b, reg, props, b.belongsTo);
    var p4 := Pairs(BelongsToManyKind, b, reg, props, b.belongsToMany);
    NoLookupOf(HasOneKind, b, reg, props, b.hasOne, a.name);
    NoLookupOf(HasManyKind, b, reg, props, b.hasMany, a.name);
    NoLookupOf(BelongsToKind, b, reg, props, b.belongsTo, a.name);
    NoLookupOf(BelongsToManyKind, b, reg, props, b.belongsToMany, a.name);
    NoTargetAppend(p1, p2, a.name);
    NoTargetAppend(p1 + p2, p3, a.name);
    NoTargetAppend(p1 + p2 + p3, p4, a.name);
  }

  lemma NoTargetAppend(p: seq<(string, Lookup)>, q: seq<(string, Lookup)>, x: string)
    requires forall i :: 0 <= i < |p| ==> p[i].1.target != x
    requires forall i :: 0 <= i < |q| ==> q[i].1.target != x
    ensures forall i :: 0 <= i < |p + q| ==> (p + q)[i].1.target != x
  {
  }

  /**
   * Post belongsTo User and User hasMany Post: a User looks its posts up
   * by `user_id = <its id>`, and a Post resolves no `user` at all, since
   * the guard skips the owned side of a reciprocal pair.
   */
  lemma PostUserPair(post: RecordType, user: RecordType, reg: Registry, postProps: map<string, Value>, userProps: map<string, Value>)
    requires post.name in reg && reg[post.name] == post && user.name in reg && reg[user.name] == user
    requires TableName(user) == "user"
    requires post.hasOne == [] && post.hasMany == [] && post.belongsToMany == [] && post.belongsTo == [Relation("user", user.name)]
    requires user.hasOne == [] && user.belongsTo == [] && user.belongsToMany == [] && user.hasMany == [Relation("posts", post.name)]
    ensures AllRegistered(post, reg) && AllRegistered(user, reg)
    ensures Declared(post, reg, postProps) == []
    ensures Declared(user, reg, userProps) == [("posts", FindMany(post.name, "user_id", Get(userProps, "id")))]
  {
    assert Lists(user.hasMany, post.name);
    PairsSingle(BelongsToKind, post, reg, postProps, Relation("user", user.name));
    PairsSingle(HasManyKind, user, reg, userProps, Relation("posts", post.name));
    assert TableName(user) + "_id" == "user_id";
    assert Resolve(HasManyKind, user, post, userProps) == FindMany(post.name, "user_id", Get(userProps, "id"));
    assert Pairs(HasOneKind, user, reg, userProps, []) == [];
  }

  /** A type whose only declaration is one belongsTo of a type that owns nothing. */
  ghost predicate OnlyBelongsTo(o: RecordType, t: RecordType)
  {
    o.hasOne == [] && o.hasMany == [] && o.belongsToMany == [] && |o.belongsTo| == 1
    && o.belongsTo[0].target == t.name && t.hasOne == [] && t.hasMany == []
  }

  lemma SingleBelongsTo(o: RecordType, t: RecordType, reg: Registry, props: map<string, Value>)
    requires OnlyBelongsTo(o, t) && t.name in reg && reg[t.name] == t
    ensures AllRegistered(o, reg)
    ensures Declared(o, reg, props) == [(o.belongsTo[0].property, BelongsTo(t, props, None, None))]
  {
    PairsSingle(BelongsToKind, o, reg, props, o.belongsTo[0]);
    assert o.belongsTo == [o.belongsTo[0]];
  }

  /**
   * The guard sees one level only: in a chain A belongsTo B belongsTo C
   * belongsTo A with no hasOne or hasMany anywhere, each constructor
   * looks the next type up, so construction goes round the cycle.
   */
  lemma BelongsToCycleUnguarded(a: RecordType, b: RecordType, c: RecordType, reg: Registry, props: map<string, Value>)
    requires a.name in reg && b.name in reg && c.name in reg
    requires reg[a.name] == a && reg[b.name] == b && reg[c.name] == c
    requires OnlyBelongsTo(a, b) && OnlyBelongsTo(b, c) && OnlyBelongsTo(c, a)
    ensures AllRegistered(a, reg) && AllRegistered(b, reg) && AllRegistered(c, reg)
    ensures |Declared(a, reg, props)| == 1 && Declared(a, reg, props)[0].1 == FindOne(b.name, "id", Get(props, TableName(b) + "_id"))
    ensures |Declared(b, reg, props)| == 1 && Declared(b, reg, props)[0].1 == FindOne(c.name, "id", Get(props, TableName(c) + "_id"))
    ensures |Declared(c, reg, props)| == 1 && Declared(c, reg, props)[0].1 == FindOne(a.name, "id", Get(props, TableName(a) + "_id"))
  {
    SingleBelongsTo(a, b, reg, props);
    SingleBelongsTo(b, c, reg, props);
    SingleBelongsTo(c, a, reg, props);
  }
}
