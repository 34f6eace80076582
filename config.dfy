/**
 * The static configuration of a record type (a subclass of the abstract
 * model): table override, soft-delete and timestamp flags, marker column
 * names and relationship declarations, and `_self('_table')`.
 */
module Config {
  import opened Optional
  import opened Strings

  /** One entry `'property' => 'TargetClass'` of a relationship array. */
  datatype Relation = Relation(property: string, target: string)

  datatype RecordType = RecordType(
    name: string,                 // static::class, the namespaced class name
    table: Option<string>,        // static::$_table, None when not set
    softDeletes: bool,            // static::$_soft_deletes
    timestamps: bool,             // static::$_timestamps
    deletedAt: string,            // static::$_deleted_at
    createdAt: string,            // static::$_created_at
    updatedAt: string,            // static::$_updated_at
    hasOne: seq<Relation>,        // static::$_hasOne (null is the empty array)
    hasMany: seq<Relation>,
    belongsTo: seq<Relation>,
    belongsToMany: seq<Relation>)

  /** A record type that overrides nothing: the base class's defaults. */
  function Defaults(name: string): (rt: RecordType)
    ensures rt.name == name && rt.table.None? && rt.softDeletes && rt.timestamps
  {
    RecordType(name, None, true, true, "deleted_at", "created_at", "updated_at", [], [], [], [])
  }

  /**
   * ReflectionClass::getShortName: the class name after its last
   * namespace separator.
   */
  function ShortName(name: string): (r: string)
    ensures |r| <= |name| && r == name[|name| - |r|..]
    ensures forall i :: 0 <= i < |r| ==> r[i] != '\\'
    ensures |r| < |name| ==> name[|name| - |r| - 1] == '\\'
  {
    if name == "" then ""
    else if name[|name| - 1] == '\\' then ""
    else ShortName(name[..|name| - 1]) + [name[|name| - 1]]
  }

  /** `_self('_table')`: the explicit table, else the lower-case short class name. */
  function TableName(rt: RecordType): string
  {
    if rt.table.Some? then rt.table.value else Lower(ShortName(rt.name))
  }

  /**
   * A derived table name carries no namespace and no upper-case letter,
   * and it is the short name of the class up to case.
   */
  lemma DerivedTableName(rt: RecordType)
    requires rt.table.None?
    ensures NoUpperCase(TableName(rt))
    ensures forall i :: 0 <= i < |TableName(rt)| ==> TableName(rt)[i] != '\\'
    ensures Lower(ShortName(rt.name)) == TableName(rt)
    ensures TableName(Defaults(rt.name)) == TableName(rt)
  {
    var sn := ShortName(rt.name);
    var t := Lower(sn);
    LowerHasNoUpperCase(sn);
    forall i | 0 <= i < |t| ensures t[i] != '\\' {
      assert t[i] == LowerChar(sn[i]);
    }
  }
}
