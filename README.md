# php-crud-model in Dafny

A model of the record engine of the `Maarsson` PHP CRUD layer, with proofs about it.

In the PHP layer, a record type is a subclass of the abstract `Model`. The parts modelled here are:

- **Schema cache.** The engine introspects its table with `DESCRIBE` and caches the answer in a static.
- **Coercion.** Every column value is cast by the column's type.
- **SQL construction.** The engine builds `SELECT`, `INSERT`, `UPDATE` and `DELETE` statements. Values are bound through positional or named parameters.
- **Record policies.** It applies the soft-delete and timestamp policies.
- **Relationships.** It resolves the four relationship kinds, with a one-level guard against reciprocal declarations.

Two small companions are modelled as well:

- **Class autoloader.** It maps a class name to a file name and includes the first file under a directory whose name ends the wanted one.
- **INI loader.** It flattens a parsed INI tree into upper-case environment variables.

Each file is one module:

| file | module | models |
|---|---|---|
| `option.dfy` | `Optional` | the option type |
| `strings.dfy` | `Strings` | `strtolower`, `strtoupper`, one-character `str_replace`, `implode`, `substr_count`, negative `substr` |
| `coercion.dfy` | `Coercion` | PHP values; the `(int)`, `(string)` and `(float)` casts; the constructor's type switch |
| `schema.dfy` | `Schema` | the `DESCRIBE` cache (`getTableInfo`), `getFields`, `getFieldType` |
| `config.dfy` | `Config` | a record type's static configuration; `_self('_table')` |
| `query.dfy` | `Query` | the SQL text and parameter bindings of `where`, `create`, `save` and `delete` |
| `relations.dfy` | `Relations` | `hasRelationship`, `belongsRelationship`, the four relationship methods, the constructor's relationship loops and guard |
| `records.dfy` | `Records` | the record object: constructor, `save`, `update`, `updateProperty`, `delete` |
| `engine.dfy` | `Engine` | the static operations `where`, `find`, `all`, `create`, `findOrCreate` |
| `autoloader.dfy` | `Loading` | `Autoloader` |
| `env.dfy` | `Environment` | `Env` |

The database is an input to every operation that touches it:

- the columns `DESCRIBE` reports for each table;
- the rows a `SELECT` returns;
- whether an `execute()` succeeded;
- the id `lastInsertId()` reports.

Every operation returns the statements it prepares as values, a SQL text plus its bindings.

The clock (`strtotime('now')`) is a parameter `now`. The directory tree the autoloader walks is an input. So is each INI file's parsed content.

The process environment is a map, and `putenv` updates it.

State changes stay imperative:

- The schema cache is a class whose methods update its `info` field.
- A record is a class whose `props` and `relations` fields `update` changes in place.
- The autoloader's static settings and the INI loader's static state are classes with `modifies` clauses.

Each loop of the core is a loop of the model, down to getFieldType's search of the cached schema. Each such method is proved against a pure function, and the lemmas are about those functions.

The model follows PHP 8.2: its casts, its string comparisons and its locale-independent case mapping. The one exception is `count(null)` and `reset(null)`, which follow PHP 7 (see Left out).

### Behaviour worth knowing

The model follows the code, with one exception: `save` on a table whose only column is `id` (see Findings and Left out).

- **Soft-delete condition.** `where` adds the soft-delete condition `deleted_at = '0'` *after* the caller's conditions (`src/Model.php:294-296`), not first (`Query.SoftDeleteConditionLast`).
- **Reciprocal guard.** The guard skips a `belongsTo`/`belongsToMany` whenever the target lists the owner in its `hasOne`/`hasMany`. So with `Post belongsTo User` and `User hasMany Post`, constructing a Post resolves *no* `user` property (`Relations.PostUserPair`).
- **findOrCreate.** It creates the record from the *stripped* properties, without the array-form conditions, not from the original ones (`Engine.FindOrCreate`).
- **Error taxonomy.** There is no error taxonomy.
  - A missing field is not an error. The coercion switch turns the missing value into `0`, `''` or `null` (`Records.MissingFieldCoerced`).
  - An unknown type is not an error either. It leaves the value uncoerced.
  - A `create` with no set field prepares ``INSERT INTO t (``) VALUES ()``.
  - A `save` on a table with only an `id` column prepares an unbalanced `UPDATE` (see Findings). The model's `save` prepares nothing there instead.
- **Deleted rows are unreachable.** `where` asking for the rows soft-deleted at a time can never return one. The appended `deleted_at = '0'` conflicts with the caller's time, which is never 0 (`Query.DeletedRowsUnreachable`).

## Model

| member | source | states |
|---|---|---|
| Coercion.BaseType | src/Model.php:108 | the result is the longest prefix of the type that contains no `(`, so it ends just before the first `(` |
| Coercion.BaseTypeOfParameterised | src/Model.php:108 | the base type of `name(params)` is `name` |
| Coercion.CoerceIdempotent | src/Model.php:110-133 | coercing a second time with the same type changes nothing |
| Coercion.CoerceNull | src/Model.php:109-133 | the coerced value is null exactly when the type is outside the switch and the value was null (missing) |
| Coercion.DecimalRoundTrip | src/Model.php:116 | `(int)` of the decimal text of any 64-bit integer gives that integer back |
| Coercion.IntThroughStringColumn | src/Model.php:116-124 | an integer stored through a `varchar` column and read back through an `int` column is unchanged |
| Schema.CachedTable | src/Model.php:220 | the table the cache is keyed by is a marker present in it; with no marker, every entry is a column row |
| Schema.CachedTableOfFetched | src/Model.php:220-226 | a freshly fetched cache is keyed by the table it was fetched for |
| Schema.FieldsOfFetched | src/Model.php:237-246 | the fields of a fetched cache are the described column names, in order; the marker contributes none |
| Schema.RowsFields | src/Model.php:240-244 | a cache made only of column rows has exactly those columns' names as fields |
| Schema.FieldType | src/Model.php:256-264 | no type when no column row has the field; otherwise the type of the first column row naming it |
| Schema.FieldsHaveTypes | src/Model.php:237-264 | a name is among getFields exactly when getFieldType finds a type for it |
| Schema.SchemaCache.GetTableInfo | src/Model.php:218-229 | the cache is refetched exactly when it is empty or keyed by another table, and kept otherwise; afterwards it is keyed by the table; a cache that agreed with the database still does |
| Schema.SchemaCache.GetFields | src/Model.php:237-246 | the same cache refresh; the result is the column names of the cache's rows, which for a coherent cache are the described columns |
| Schema.SchemaCache.GetFieldType | src/Model.php:256-264 | the same cache refresh; the loop returns the type of the first column row naming the field, or none when no row does |
| Config.ShortName | src/Model.php:190 | the short class name is the suffix after the last namespace separator and holds none |
| Config.DerivedTableName | src/Model.php:182-192 | without an explicit table (the base class's default), the table name is the lower-cased short class name: no upper case and no namespace |
| Query.BindPositional | src/Model.php:337-339 | the `for ($i = 1 ...)` loop binds each parameter at its one-based position |
| Query.Keep | src/Model.php:302-310 | a condition survives only on a field the schema has |
| Query.FilterConditions | src/Model.php:300-311 | the conditions are the kept entries, in order, and the parameters are their values, in the same order |
| Query.KeptAppend | src/Model.php:302-311 | the filter works entry by entry: filtering a concatenation concatenates the results |
| Query.KeptFieldsKnown | src/Model.php:302-310 | every kept condition names a schema field |
| Query.KeptSingle | src/Model.php:303-310 | an array condition is kept when its field is known, with its operator and value; otherwise a plain `key => value` entry is kept as `key = ?` when its key is known; nothing else is kept |
| Query.SoftDeleteConditionLast | src/Model.php:294-296 | with soft deletes on, the conditions are the caller's, followed by `deleted_at = '0'` |
| Query.SoftDeletedRowsExcluded | src/Model.php:294-310 | any row meeting the equalities of a soft-delete `where`, compared as MySQL compares them, has `deleted_at` equal to `'0'` or to 0 |
| Query.DeletedRowsUnreachable | src/Model.php:294-310 | asking for the rows soft-deleted at a time t (a stamp, never 0) yields conditions no row can meet |
| Query.BuildOrderBy | src/Model.php:323-333 | the ORDER BY branch builds the clause of OrderClause, which is empty exactly for a falsy argument, for an unknown or falsy single field, or for an empty array; a known single field sorts ascending; an array is rendered pair by pair, unchecked |
| Query.BuildSelect | src/Model.php:291-339 | the statement is `SELECT * FROM table`, then the WHERE over the kept conditions and the ORDER BY clause, with the parameters bound positionally |
| Query.RenderPlaceholder | src/Model.php:318-320 | a rendered condition carries exactly one placeholder |
| Query.KeptOpsClean | src/Model.php:303-310 | kept conditions carry only operators the caller gave or `=` |
| Query.WherePlaceholders | src/Model.php:316-322 | the WHERE clause holds one placeholder per kept condition |
| Query.OrderClausePlaceholders | src/Model.php:323-333 | for field names and order-by texts free of `?`, the ORDER BY clause holds no placeholder |
| Query.SelectPlaceholders | src/Model.php:291-339 | for a table name, field names, operators and order-by texts free of `?`, placeholders in the SELECT text, bindings and kept conditions are equally many |
| Query.SelectPlaceholderOrder | src/Model.php:316-339 | binding i + 1 carries the i-th kept condition's parameter, and the SELECT text up to the end of that condition's rendering holds i + 1 placeholders, so the (i + 1)-th placeholder is that condition's |
| Query.BuildInsert | src/Model.php:375-401 | the INSERT names the record's set non-`id` fields in schema order and binds their values at positions 1.. |
| Query.InsertColumnsMembership | src/Model.php:379-391 | a column is inserted exactly when it is a schema field other than `id` whose value is set |
| Query.InsertColumnsAppend | src/Model.php:379-391 | the column choice is made field by field |
| Query.InsertHeadCount | src/Model.php:394-395 | the INSERT text before the VALUES list holds no placeholder |
| Query.InsertPlaceholders | src/Model.php:394-401 | the INSERT holds one placeholder per column and binds one value per column |
| Query.BuildUpdate | src/Model.php:424-447 | the UPDATE sets every non-`id` field, binds their values at 1..n and the id at n + 1 |
| Query.UpdateColumnsMembership | src/Model.php:427-436 | every schema field but `id` is updated |
| Query.SetListCount | src/Model.php:440 | the SET list joined by ` = ?, ` holds one placeholder fewer than it has columns |
| Query.UpdateCount | src/Model.php:439-440 | the UPDATE text holds |cols| + 1 placeholders, or 2 when there is no column |
| Query.UpdatePlaceholders | src/Model.php:439-447 | with at least one column, placeholders and bindings agree, and the last binding is the id |
| Query.IdOnlyUpdateMismatch | src/Model.php:427-447 | for a table whose only column is `id`, the UPDATE text `SET  = ? WHERE id = ?` holds two placeholders but one binding |
| Query.PrepareUpdate | src/Model.php:420-452 | no statement exactly when there is no column to set; otherwise the UPDATE of BuildUpdate, whose placeholders and bindings agree |
| Relations.Resolve | src/Model.php:139-166 | each kind looks up its declared target; hasOne and belongsTo give a single record, the other kinds a list |
| Relations.PairsSingle | src/Model.php:151-157 | one declaration yields nothing exactly when it is a belongs kind and the target lists the owner in its hasOne or hasMany; otherwise it yields its property and lookup |
| Relations.PairsAppend | src/Model.php:139-167 | declarations are handled one by one, in order |
| Relations.UnskippedPairs | src/Model.php:139-148 | hasOne and hasMany declarations are never skipped: one lookup per declaration, in order |
| Relations.NoLookupOf | src/Model.php:153-155 | a target whose every declaration is skipped is never looked up |
| Relations.AttachKind | src/Model.php:139-166 | one relationship loop assigns, in order, the lookup of every declaration that is not skipped |
| Relations.AttachAll | src/Model.php:137-168 | the four loops run hasOne, hasMany, belongsTo, belongsToMany in this order |
| Relations.AssignAppend | src/Model.php:139-166 | assigning in two runs equals assigning in one |
| Relations.AssignLastWins | src/Model.php:139-166 | the property holds the last lookup assigned to it; a property never assigned keeps its value |
| Relations.LookupCondition | src/Model.php:581-681 | with the default keys, the lookup's own condition is `<owner table>_id = <owner id>` for hasOne, hasMany and belongsToMany, and `id = <owner's <target table>_id>` for belongsTo; the target's `where` follows it with `deleted_at = '0'` exactly when the target has soft deletes and that column |
| Relations.ListsAt | src/Model.php:152 | `in_array` of a class name in a relationship array holds exactly when some declaration targets that class |
| Relations.ReciprocalPairStops | src/Model.php:150-167 | when A hasOne/hasMany B and B belongsTo A, constructing B looks nothing up in A, so construction stops after one level |
| Relations.PostUserPair | src/Model.php:139-167 | with Post belongsTo User and User hasMany Post, a Post resolves no relationship and a User resolves its posts by `user_id = id` |
| Relations.SingleBelongsTo | src/Model.php:150-158 | an unguarded single belongsTo resolves to its lookup |
| Relations.BelongsToCycleUnguarded | src/Model.php:150-158 | in a cycle A belongsTo B belongsTo C belongsTo A, no step is skipped: each type looks up the next |
| Records.CoercedKeys | src/Model.php:106-135 | after the field loop, the properties are `id` and the schema fields |
| Records.CoercedValue | src/Model.php:106-135 | each field holds its given value coerced by its column's type |
| Records.CoercedId | src/Model.php:19 | an `id` the schema lacks stays null |
| Records.MaterializeShape | src/Model.php:102-135 | a constructed record's properties are `id` and exactly the schema fields, each holding the coerced given value |
| Records.DecimalIntoIntColumn | src/Model.php:109-117 | decimal text given for an integer column becomes that integer |
| Records.MissingFieldCoerced | src/Model.php:109-133 | a field missing from the input becomes 0 in an integer column, '' in a text column, and null outside the switch |
| Records.AssignedEffect | src/Model.php:545-549 | update changes only existing properties, with the last given value for each; the others keep theirs |
| Records.UpdateTouchesOnlyTargeted | src/Model.php:543-552 | update adds only the updated-at stamp (with timestamps on), stamps it with `now`, and changes no property other than the given ones |
| Records.AssignFields | src/Model.php:106-135 | the constructor's field loop yields Materialize of the cached schema |
| Records.Record.constructor | src/Model.php:102-169 | the record's properties are the materialised row; its relationships are the lookups of every declaration not skipped by the guard |
| Records.Record.Save | src/Model.php:420-452 | the UPDATE of every non-`id` field keyed by the id, or, in the corrected form, nothing when there is no such field; success is that of execute |
| Records.Record.Update | src/Model.php:543-554 | the properties become Updated of the old ones, and relationships are unchanged; then save |
| Records.Record.UpdateProperty | src/Model.php:564-567 | update with the single pair `field => value` |
| Records.Record.Delete | src/Model.php:461-476 | with soft deletes, stamps deleted-at with `now` and saves, with the same cache refresh and UPDATE as updateProperty; otherwise prepares `DELETE ... WHERE id = :Id` bound to the id, leaving the record as it is |
| Engine.Construct | src/Model.php:345-349 | one freshly constructed record per returned row, in order |
| Engine.Where | src/Model.php:291-353 | the SELECT built from the soft-delete-extended conditions; the cache is refreshed exactly when a condition is filtered, a single order-by field is checked or a row comes back, and is untouched otherwise; null exactly when no row came back, else one freshly constructed record per row, in order |
| Engine.Find | src/Model.php:486-494 | where(field = value) with no order; the first record, or null when no row came back |
| Engine.All | src/Model.php:529-534 | where with no condition but the soft-delete one: the cache is refreshed when soft deletes are on or a row comes back, and untouched otherwise; null exactly when no row came back, else one freshly constructed record per row, in order |
| Engine.Create | src/Model.php:363-412 | the INSERT of the stamped and constructed record's set non-`id` fields; false when it fails; otherwise find by the generated id |
| Engine.StripComplex | src/Model.php:508-512 | the kept conditions are the non-array ones, in order |
| Engine.SimpleMembership | src/Model.php:508-512 | a condition survives stripping exactly when it is not an array |
| Engine.SimpleKeepsScalars | src/Model.php:508-512 | stripping works entry by entry |
| Engine.FindOrCreate | src/Model.php:505-521 | the cache is refreshed exactly when it was stale, and is then keyed by the table; the SELECT is that of the stripped conditions; inserts exactly when it found nothing, and then inserts a record built from those stripped conditions and returns create's result, which after a successful insert is the result of the refetch SELECT by the generated id, which is returned too, or null exactly when that find returns no row; otherwise returns the first match |
| Engine.PrepareInsert | src/Model.php:370-395 | the new record is built from the given properties under the cached schema, and the INSERT is the one prepared for that record's properties over the cached fields |
| Engine.Refetch | src/Model.php:406-408 | after a successful INSERT the result is `find` by the generated id, with its SELECT, and null exactly when no row comes back |
| Engine.CreatedAtInserted | src/Model.php:366-391 | with timestamps on, created-at is inserted holding `now` coerced; with them off, an unset created-at outside the switch is not inserted |
| Engine.InsertShape | src/Model.php:379-391 | the INSERT never names `id`, and names each set schema field |
| Loading.FirstMatch | src/Autoloader.php:51-57 | the index found matches and no earlier file does; none exactly when no file matches |
| Loading.AtMostOneInclude | src/Autoloader.php:51-57 | an inclusion or a skip is the first matching file, readable or not respectively |
| Loading.IteratorBuiltOnce | src/Autoloader.php:73-77 | after any series of calls, the iterated root is the one already cached, or else the path configured at the first call |
| Loading.Autoloader.constructor | src/Autoloader.php:20-31 | extension `.php`, the class's own directory, no iterator yet, nothing included |
| Loading.Autoloader.SetExt | src/Autoloader.php:102-105 | replaces the extension only |
| Loading.Autoloader.SetPath | src/Autoloader.php:113-116 | replaces the path only |
| Loading.Autoloader.PathIterator | src/Autoloader.php:67-78 | fails when the configured path is missing; otherwise builds the iterator on the path the first time and reuses it after |
| Loading.Autoloader.Load | src/Autoloader.php:44-59 | searches the cached iterator's files for the derived name; includes at most the first match, and only when readable |
| Loading.EndsWithSuffix | src/Autoloader.php:88-93 | true exactly when the needle is empty or the haystack's last characters equal it; false when the needle is longer |
| Loading.EndsWithConcat | src/Autoloader.php:88-93 | anything followed by the needle ends with it |
| Loading.ClassFileNameShape | src/Autoloader.php:46-49 | the name keeps its length, turns `_` and `\` into the separator, lower-cases everything and appends the lower-cased extension |
| Loading.NoSeparatorsLeft | src/Autoloader.php:46-47 | with a separator of its own, no `_` or `\` is left |
| Loading.MatchIsSuffix | src/Autoloader.php:52 | a file matches exactly when its lower-cased basename is a suffix of the wanted name |
| Environment.Env.Load | src/Env.php:61-67 | true exactly when the file exists, and then the parsed content is stored; the environment is untouched |
| Environment.Env.ParseArray | src/Env.php:43-52 | the environment becomes that of applying, in order, the writes of every leaf |
| Environment.Env.Parse | src/Env.php:29-33 | a missing file changes nothing; an existing one is loaded and every leaf written |
| Environment.NamesUppercase | src/Env.php:45-49 | every generated name is upper case |
| Environment.NestedName | src/Env.php:45-49 | a leaf nested under non-empty keys is named by its key path joined by `_`, after the prefix, upper-cased |
| Environment.WritesInOrder | src/Env.php:44-51 | the writes of each entry come after those of the entries before it |
| Environment.LaterWriteWins | src/Env.php:49 | a later write of the same name overwrites an earlier one |
| Environment.UnwrittenKept | src/Env.php:44-51 | a variable no leaf names keeps its value |

## Left out

- Database I/O is not modelled. `prepare`, `execute`, `fetchAll`, `rowCount`, `lastInsertId` and `errorInfo` are inputs. `rowCount()` is read as the number of rows fetched. The captured `$_statementError` is not modelled.
- `db()` and the connection files are not part of this model. Neither is `src/Database/QueryBuilder.php`, a delegate to code that is not shown.
- `strtotime('now')` becomes the `now` parameter. A soft delete reads it once, for both deleted-at and updated-at, while the source calls `strtotime('now')` twice (`src/Model.php:465` and `src/Model.php:551`), so the two stamps can differ by a second there.
- Error mode: the model reads a failing `prepare` or `execute` as a `false` result. The connection configures PDO with `ERRMODE_EXCEPTION`, so the source raises a `PDOException` on these paths instead: a `DESCRIBE` of a missing table (an empty schema in the model), an INSERT that fails (`InsertFailed` in the model), a `save` or `delete` whose execute fails (`false` in the model), and the id-only UPDATE, which fails at `prepare`.
- Records.Record.constructor: its schema-cache clauses, and those of the Engine operations that construct records, hold only because relationship lookups are recorded, not run. In the source, each lookup runs the target's `find` or `where`, which re-keys the single shared cache to the target's table. So after constructing a record with a lookup, the source's cache is keyed by the last target looked up, and the next record refetches its own schema.
- Records.Record.Save: it prepares nothing and reports false when the table has no column besides `id`. This is the corrected form; the source prepares the unbalanced UPDATE that `Query.IdOnlyUpdateMismatch` models. `update`, `updateProperty` and soft `delete` inherit this through `save`.
- Query.DeletedRowsUnreachable: it requires the asked time to be non-zero. MySQL compares `deleted_at = 0` and `deleted_at = '0'` numerically, so a request for time 0 does meet the marker condition. Every soft-delete stamp is a time after the epoch, so it is never 0.
- Query.SqlEqual: MySQL compares text against an integer as a floating-point number. The model reads the text's leading integer, as `(int)` does. Collations (case and trailing spaces) are not modelled: text compares to text by equality.
- `(float)` is floating-point numerics, so the model only tags the value as a float and keeps the text it came from.
- Coercion.LeadingInt: PHP 8 reads exponent and fractional forms in numeric strings ("1e3"). The model reads only the leading digits.
- `ReflectionClass::getShortName` is computed from the class name string.
- Recursive eager construction is not modelled. A record's relationships hold the lookup each relationship method would run, not the records it would construct. So the unbounded recursion of unguarded cycles shows only as the lookup chain (`Relations.BelongsToCycleUnguarded`).
- PHP's loose `==` and `in_array` on field names are taken as string equality. Integer (positional) keys of a condition array never name a field.
- Condition arrays other than `[field, op, value]`, and booleans, arrays or objects as values, are not modelled.
- Texts interpolated into the SQL are not checked for `?`, in the source or in the model: the operators of condition arrays, the properties and directions of an array order-by, and the table and field names the schema supplies. A `?` in any of them breaks the one-binding-per-placeholder match in the source itself. The placeholder lemmas (`Query.SelectPlaceholders`, `Query.SelectPlaceholderOrder`, `Query.OrderClausePlaceholders`, `Query.WherePlaceholders`, `Query.InsertPlaceholders`, `Query.UpdatePlaceholders`) promise nothing for such texts.
- Schema.FieldType: when no column matches, the source reads `['Field']` off the table-name marker, which is a string. The model just reports no type.
- Records.Record.Update: the record's relationship properties are kept apart from its column properties. An update naming a relationship property is ignored here, while the source overwrites that property.
- Records.Record.constructor: the same separation. In the source, the four relationship loops (`src/Model.php:140-165`) assign each lookup to `$this->{$property}`, which overwrites a column property of the same name. The model keeps `props` and `relations` apart, so such a column keeps its coerced value.
- Records.Record.Save: the same separation. In the source, `save` binds the current value of each field (`src/Model.php:433`), which is the related record when a relationship property shares the field's name. The model binds the column value.
- `_get` is not modelled.
- Nullable static arrays: `count(null)` and `reset(null)` follow PHP 7, where they give 0 and null. PHP 8 raises a TypeError instead. So a model with no relationship declarations, or a `findOrCreate` with no match, fails there.
- Autoloader:
  - `DIRECTORY_SEPARATOR` is a constructor parameter.
  - `spl_autoload_register` is not modelled.
  - `include_once` only records the included path.
  - The filesystem is a snapshot of each directory's leaves in iteration order.
- Env:
  - `parse_ini_file`'s parsing and typed scanning are an input; values are their text.
  - A `putenv` name holding `=` or an empty name is not modelled.

## Findings

| source | as written | input that shows it | evidently intended | confidence | as-written member | corrected member |
|---|---|---|---|---|---|---|
| src/Model.php:427-447 | `save` always prepares `UPDATE t SET <fields joined by ' = ?, '> = ? WHERE id = ?` and binds one value per field plus the id | a table whose only column is `id`: the text is `UPDATE t SET  = ? WHERE id = ?`, with two placeholders and one binding; with the connection's exception error mode, `prepare` raises a `PDOException` | nothing to update: prepare no statement and report failure | not executed | Query.IdOnlyUpdateMismatch | Query.PrepareUpdate |
