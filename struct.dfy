/**
 * The active-record base class `Struct`: a record type is described by its
 * class constants (a `Schema`), an instance holds its primary key `id` and its
 * other properties, and the class statics (`Runtime`) hold the identity cache of
 * records whose type is `Unique`.
 */
module Structs {
  import opened Wrappers
  import opened PhpValues
  import opened Storage
  import DS = Discretion

  /** CRYPTO_SHORTHASH_KEYBYTES: the size of the runtime cache key. */
  const RUNTIME_KEY_LENGTH := 16

  /**
   * The class constants of a record type: TABLE_NAME, PRIMARY_KEY,
   * DB_FIELD_NAMES (column => property, in declaration order), BOOLEAN_FIELDS,
   * whether the class implements `Unique`, and the declared defaults of its
   * properties other than `id`.
   */
  datatype Schema = Schema(
    className: string,
    tableName: string,
    primaryKey: string,
    fieldNames: seq<(string, string)>,
    booleanFields: seq<string>,
    unique: bool,
    defaults: map<string, Value>)

  /** The guard of `byId()`: none of the three constants is empty. */
  predicate DefinesConstants(s: Schema)
  {
    !EmptyString(s.tableName) && !EmptyString(s.primaryKey) && s.fieldNames != []
  }

  /**
   * What every record type of the application satisfies: columns and
   * properties are listed once each, the primary key column is the one and
   * only column mapped to `id`, and every other mapped property is declared.
   */
  predicate WellFormed(s: Schema)
  {
    (forall i, j :: 0 <= i < j < |s.fieldNames| ==>
      s.fieldNames[i].0 != s.fieldNames[j].0 && s.fieldNames[i].1 != s.fieldNames[j].1)
    && (s.primaryKey, "id") in s.fieldNames
    && (forall i :: 0 <= i < |s.fieldNames| ==>
      (s.fieldNames[i].1 == "id" <==> s.fieldNames[i].0 == s.primaryKey))
    && (forall i :: 0 <= i < |s.fieldNames| && s.fieldNames[i].1 != "id" ==> s.fieldNames[i].1 in s.defaults)
    && "id" !in s.defaults && "created" in s.defaults && "modified" in s.defaults
  }

  /** The key under which `getCacheKey()` files a record: a keyed hash of class and id. */
  datatype CacheKey = CacheKey(runtimeKey: Bytes, className: string, id: int)

  /** `$this->{$name}` for an instance with key `id` and properties `props`. */
  function PropertyValue(id: int, props: map<string, Value>, name: string): (v: Value)
    ensures name == "id" ==> v == VInt(id)
    ensures name != "id" && name !in props ==> v == VNull
  {
    if name == "id" then VInt(id) else if name in props then props[name] else VNull
  }

  /** The value `create()`/`update()` write for the i-th entry of DB_FIELD_NAMES. */
  function ColumnValue(s: Schema, driver: string, id: int, props: map<string, Value>, i: nat): (v: Value)
    requires i < |s.fieldNames|
    ensures s.fieldNames[i].0 in s.booleanFields ==>
      Truthy(v) == Truthy(PropertyValue(id, props, s.fieldNames[i].1))
    ensures s.fieldNames[i].0 !in s.booleanFields ==> v == PropertyValue(id, props, s.fieldNames[i].1)
  {
    var property := s.fieldNames[i].1;
    if s.fieldNames[i].0 in s.booleanFields then
      DS.GetDatabaseBoolean(driver, Truthy(PropertyValue(id, props, property)))
    else
      PropertyValue(id, props, property)
  }

  /** The `$fields` array after the first n entries of DB_FIELD_NAMES. */
  function ColumnSet(s: Schema, driver: string, id: int, props: map<string, Value>, n: nat): (r: Row)
    requires n <= |s.fieldNames|
    ensures s.primaryKey !in r
  {
    if n == 0 then map[]
    else
      var prev := ColumnSet(s, driver, id, props, n - 1);
      if s.fieldNames[n - 1].0 == s.primaryKey then prev
      else prev[s.fieldNames[n - 1].0 := ColumnValue(s, driver, id, props, n - 1)]
  }

  /** Every non-key column among the first n entries is written, with its own value. */
  lemma {:induction false} ColumnSetAt(s: Schema, driver: string, id: int, props: map<string, Value>, n: nat, i: nat)
    requires WellFormed(s) && i < n <= |s.fieldNames| && s.fieldNames[i].0 != s.primaryKey
    ensures s.fieldNames[i].0 in ColumnSet(s, driver, id, props, n)
    ensures ColumnSet(s, driver, id, props, n)[s.fieldNames[i].0] == ColumnValue(s, driver, id, props, i)
  {
    if i < n - 1 {
      ColumnSetAt(s, driver, id, props, n - 1, i);
      assert s.fieldNames[n - 1].0 != s.fieldNames[i].0;
    }
  }

  /** Only columns of the schema are written. */
  lemma {:induction false} ColumnSetKeys(s: Schema, driver: string, id: int, props: map<string, Value>, n: nat, c: string)
    requires n <= |s.fieldNames| && c in ColumnSet(s, driver, id, props, n)
    ensures exists i :: 0 <= i < n && s.fieldNames[i].0 == c
  {
    if s.fieldNames[n - 1].0 != c {
      ColumnSetKeys(s, driver, id, props, n - 1, c);
    }
  }

  /** `$row[$field]`: a column the row lacks reads as null. */
  function RowValue(row: Row, column: string): (v: Value)
    ensures column !in row ==> v == VNull
    ensures column in row ==> v == row[column]
  {
    if column in row then row[column] else VNull
  }

  /** The properties other than `id` set by the first n steps of the loop of `byId()`. */
  function LoadedFields(s: Schema, row: Row, n: nat): (r: map<string, Value>)
    requires n <= |s.fieldNames|
    ensures "id" !in r
  {
    if n == 0 then map[]
    else
      var prev := LoadedFields(s, row, n - 1);
      if s.fieldNames[n - 1].1 == "id" then prev
      else prev[s.fieldNames[n - 1].1 := RowValue(row, s.fieldNames[n - 1].0)]
  }

  /** Every mapped property among the first n entries takes its column's value. */
  lemma {:induction false} LoadedFieldsAt(s: Schema, row: Row, n: nat, i: nat)
    requires WellFormed(s) && i < n <= |s.fieldNames| && s.fieldNames[i].1 != "id"
    ensures s.fieldNames[i].1 in LoadedFields(s, row, n)
    ensures LoadedFields(s, row, n)[s.fieldNames[i].1] == RowValue(row, s.fieldNames[i].0)
  {
    if i < n - 1 {
      LoadedFieldsAt(s, row, n - 1, i);
      assert s.fieldNames[n - 1].1 != s.fieldNames[i].1;
    }
  }

  /** Assigning into `defaults + fields` is assigning into `fields`. */
  lemma UnionUpdate(defaults: map<string, Value>, fields: map<string, Value>, k: string, v: Value)
    ensures (defaults + fields)[k := v] == defaults + fields[k := v]
  {
  }

  /** `isset($row[$column])` for the timestamp columns. */
  predicate IsSet(row: Row, column: string)
  {
    column in row && row[column] != VNull
  }

  /** The timestamp a set `created`/`modified` column is parsed into. */
  function Timestamp(v: Value): Value
  {
    VObject("DateTimeImmutable", [v])
  }

  /** The properties other than `id` of the instance `byId()` builds from `row`. */
  function LoadedProps(s: Schema, row: Row): (p: map<string, Value>)
    ensures forall q :: q in p ==> q in s.defaults || q in LoadedFields(s, row, |s.fieldNames|) || q in {"created", "modified"}
    ensures IsSet(row, "created") ==> "created" in p && p["created"] == Timestamp(row["created"])
    ensures IsSet(row, "modified") ==> "modified" in p && p["modified"] == Timestamp(row["modified"])
    ensures forall q :: q in s.defaults + LoadedFields(s, row, |s.fieldNames|) && q !in {"created", "modified"} ==>
      q in p && p[q] == (s.defaults + LoadedFields(s, row, |s.fieldNames|))[q]
  {
    var p := s.defaults + LoadedFields(s, row, |s.fieldNames|);
    var p := if IsSet(row, "created") then p["created" := Timestamp(row["created"])] else p;
    if IsSet(row, "modified") then p["modified" := Timestamp(row["modified"])] else p
  }

  /**
   * A record written by `create()` and read back by `byId()` has the same
   * properties: a plain column comes back as it was, a boolean column comes
   * back with the same truth value.
   */
  lemma StoredRecordReloads(s: Schema, driver: string, id: int, props: map<string, Value>, i: nat)
    requires WellFormed(s) && i < |s.fieldNames|
    requires s.fieldNames[i].1 !in {"id", "created", "modified"}
    ensures var row := ColumnSet(s, driver, id, props, |s.fieldNames|)[s.primaryKey := VInt(id)];
      var before := PropertyValue(id, props, s.fieldNames[i].1);
      var after := LoadedProps(s, row)[s.fieldNames[i].1];
      (s.fieldNames[i].0 !in s.booleanFields ==> after == before)
      && (s.fieldNames[i].0 in s.booleanFields ==> Truthy(after) == Truthy(before))
  {
    var n := |s.fieldNames|;
    var row := ColumnSet(s, driver, id, props, n)[s.primaryKey := VInt(id)];
    ColumnSetAt(s, driver, id, props, n, i);
    LoadedFieldsAt(s, row, n, i);
  }

  /** The runtime statics of Struct: `$objectCache` and `$runtimeCacheKey`, with the database. */
  class Runtime {
    const db: Database
    var objectCache: map<CacheKey, Struct>
    var runtimeCacheKey: Bytes

    /**
     * Every cached record is filed under the current runtime key, its own
     * class and its own (positive) id.
     */
    ghost predicate Valid()
      reads this, db, objectCache.Values`id
    {
      db.Valid()
      && forall k :: k in objectCache ==>
        runtimeCacheKey != [] && k.runtimeKey == runtimeCacheKey && k.id > 0
        && objectCache[k].id == k.id && objectCache[k].schema.className == k.className
    }

    /** The cached records of class `s.className` are of record type `s`. */
    predicate Consistent(s: Schema)
      reads this
    {
      forall k :: k in objectCache && k.className == s.className ==> objectCache[k].schema == s
    }

    constructor (db: Database)
      requires db.Valid()
      ensures Valid() && this.db == db && objectCache == map[] && runtimeCacheKey == []
    {
      this.db := db;
      objectCache := map[];
      runtimeCacheKey := [];
    }

    /** The record cached for class `className` and key `id`, if any. */
    function Cached(className: string, id: int): (r: Option<Struct>)
      reads this, db, objectCache.Values`id
      requires Valid()
      ensures r.Some? ==> r.value.id == id && id > 0 && r.value.schema.className == className
      ensures id <= 0 ==> r.None?
    {
      var k := CacheKey(runtimeCacheKey, className, id);
      if k in objectCache then Some(objectCache[k]) else None
    }

    /** `Struct::getRuntimeCache()`. */
    function GetRuntimeCache(): (r: map<CacheKey, Struct>)
      reads this, db, objectCache.Values`id
      requires Valid()
      ensures forall k :: k in r ==> r[k].id == k.id && r[k].schema.className == k.className
    {
      objectCache
    }
  }

  class Struct {
    const schema: Schema
    var id: int
    var props: map<string, Value>

    /** `new static()`: the declared defaults, and no primary key yet. */
    constructor (schema: Schema)
      ensures this.schema == schema && id == 0 && props == schema.defaults
    {
      this.schema := schema;
      id := 0;
      props := schema.defaults;
    }

    /** The `$fields` array `create()` and `update()` write. */
    function Fields(driver: string): Row
      reads this
    {
      ColumnSet(schema, driver, id, props, |schema.fieldNames|)
    }

    /** `property_exists($this, $name)` for instance properties. */
    predicate HasProperty(name: string)
      reads this
    {
      name == "id" || name in props
    }

    /** The loop of `create()`/`update()` that builds `$fields`. */
    method Columns(driver: string) returns (fields: Row)
      ensures fields == Fields(driver)
      ensures schema.primaryKey !in fields
      ensures WellFormed(schema) ==> forall i :: 0 <= i < |schema.fieldNames| && schema.fieldNames[i].0 != schema.primaryKey ==>
        schema.fieldNames[i].0 in fields && fields[schema.fieldNames[i].0] == ColumnValue(schema, driver, id, props, i)
    {
      fields := map[];
      var i := 0;
      while i < |schema.fieldNames|
        invariant 0 <= i <= |schema.fieldNames|
        invariant fields == ColumnSet(schema, driver, id, props, i)
      {
        var (field, property) := schema.fieldNames[i];
        if field != schema.primaryKey {
          if field in schema.booleanFields {
            fields := fields[field := DS.GetDatabaseBoolean(driver, Truthy(PropertyValue(id, props, property)))];
          } else {
            fields := fields[field := PropertyValue(id, props, property)];
          }
        }
        i := i + 1;
      }
      forall i | 0 <= i < |schema.fieldNames| && schema.fieldNames[i].0 != schema.primaryKey && WellFormed(schema)
        ensures schema.fieldNames[i].0 in fields && fields[schema.fieldNames[i].0] == ColumnValue(schema, driver, id, props, i)
      {
        ColumnSetAt(schema, driver, id, props, |schema.fieldNames|, i);
      }
    }

    /**
     * `getCacheKey($id)`: draws the runtime key on first use (`freshKey`
     * stands for the random bytes) and keys on `$id` when positive, else on
     * the instance's own id.
     */
    method GetCacheKey(rt: Runtime, id: int, freshKey: Bytes) returns (key: CacheKey)
      requires rt.Valid() && |freshKey| == RUNTIME_KEY_LENGTH
      modifies rt`runtimeCacheKey
      ensures rt.Valid()
      ensures rt.runtimeCacheKey == if old(rt.runtimeCacheKey) == [] then freshKey else old(rt.runtimeCacheKey)
      ensures rt.runtimeCacheKey != []
      ensures key == CacheKey(rt.runtimeCacheKey, schema.className, if id > 0 then id else this.id)
    {
      if rt.runtimeCacheKey == [] {
        rt.runtimeCacheKey := freshKey;
      }
      key := CacheKey(rt.runtimeCacheKey, schema.className, if id > 0 then id else this.id);
    }

    /** The loop of `byId()` that copies the row into a new instance. */
    method CopyRow(row: Row, id: int)
      requires WellFormed(schema) && this.id == 0 && props == schema.defaults
      requires schema.primaryKey in row && row[schema.primaryKey] == VInt(id)
      modifies this
      ensures this.id == id && props == schema.defaults + LoadedFields(schema, row, |schema.fieldNames|)
    {
      // the entry that maps the primary key column to `id`
      ghost var keyAt :| 0 <= keyAt < |schema.fieldNames| && schema.fieldNames[keyAt] == (schema.primaryKey, "id");
      var i := 0;
      while i < |schema.fieldNames|
        invariant 0 <= i <= |schema.fieldNames|
        invariant props == schema.defaults + LoadedFields(schema, row, i)
        invariant keyAt < i ==> this.id == id
      {
        var (field, property) := schema.fieldNames[i];
        if property == "id" {
          this.id := row[field].i;
        } else {
          UnionUpdate(schema.defaults, LoadedFields(schema, row, i), property, RowValue(row, field));
          props := props[property := RowValue(row, field)];
        }
        i := i + 1;
      }
    }

    /** The copy loop of `byId()`, then the `created`/`modified` timestamps. */
    method Load(row: Row, id: int)
      requires WellFormed(schema) && this.id == 0 && props == schema.defaults
      requires schema.primaryKey in row && row[schema.primaryKey] == VInt(id)
      modifies this
      ensures this.id == id && props == LoadedProps(schema, row)
    {
      CopyRow(row, id);
      if IsSet(row, "created") {
        props := props["created" := Timestamp(row["created"])];
      }
      if IsSet(row, "modified") {
        props := props["modified" := Timestamp(row["modified"])];
      }
    }

    /**
     * `byId($id)`: the cached instance of a Unique type, else a new instance
     * loaded from the row with that key (then cached for a Unique type).
     */
    static method ById(rt: Runtime, schema: Schema, id: int, freshKey: Bytes) returns (r: Result<Struct, Exception>)
      requires rt.Valid() && rt.Consistent(schema) && |freshKey| == RUNTIME_KEY_LENGTH
      requires DefinesConstants(schema) ==> WellFormed(schema)
      modifies rt`objectCache, rt`runtimeCacheKey
      ensures rt.Valid() && rt.Consistent(schema)
      ensures !DefinesConstants(schema) ==>
        r == Failure(Error("Struct does not define necessary constants")) && unchanged(rt)
      ensures DefinesConstants(schema) ==>
        rt.runtimeCacheKey == (if schema.unique && old(rt.runtimeCacheKey) == [] then freshKey else old(rt.runtimeCacheKey))
      // a Unique type hands back the instance it already holds
      ensures DefinesConstants(schema) && schema.unique && old(rt.Cached(schema.className, id)).Some? ==>
        r == Success(old(rt.Cached(schema.className, id)).value) && rt.objectCache == old(rt.objectCache)
      // otherwise the row is read
      ensures DefinesConstants(schema) && !(schema.unique && old(rt.Cached(schema.className, id)).Some?) ==>
        var row := rt.db.SelectRow(schema.tableName, schema.primaryKey, id);
        (row.None? ==> r == Failure(RecordNotFound) && rt.objectCache == old(rt.objectCache))
        && (row.Some? ==>
          r.Success? && fresh(r.value) && r.value.schema == schema
          && r.value.id == id && r.value.props == LoadedProps(schema, row.value)
          && rt.objectCache == if schema.unique
            then old(rt.objectCache)[CacheKey(rt.runtimeCacheKey, schema.className, id) := r.value]
            else old(rt.objectCache))
      ensures r.Success? ==> r.value.schema == schema && r.value.id == id
    {
      if !DefinesConstants(schema) {
        return Failure(Error("Struct does not define necessary constants"));
      }
      var self := new Struct(schema);
      if schema.unique {
        var key := self.GetCacheKey(rt, id, freshKey);
        if key in rt.objectCache {
          return Success(rt.objectCache[key]);
        }
      }
      var row := rt.db.SelectRow(schema.tableName, schema.primaryKey, id);
      if row.None? {
        return Failure(RecordNotFound);
      }
      self.LoadAndCache(rt, row.value, id, freshKey);
      return Success(self);
    }

    /** The end of `byId()`: the new instance takes the row, and a Unique one is cached. */
    method LoadAndCache(rt: Runtime, row: Row, id: int, freshKey: Bytes)
      requires rt.Valid() && rt.Consistent(schema) && WellFormed(schema) && |freshKey| == RUNTIME_KEY_LENGTH
      requires this.id == 0 && props == schema.defaults && this !in rt.objectCache.Values
      requires schema.primaryKey in row && row[schema.primaryKey] == VInt(id) && id > 0
      requires schema.unique ==> rt.runtimeCacheKey != []
      modifies this, rt`objectCache, rt`runtimeCacheKey
      ensures rt.Valid() && rt.Consistent(schema) && rt.runtimeCacheKey == old(rt.runtimeCacheKey)
      ensures this.id == id && props == LoadedProps(schema, row)
      ensures rt.objectCache == if schema.unique
        then old(rt.objectCache)[CacheKey(rt.runtimeCacheKey, schema.className, id) := this]
        else old(rt.objectCache)
    {
      Load(row, id);
      if schema.unique {
        var key := GetCacheKey(rt, id, freshKey);
        rt.objectCache := rt.objectCache[key := this];
      }
    }

    /**
     * `create()`: a record with an id is updated instead; otherwise its
     * columns are inserted, it takes the new key and a Unique record is
     * cached. The result is what `commit()` reports, `committed`.
     */
    method Create(rt: Runtime, committed: bool, freshKey: Bytes) returns (ok: bool)
      requires rt.Valid() && rt.Consistent(schema) && WellFormed(schema) && |freshKey| == RUNTIME_KEY_LENGTH
      modifies this`id, rt`objectCache, rt`runtimeCacheKey, rt.db
      decreases if id == 0 then 0 else 1
      ensures rt.Valid() && rt.Consistent(schema)
      ensures ok == committed && props == old(props)
      ensures old(id) == 0 ==>
        var t := old(rt.db.TableOf(schema.tableName));
        id == t.nextId && id > 0
        && rt.db.tables == old(rt.db.tables)[schema.tableName :=
          Table(if committed then t.rows[id := old(Fields(rt.db.driver))] else t.rows, id + 1)]
        && rt.objectCache == (if schema.unique
          then old(rt.objectCache)[CacheKey(rt.runtimeCacheKey, schema.className, id) := this]
          else old(rt.objectCache))
        && rt.runtimeCacheKey ==
          if schema.unique && old(rt.runtimeCacheKey) == [] then freshKey else old(rt.runtimeCacheKey)
      ensures old(id) != 0 ==>
        var t := old(rt.db.TableOf(schema.tableName));
        id == old(id) && rt.objectCache == old(rt.objectCache) && rt.runtimeCacheKey == old(rt.runtimeCacheKey)
        && rt.db.tables == if committed && id in t.rows
          then old(rt.db.tables)[schema.tableName := Table(t.rows[id := t.rows[id] + old(Fields(rt.db.driver))], t.nextId)]
          else old(rt.db.tables)
    {
      if id != 0 {
        ok := Update(rt, committed, freshKey);
        return;
      }
      ok := Insert(rt, committed, freshKey);
    }

    /** The body of `create()` for a record without an id. */
    method Insert(rt: Runtime, committed: bool, freshKey: Bytes) returns (ok: bool)
      requires rt.Valid() && rt.Consistent(schema) && WellFormed(schema) && |freshKey| == RUNTIME_KEY_LENGTH
      requires id == 0
      modifies this`id, rt`objectCache, rt`runtimeCacheKey, rt.db
      ensures rt.Valid() && rt.Consistent(schema)
      ensures ok == committed && props == old(props)
      ensures var t := old(rt.db.TableOf(schema.tableName));
        id == t.nextId && id > 0
        && rt.db.tables == old(rt.db.tables)[schema.tableName :=
          Table(if committed then t.rows[id := old(Fields(rt.db.driver))] else t.rows, id + 1)]
        && rt.objectCache == (if schema.unique
          then old(rt.objectCache)[CacheKey(rt.runtimeCacheKey, schema.className, id) := this]
          else old(rt.objectCache))
        && rt.runtimeCacheKey ==
          if schema.unique && old(rt.runtimeCacheKey) == [] then freshKey else old(rt.runtimeCacheKey)
    {
      var fields := Columns(rt.db.driver);
      var newId := rt.db.InsertGet(schema.tableName, fields, committed);
      id := newId;
      if schema.unique {
        var key := GetCacheKey(rt, 0, freshKey);
        rt.objectCache := rt.objectCache[key := this];
      }
      ok := committed;
    }

    /** `update()`: a record without an id is created instead; otherwise its row takes its columns. */
    method Update(rt: Runtime, committed: bool, freshKey: Bytes) returns (ok: bool)
      requires rt.Valid() && rt.Consistent(schema) && WellFormed(schema) && |freshKey| == RUNTIME_KEY_LENGTH
      modifies this`id, rt`objectCache, rt`runtimeCacheKey, rt.db
      decreases if id == 0 then 1 else 0
      ensures rt.Valid() && rt.Consistent(schema)
      ensures ok == committed && props == old(props)
      ensures old(id) == 0 ==>
        var t := old(rt.db.TableOf(schema.tableName));
        id == t.nextId && id > 0
        && rt.db.tables == old(rt.db.tables)[schema.tableName :=
          Table(if committed then t.rows[id := old(Fields(rt.db.driver))] else t.rows, id + 1)]
        && rt.objectCache == (if schema.unique
          then old(rt.objectCache)[CacheKey(rt.runtimeCacheKey, schema.className, id) := this]
          else old(rt.objectCache))
        && rt.runtimeCacheKey ==
          if schema.unique && old(rt.runtimeCacheKey) == [] then freshKey else old(rt.runtimeCacheKey)
      ensures old(id) != 0 ==>
        var t := old(rt.db.TableOf(schema.tableName));
        id == old(id) && rt.objectCache == old(rt.objectCache) && rt.runtimeCacheKey == old(rt.runtimeCacheKey)
        && rt.db.tables == if committed && id in t.rows
          then old(rt.db.tables)[schema.tableName := Table(t.rows[id := t.rows[id] + old(Fields(rt.db.driver))], t.nextId)]
          else old(rt.db.tables)
    {
      if id == 0 {
        ok := Create(rt, committed, freshKey);
        return;
      }
      var fields := Columns(rt.db.driver);
      rt.db.Update(schema.tableName, fields, id, committed);
      ok := committed;
    }

    /** `id()`: the primary key, once the record has one. */
    function Id(): (r: Result<int, Exception>)
      reads this
      ensures r.Success? <==> id != 0
      ensures r.Success? ==> r.value == id
      ensures r.Failure? ==> r.error == DatabaseException
    {
      if id == 0 then Failure(DatabaseException) else Success(id)
    }

    /** `__get($name)`. */
    function Get(name: string): (r: Result<Value, Exception>)
      reads this
      ensures r.Success? <==> HasProperty(name)
      ensures r.Success? ==> r.value == PropertyValue(id, props, name)
      ensures r.Failure? ==> r.error.InvalidArgument?
    {
      if !HasProperty(name) then Failure(InvalidArgument("Property " + name + " does not exist."))
      else Success(PropertyValue(id, props, name))
    }

    /** `__set($name, $value)`: checks the assignment, then makes it. */
    method Set(name: string, value: Value) returns (r: Outcome<Exception>)
      modifies this`props
      ensures r == AssignmentCheck(old(props), name, value)
      ensures r.Pass? ==> props == old(props)[name := value] && Get(name) == Success(value)
      ensures r.Fail? ==> props == old(props)
      ensures forall n :: n != name ==> Get(n) == old(Get(n))
    {
      r := AssignmentCheck(props, name, value);
      if r.Pass? {
        props := props[name := value];
      }
    }
  }

  /**
   * The checks of `__set()`: the property must exist, must not be `id`, and a
   * property that holds a non-null value keeps its type.
   */
  function AssignmentCheck(props: map<string, Value>, name: string, value: Value): (r: Outcome<Exception>)
    ensures r.Pass? <==> name != "id" && name in props && (props[name] == VNull || DS.SameKind(props[name], value))
    ensures name == "id" ==> r.Fail? && r.error.InvalidArgument?
    ensures r.Fail? && r.error == TypeError ==> name in props && !DS.SameKind(props[name], value)
  {
    if !(name == "id" || name in props) then Fail(InvalidArgument("Property " + name + " does not exist."))
    else if name == "id" then Fail(InvalidArgument("Cannot override an object's primary key."))
    else if props[name] != VNull && DS.GetGenericType(Some(props[name])) != DS.GetGenericType(Some(value)) then
      DS.GenericTypeIdentifiesKind(props[name], value);
      Fail(TypeError)
    else
      DS.GenericTypeIdentifiesKind(props[name], value);
      Pass
  }

  /** Once a property holds a non-null value, assignments never change its type. */
  lemma AssignmentKeepsType(props: map<string, Value>, name: string, value: Value)
    requires name in props && props[name] != VNull
    requires AssignmentCheck(props, name, value).Pass?
    ensures DS.GetGenericType(Some(props[name := value][name])) == DS.GetGenericType(Some(props[name]))
  {
    DS.GenericTypeIdentifiesKind(props[name], value);
  }

  /** For a Unique type, a second `byId($id)` yields the very instance the first one returned. */
  method ByIdTwice(rt: Runtime, schema: Schema, id: int, key1: Bytes, key2: Bytes)
    returns (first: Result<Struct, Exception>, second: Result<Struct, Exception>)
    requires rt.Valid() && rt.Consistent(schema) && WellFormed(schema) && schema.unique
    requires |key1| == RUNTIME_KEY_LENGTH && |key2| == RUNTIME_KEY_LENGTH
    modifies rt`objectCache, rt`runtimeCacheKey
    ensures first.Success? ==> second == first
    ensures first.Failure? ==> second.Failure?
  {
    first := Struct.ById(rt, schema, id, key1);
    second := Struct.ById(rt, schema, id, key2);
  }

  /** For a Unique type, `byId()` of the id `create()` handed out yields the created instance itself. */
  method CreateThenById(rt: Runtime, record: Struct, committed: bool, key1: Bytes, key2: Bytes)
    returns (found: Result<Struct, Exception>)
    requires rt.Valid() && rt.Consistent(record.schema) && WellFormed(record.schema)
    requires DefinesConstants(record.schema) && record.schema.unique
    requires record.id == 0 && |key1| == RUNTIME_KEY_LENGTH && |key2| == RUNTIME_KEY_LENGTH
    modifies record`id, rt`objectCache, rt`runtimeCacheKey, rt.db
    ensures found == Success(record) && record.id > 0
  {
    var ok := record.Create(rt, committed, key1);
    found := Struct.ById(rt, record.schema, record.id, key2);
  }
}
