/**
 * The relational store behind EasyDB, as the core uses it: tables of rows keyed
 * by an auto-increment primary key, with single-statement writes that take
 * effect when the surrounding transaction commits.
 */
module Storage {
  import opened Wrappers
  import opened PhpValues

  /** A stored row: column name to value, without the primary-key column. */
  type Row = map<string, Value>

  /** A table: its rows by primary key and the next value of its auto-increment key. */
  datatype Table = Table(rows: map<int, Row>, nextId: int)

  /** Every key is positive and below the next key to be handed out. */
  predicate TableValid(t: Table)
  {
    t.nextId > 0 && forall k :: k in t.rows ==> 0 < k < t.nextId
  }

  class Database {
    /** `getDriver()`. */
    const driver: string
    var tables: map<string, Table>

    ghost predicate Valid()
      reads this
    {
      forall n :: n in tables ==> TableValid(tables[n])
    }

    constructor (driver: string)
      ensures Valid() && this.driver == driver && tables == map[]
    {
      this.driver := driver;
      tables := map[];
    }

    /** The table of that name; one never written is empty. */
    function TableOf(name: string): (t: Table)
      reads this
      ensures Valid() ==> TableValid(t)
      ensures name !in tables ==> t == Table(map[], 1)
    {
      if name in tables then tables[name] else Table(map[], 1)
    }

    /** `row("SELECT * FROM table WHERE primaryKey = ?", id)`: the stored columns and the key column. */
    function SelectRow(table: string, primaryKey: string, id: int): (r: Option<Row>)
      reads this
      ensures r.Some? <==> id in TableOf(table).rows
      ensures r.Some? ==> primaryKey in r.value && r.value[primaryKey] == VInt(id)
      ensures r.Some? ==> forall c :: c in r.value && c != primaryKey ==>
        c in TableOf(table).rows[id] && r.value[c] == TableOf(table).rows[id][c]
    {
      var t := TableOf(table);
      if id in t.rows then Some(t.rows[id][primaryKey := VInt(id)]) else None
    }

    /**
     * `insertGet(table, fields, primaryKey)` inside a transaction, then `commit()`,
     * which reports `committed`. The new key is handed out either way; the row is
     * kept only when the commit succeeds.
     */
    method InsertGet(table: string, fields: Row, committed: bool) returns (id: int)
      requires Valid()
      modifies this
      ensures Valid()
      ensures id == old(TableOf(table)).nextId && id > 0
      ensures id !in old(TableOf(table)).rows
      ensures tables == old(tables)[table := Table(
        if committed then old(TableOf(table)).rows[id := fields] else old(TableOf(table)).rows, id + 1)]
    {
      var t := TableOf(table);
      id := t.nextId;
      tables := tables[table := Table(if committed then t.rows[id := fields] else t.rows, id + 1)];
    }

    /**
     * `update(table, fields, [primaryKey => id])` inside a transaction, then
     * `commit()`: the row with that key, if any, takes the new column values.
     */
    method Update(table: string, fields: Row, id: int, committed: bool)
      requires Valid()
      modifies this
      ensures Valid()
      ensures tables == if committed && id in old(TableOf(table)).rows
        then old(tables)[table := Table(old(TableOf(table)).rows[id := old(TableOf(table)).rows[id] + fields], old(TableOf(table)).nextId)]
        else old(tables)
    {
      var t := TableOf(table);
      if committed && id in t.rows {
        tables := tables[table := Table(t.rows[id := t.rows[id] + fields], t.nextId)];
      }
    }
  }
}
