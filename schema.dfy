/**
 * The relational store reduced to in-memory tables. Each `table!` declaration
 * names a primary key; a `Table<K, R>` holds that table's rows keyed by it, and
 * its methods are the keyed statements every module issues:
 * `insert_into(t).values(..).get_result`, `update(t.find(k)).set(..).get_result`
 * and `delete(t.find(k)).execute`. `find(k).get_result` is the function `Find`.
 */
module Schema {
  import opened Types

  class Table<K(==), R> {
    var rows: map<K, R>

    constructor (initial: map<K, R>)
      ensures rows == initial
    {
      rows := initial;
    }

    /**
     * Inserts `row` under `key`, the primary key the store assigns or the row
     * carries. The statement fails when `fail` holds or the key is taken.
     */
    method InsertRow(key: K, row: R, fail: bool) returns (r: Result<R, DbError>)
      modifies this
      ensures r == if fail then Err(StatementFailed)
                   else if key in old(rows) then Err(UniqueViolation)
                   else Ok(row)
      ensures rows == if r.Ok? then old(rows)[key := row] else old(rows)
    {
      if fail {
        r := Err(StatementFailed);
      } else if key in rows {
        r := Err(UniqueViolation);
      } else {
        rows := rows[key := row];
        r := Ok(row);
      }
    }

    /**
     * Overwrites the row found under `key` with `row`, whose own key is
     * `newKey`: the changesets derived in this repository set every column,
     * the key column included.
     */
    method UpdateRow(key: K, newKey: K, row: R, fail: bool) returns (r: Result<R, DbError>)
      modifies this
      ensures r == if fail then Err(StatementFailed)
                   else if key !in old(rows) then Err(RecordNotFound)
                   else if newKey != key && newKey in old(rows) then Err(UniqueViolation)
                   else Ok(row)
      ensures rows == if r.Ok? then (old(rows) - {key})[newKey := row] else old(rows)
    {
      if fail {
        r := Err(StatementFailed);
      } else if key !in rows {
        r := Err(RecordNotFound);
      } else if newKey != key && newKey in rows {
        r := Err(UniqueViolation);
      } else {
        rows := (rows - {key})[newKey := row];
        r := Ok(row);
      }
    }

    /** Deletes the row keyed `key`, if any, and returns how many rows went. */
    method DeleteRow(key: K) returns (count: nat)
      modifies this
      ensures rows == old(rows) - {key}
      ensures count == if key in old(rows) then 1 else 0
    {
      count := if key in rows then 1 else 0;
      rows := rows - {key};
    }
  }

  /** `table.find(key).get_result()` over a snapshot of the table's rows. */
  function Find<K(==), R>(rows: map<K, R>, key: K): (r: Result<R, DbError>)
    ensures r.Ok? <==> key in rows
    ensures r.Ok? ==> r.value == rows[key]
    ensures r.Err? ==> r.error == RecordNotFound
  {
    if key in rows then Ok(rows[key]) else Err(RecordNotFound)
  }

  /** Undoing an insert by deleting its key restores the table. */
  lemma DeleteUndoesInsert<K, R>(rows: map<K, R>, key: K, row: R)
    requires key !in rows
    ensures rows[key := row] - {key} == rows
  {
  }
}
