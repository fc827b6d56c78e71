/**
 * The `users_cameras` link table, keyed by the serial `users_cameras_id`:
 * a row gives one user access to one camera.
 */
module UsersCameras {
  import opened Types
  import opened Schema

  datatype UsersCamera = UsersCamera(users_cameras_id: Int4, camera_id: Uuid, user_id: Uuid)

  /** The columns an insert supplies; the store generates `users_cameras_id`. */
  datatype InsertableUsersCamera = InsertableUsersCamera(camera_id: Uuid, user_id: Uuid)

  type Rows = map<Int4, UsersCamera>

  /** Every row sits under its own `users_cameras_id`. */
  ghost predicate Keyed(rows: Rows) {
    forall k | k in rows :: rows[k].users_cameras_id == k
  }

  /** `get(id)`: the link keyed `id`, or `RecordNotFound`. */
  function Get(rows: Rows, id: Int4): (r: Result<UsersCamera, DbError>)
    ensures r.Ok? <==> id in rows
    ensures r.Ok? ==> r.value in rows.Values
    ensures r.Ok? && Keyed(rows) ==> r.value.users_cameras_id == id
  {
    Find(rows, id)
  }

  /**
   * `get_users_cameras(user_id)`: the links of that user. The query has no
   * ORDER BY, so the model returns the rows as a set.
   */
  function GetUsersCameras(rows: Rows, user_id: Uuid): (links: set<UsersCamera>)
    ensures links <= rows.Values
    ensures forall k | k in rows && rows[k].user_id == user_id :: rows[k] in links
    ensures forall l | l in links :: l.user_id == user_id
  {
    set l | l in rows.Values && l.user_id == user_id
  }

  /** A new link shows up among its user's links and nobody else's. */
  lemma {:induction false} LinksAfterInsert(rows: Rows, link: UsersCamera, user_id: Uuid)
    requires link.users_cameras_id !in rows
    ensures GetUsersCameras(rows[link.users_cameras_id := link], user_id)
         == GetUsersCameras(rows, user_id) + (if link.user_id == user_id then {link} else {})
  {
    var rows' := rows[link.users_cameras_id := link];
    assert rows'.Values == rows.Values + {link} by {
      forall l | l in rows'.Values ensures l in rows.Values + {link} {
        var k :| k in rows' && rows'[k] == l;
        if k != link.users_cameras_id {
          assert rows[k] == l;
        }
      }
      forall l | l in rows.Values ensures l in rows'.Values {
        var k :| k in rows && rows[k] == l;
        assert rows'[k] == l;
      }
      assert rows'[link.users_cameras_id] == link;
    }
  }

  /** Deleting a link by its id takes exactly that link from its user's links. */
  lemma {:induction false} LinksAfterDelete(rows: Rows, id: Int4, user_id: Uuid)
    requires Keyed(rows)
    ensures GetUsersCameras(rows - {id}, user_id)
         == GetUsersCameras(rows, user_id) - (if id in rows then {rows[id]} else {})
  {
    var rows' := rows - {id};
    if id in rows {
      assert rows'.Values == rows.Values - {rows[id]} by {
        forall l | l in rows'.Values ensures l in rows.Values - {rows[id]} {
          var k :| k in rows' && rows'[k] == l;
          assert l.users_cameras_id == k != id;
        }
        forall l | l in rows.Values - {rows[id]} ensures l in rows'.Values {
          var k :| k in rows && rows[k] == l;
          assert k != id && rows'[k] == l;
        }
      }
    } else {
      assert rows' == rows;
    }
  }

  /** `insert(InsertableUsersCamera)`: one new link under the generated id. */
  method Insert(table: Table<Int4, UsersCamera>, newLink: InsertableUsersCamera, id: Int4, fail: bool)
    returns (r: Result<UsersCamera, DbError>)
    modifies table
    ensures r.Ok? <==> !fail && id !in old(table.rows)
    ensures r.Ok? ==> r.value == UsersCamera(id, newLink.camera_id, newLink.user_id)
    ensures table.rows == if r.Ok? then old(table.rows)[id := r.value] else old(table.rows)
    ensures r.Ok? ==> Get(table.rows, id) == Ok(r.value)
    ensures Keyed(old(table.rows)) ==> Keyed(table.rows)
  {
    r := table.InsertRow(id, UsersCamera(id, newLink.camera_id, newLink.user_id), fail);
  }

  /** `update(id, row)`: the link keyed `id` is replaced by `row`, under `row.users_cameras_id`. */
  method Update(table: Table<Int4, UsersCamera>, id: Int4, row: UsersCamera, fail: bool)
    returns (r: Result<UsersCamera, DbError>)
    modifies table
    ensures r.Ok? <==> !fail && id in old(table.rows)
                       && (row.users_cameras_id == id || row.users_cameras_id !in old(table.rows))
    ensures r.Ok? ==> r.value == row && table.rows == (old(table.rows) - {id})[row.users_cameras_id := row]
    ensures r.Err? ==> table.rows == old(table.rows)
    ensures Keyed(old(table.rows)) ==> Keyed(table.rows)
  {
    r := table.UpdateRow(id, row.users_cameras_id, row, fail);
  }

  /** `delete(id)`: removes only the link keyed `id`. */
  method Delete(table: Table<Int4, UsersCamera>, id: Int4) returns (count: nat)
    modifies table
    ensures table.rows == old(table.rows) - {id}
    ensures count == if id in old(table.rows) then 1 else 0
    ensures Keyed(old(table.rows)) ==> Keyed(table.rows)
  {
    count := table.DeleteRow(id);
  }
}
