/** The `users` table (primary key `user_id`, the struct field `id`) and registration. */
module User {
  import opened Types
  import opened ApiErrors
  import opened Schema

  datatype User = User(id: Uuid, username: string, password: string)

  /** The columns an insert supplies; the store generates `id`. */
  datatype InsertableUser = InsertableUser(username: string, password: string)

  type Rows = map<Uuid, User>

  /** `bcrypt::hash(password, DEFAULT_COST)`, taken as total (the source unwraps it). */
  type Hasher = string -> string

  /** The JSON bodies `add_user` answers with. */
  datatype Json = EmptyObject | ErrorObject(error: string)

  /** `ApiResponse { json, status }` */
  datatype ApiResponse = ApiResponse(json: Json, status: Status)

  const MinPasswordLength: nat := 8
  const ShortPassword := ApiResponse(ErrorObject("Password must be at least 8 characters long"), UnprocessableEntity)

  /** Every row sits under its own `id`. */
  ghost predicate Keyed(rows: Rows) {
    forall k | k in rows :: rows[k].id == k
  }

  /** `InsertableUser::from_user` keeps the username and the stored password. */
  function FromUser(u: User): (r: InsertableUser)
    ensures r.username == u.username && r.password == u.password
  {
    InsertableUser(u.username, u.password)
  }

  /** `insert(InsertableUser)`: one new user under the generated id. */
  method Insert(table: Table<Uuid, User>, newUser: InsertableUser, id: Uuid, fail: bool)
    returns (r: Result<User, DbError>)
    modifies table
    ensures r.Ok? <==> !fail && id !in old(table.rows)
    ensures r.Ok? ==> r.value == User(id, newUser.username, newUser.password)
    ensures table.rows == if r.Ok? then old(table.rows)[id := r.value] else old(table.rows)
    ensures Keyed(old(table.rows)) ==> Keyed(table.rows)
  {
    r := table.InsertRow(id, User(id, newUser.username, newUser.password), fail);
  }

  /** `delete(id)`: removes only the user keyed `id`. */
  method Delete(table: Table<Uuid, User>, id: Uuid) returns (count: nat)
    modifies table
    ensures table.rows == old(table.rows) - {id}
    ensures count == if id in old(table.rows) then 1 else 0
    ensures Keyed(old(table.rows)) ==> Keyed(table.rows)
  {
    count := table.DeleteRow(id);
  }

  /**
   * `add_user`: a password of fewer than eight scalar values is refused and
   * nothing is stored; otherwise exactly one row holding the username and the
   * hash of the password is inserted under the generated `id`. The source
   * unwraps the insert, so it must not fail: the key is not taken.
   */
  method AddUser(table: Table<Uuid, User>, newUser: InsertableUser, hash: Hasher, id: Uuid)
    returns (response: ApiResponse)
    requires |newUser.password| >= MinPasswordLength ==> id !in table.rows
    modifies table
    ensures |newUser.password| < MinPasswordLength ==>
      response == ShortPassword && table.rows == old(table.rows)
    ensures |newUser.password| >= MinPasswordLength ==>
      response == ApiResponse(EmptyObject, Created)
      && table.rows == old(table.rows)[id := User(id, newUser.username, hash(newUser.password))]
    ensures Keyed(old(table.rows)) ==> Keyed(table.rows)
  {
    if |newUser.password| < MinPasswordLength {
      return ShortPassword;
    }
    var ready := InsertableUser(newUser.username, hash(newUser.password));
    var inserted := Insert(table, ready, id, false);
    response := ApiResponse(EmptyObject, Created);
  }
}
