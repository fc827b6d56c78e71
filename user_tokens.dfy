/**
 * The `user_tokens` table (primary key `user_token`, the struct field
 * `token`) and the request guard that turns a `token` header into a row.
 */
module UserTokens {
  import opened Types
  import opened ApiErrors
  import opened Schema

  /** Why a token request guard rejected the request. */
  datatype TokenError = ParseError | NotFound | NoTokenProvided

  datatype UserToken = UserToken(token: Uuid, user_id: Uuid)

  /** The columns an insert supplies; the store generates `token`. */
  datatype InsertableUserToken = InsertableUserToken(user_id: Uuid)

  type Rows = map<Uuid, UserToken>

  /** Every row sits under its own `token`. */
  ghost predicate Keyed(rows: Rows) {
    forall k | k in rows :: rows[k].token == k
  }

  /**
   * `FromRequest for UserToken`: a missing header, a header that is no UUID
   * and a UUID with no row are the three failures; otherwise the row.
   */
  function FromRequest(header: Option<string>, parse: UuidParser, rows: Rows): (o: Outcome<UserToken, TokenError>)
    ensures header.None? ==> o == Failure(Unauthorized, NoTokenProvided)
    ensures header.Some? && parse(header.value).None? ==> o == Failure(BadRequest, ParseError)
    ensures header.Some? && parse(header.value).Some? ==>
      var t := parse(header.value).value;
      o == if t in rows then Success(rows[t]) else Failure(Unauthorized, TokenError.NotFound)
    ensures o.Success? && Keyed(rows) ==>
      header.Some? && parse(header.value) == Some(o.value.token) && o.value.token in rows
  {
    match header
    case None => Failure(Unauthorized, NoTokenProvided)
    case Some(h) =>
      match parse(h)
      case None => Failure(BadRequest, ParseError)
      case Some(t) =>
        match Get(rows, t)
        case Ok(row) => Success(row)
        case Err(_) => Failure(Unauthorized, TokenError.NotFound)
  }

  /** A header that does not parse is rejected before the table is consulted. */
  lemma ParseErrorIgnoresTable(header: Option<string>, parse: UuidParser, rows: Rows, rows': Rows)
    requires header.Some? && parse(header.value).None?
    ensures FromRequest(header, parse, rows) == FromRequest(header, parse, rows')
    ensures FromRequest(header, parse, rows).Failure?
  {
  }

  /** `InsertableUserToken::from_user_token` keeps the user and drops the key. */
  function FromUserToken(t: UserToken): (r: InsertableUserToken)
    ensures r.user_id == t.user_id
  {
    InsertableUserToken(t.user_id)
  }

  /** `get(token)`: the row keyed `token`, or `RecordNotFound`. */
  function Get(rows: Rows, token: Uuid): (r: Result<UserToken, DbError>)
    ensures r.Ok? <==> token in rows
    ensures r.Ok? ==> r.value == rows[token]
    ensures r.Ok? && Keyed(rows) ==> r.value.token == token
  {
    Find(rows, token)
  }

  /** `insert(InsertableUserToken)`: one new row for the user under the generated `token`. */
  method Insert(table: Table<Uuid, UserToken>, newToken: InsertableUserToken, token: Uuid, fail: bool)
    returns (r: Result<UserToken, DbError>)
    modifies table
    ensures r.Ok? <==> !fail && token !in old(table.rows)
    ensures r.Ok? ==> r.value == UserToken(token, newToken.user_id)
    ensures table.rows == if r.Ok? then old(table.rows)[token := r.value] else old(table.rows)
    ensures r.Ok? ==> Get(table.rows, token) == Ok(r.value)
    ensures Keyed(old(table.rows)) ==> Keyed(table.rows)
  {
    r := table.InsertRow(token, UserToken(token, newToken.user_id), fail);
  }

  /** `update(token, row)`: the row keyed `token` is replaced by `row`, under `row.token`. */
  method Update(table: Table<Uuid, UserToken>, token: Uuid, row: UserToken, fail: bool)
    returns (r: Result<UserToken, DbError>)
    modifies table
    ensures r.Ok? <==> !fail && token in old(table.rows) && (row.token == token || row.token !in old(table.rows))
    ensures r.Ok? ==> r.value == row && table.rows == (old(table.rows) - {token})[row.token := row]
    ensures r.Err? ==> table.rows == old(table.rows)
    ensures Keyed(old(table.rows)) ==> Keyed(table.rows)
  {
    r := table.UpdateRow(token, row.token, row, fail);
  }

  /** `delete(token)`: removes only the row keyed `token`. */
  method Delete(table: Table<Uuid, UserToken>, token: Uuid) returns (count: nat)
    modifies table
    ensures table.rows == old(table.rows) - {token}
    ensures count == if token in old(table.rows) then 1 else 0
    ensures Keyed(old(table.rows)) ==> Keyed(table.rows)
  {
    count := table.DeleteRow(token);
  }
}
