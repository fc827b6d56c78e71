/**
 * The `camera_tokens` table, whose primary key is `camera_token`, and the
 * request guard that turns a `camera_token` header into a row.
 */
module CameraTokens {
  import opened Types
  import opened ApiErrors
  import opened Schema
  import UserTokens

  /** The guard's error type; it has the variants of `UserTokens.TokenError`. */
  type TokenError = UserTokens.TokenError

  datatype CameraToken = CameraToken(camera_token: Uuid, camera_id: Uuid)

  /** The columns an insert supplies; the store generates `camera_token`. */
  datatype InsertableCameraToken = InsertableCameraToken(camera_id: Uuid)

  type Rows = map<Uuid, CameraToken>

  /** Every row sits under its own `camera_token`. */
  ghost predicate Keyed(rows: Rows) {
    forall k | k in rows :: rows[k].camera_token == k
  }

  /**
   * `FromRequest for CameraToken`: a missing header, a header that is no UUID
   * and a UUID with no row are the three failures; otherwise the row.
   */
  function FromRequest(header: Option<string>, parse: UuidParser, rows: Rows): (o: Outcome<CameraToken, TokenError>)
    ensures header.None? ==> o == Failure(Unauthorized, UserTokens.NoTokenProvided)
    ensures header.Some? && parse(header.value).None? ==> o == Failure(BadRequest, UserTokens.ParseError)
    ensures header.Some? && parse(header.value).Some? ==>
      var t := parse(header.value).value;
      o == if t in rows then Success(rows[t]) else Failure(Unauthorized, UserTokens.TokenError.NotFound)
    ensures o.Success? && Keyed(rows) ==>
      header.Some? && parse(header.value) == Some(o.value.camera_token) && o.value.camera_token in rows
  {
    match header
    case None => Failure(Unauthorized, UserTokens.NoTokenProvided)
    case Some(h) =>
      match parse(h)
      case None => Failure(BadRequest, UserTokens.ParseError)
      case Some(t) =>
        match Get(rows, t)
        case Ok(row) => Success(row)
        case Err(_) => Failure(Unauthorized, UserTokens.TokenError.NotFound)
  }

  /** A header that does not parse is rejected before the table is consulted. */
  lemma ParseErrorIgnoresTable(header: Option<string>, parse: UuidParser, rows: Rows, rows': Rows)
    requires header.Some? && parse(header.value).None?
    ensures FromRequest(header, parse, rows) == FromRequest(header, parse, rows')
    ensures FromRequest(header, parse, rows).Failure?
  {
  }

  /** `InsertableCameraToken::from_camera_token` keeps the camera and drops the key. */
  function FromCameraToken(t: CameraToken): (r: InsertableCameraToken)
    ensures r.camera_id == t.camera_id
  {
    InsertableCameraToken(t.camera_id)
  }

  /** `get(k)`: the row whose `camera_token` is `k`, or `RecordNotFound`. */
  function Get(rows: Rows, key: Uuid): (r: Result<CameraToken, DbError>)
    ensures r.Ok? <==> key in rows
    ensures r.Ok? ==> r.value == rows[key]
    ensures r.Ok? && Keyed(rows) ==> r.value.camera_token == key
  {
    Find(rows, key)
  }

  /** `insert(InsertableCameraToken)`: one new row for the camera under the generated token. */
  method Insert(table: Table<Uuid, CameraToken>, newToken: InsertableCameraToken, token: Uuid, fail: bool)
    returns (r: Result<CameraToken, DbError>)
    modifies table
    ensures r.Ok? <==> !fail && token !in old(table.rows)
    ensures r.Ok? ==> r.value == CameraToken(token, newToken.camera_id)
    ensures table.rows == if r.Ok? then old(table.rows)[token := r.value] else old(table.rows)
    ensures r.Ok? ==> Get(table.rows, token) == Ok(r.value)
    ensures Keyed(old(table.rows)) ==> Keyed(table.rows)
  {
    r := table.InsertRow(token, CameraToken(token, newToken.camera_id), fail);
  }

  /** `update(k, row)`: the row keyed `k` is replaced by `row`, under `row.camera_token`. */
  method Update(table: Table<Uuid, CameraToken>, key: Uuid, row: CameraToken, fail: bool)
    returns (r: Result<CameraToken, DbError>)
    modifies table
    ensures r.Ok? <==> !fail && key in old(table.rows) && (row.camera_token == key || row.camera_token !in old(table.rows))
    ensures r.Ok? ==> r.value == row && table.rows == (old(table.rows) - {key})[row.camera_token := row]
    ensures r.Err? ==> table.rows == old(table.rows)
    ensures Keyed(old(table.rows)) ==> Keyed(table.rows)
  {
    r := table.UpdateRow(key, row.camera_token, row, fail);
  }

  /**
   * `delete(k)`: removes only the row whose primary key `camera_token` is
   * `k`, whatever the callers name the argument.
   */
  method Delete(table: Table<Uuid, CameraToken>, key: Uuid) returns (count: nat)
    modifies table
    ensures table.rows == old(table.rows) - {key}
    ensures count == if key in old(table.rows) then 1 else 0
    ensures Keyed(old(table.rows)) ==> Keyed(table.rows)
  {
    count := table.DeleteRow(key);
  }
}
