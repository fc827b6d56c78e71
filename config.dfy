/** The `configs` table, keyed by `camera_id`, and the two config handlers. */
module Config {
  import opened Types
  import opened ApiErrors
  import opened Schema
  import CameraTokens

  /** A camera's polling interval. */
  datatype Config = Config(camera_id: Uuid, interval: Int2)

  type Rows = map<Uuid, Config>

  const ParseCameraIdFailed := ApiError("Failed to parse camera ID string", UnprocessableEntity)
  const ReadConfigFailed := ApiError("Failed to read config", InternalServerError)

  /** Every row sits under its own `camera_id`. */
  ghost predicate Keyed(rows: Rows) {
    forall k | k in rows :: rows[k].camera_id == k
  }

  /** `get(camera_id)`: the config of that camera, or `RecordNotFound`. */
  function Get(rows: Rows, camera_id: Uuid): (r: Result<Config, DbError>)
    ensures r.Ok? <==> camera_id in rows
    ensures r.Ok? ==> r.value == rows[camera_id]
    ensures r.Ok? && Keyed(rows) ==> r.value.camera_id == camera_id
  {
    Find(rows, camera_id)
  }

  /** `insert(config)`: the row is stored under its own `camera_id`, which must be free. */
  method Insert(table: Table<Uuid, Config>, config: Config, fail: bool) returns (r: Result<Config, DbError>)
    modifies table
    ensures r.Ok? <==> !fail && config.camera_id !in old(table.rows)
    ensures r.Ok? ==> r.value == config
    ensures table.rows == if r.Ok? then old(table.rows)[config.camera_id := config] else old(table.rows)
    ensures Keyed(old(table.rows)) ==> Keyed(table.rows)
  {
    r := table.InsertRow(config.camera_id, config, fail);
  }

  /** `update(camera_id, config)`: the config keyed `camera_id` is replaced, under `config.camera_id`. */
  method Update(table: Table<Uuid, Config>, camera_id: Uuid, config: Config, fail: bool)
    returns (r: Result<Config, DbError>)
    modifies table
    ensures r.Ok? <==> !fail && camera_id in old(table.rows)
                       && (config.camera_id == camera_id || config.camera_id !in old(table.rows))
    ensures r.Ok? ==> r.value == config && table.rows == (old(table.rows) - {camera_id})[config.camera_id := config]
    ensures r.Err? ==> table.rows == old(table.rows)
    ensures Keyed(old(table.rows)) ==> Keyed(table.rows)
  {
    r := table.UpdateRow(camera_id, config.camera_id, config, fail);
  }

  /** `delete(camera_id)`: removes only that camera's config. */
  method Delete(table: Table<Uuid, Config>, camera_id: Uuid) returns (count: nat)
    modifies table
    ensures table.rows == old(table.rows) - {camera_id}
    ensures count == if camera_id in old(table.rows) then 1 else 0
    ensures Keyed(old(table.rows)) ==> Keyed(table.rows)
  {
    count := table.DeleteRow(camera_id);
  }

  /**
   * `get_config_user`: the access check comes first, then the camera id is
   * parsed, then the config is read.
   */
  function GetConfigUser(access: Access, camera_id_string: string, parse: UuidParser, rows: Rows)
    : (r: Result<Config, ApiError>)
    ensures access.Denied? ==> r == Err(access.error)
    ensures access.Granted? && parse(camera_id_string).None? ==> r == Err(ParseCameraIdFailed)
    ensures access.Granted? && parse(camera_id_string).Some? ==>
      var id := parse(camera_id_string).value;
      r == if id in rows then Ok(rows[id]) else Err(ReadConfigFailed)
    ensures r.Ok? && Keyed(rows) ==> access.Granted? && parse(camera_id_string) == Some(r.value.camera_id)
  {
    match access
    case Denied(e) => Err(e)
    case Granted =>
      match parse(camera_id_string)
      case None => Err(ParseCameraIdFailed)
      case Some(id) =>
        match Get(rows, id)
        case Err(_) => Err(ReadConfigFailed)
        case Ok(config) => Ok(config)
  }

  /**
   * `get_config_camera`: no access check; the camera token names the camera
   * whose config is read.
   */
  function GetConfigCamera(token: CameraTokens.CameraToken, rows: Rows): (r: Result<Config, ApiError>)
    ensures r == if token.camera_id in rows then Ok(rows[token.camera_id]) else Err(ReadConfigFailed)
    ensures r.Ok? && Keyed(rows) ==> r.value.camera_id == token.camera_id
  {
    match Get(rows, token.camera_id)
    case Err(_) => Err(ReadConfigFailed)
    case Ok(config) => Ok(config)
  }
}
