/**
 * The `cameras` table (primary key `camera_id`) and `add_new_camera`, which
 * creates a camera in four inserts and undoes earlier ones by hand when a
 * later one fails.
 */
module Camera {
  import opened Types
  import opened ApiErrors
  import opened Schema
  import CameraTokens
  import UserTokens
  import UsersCameras
  import Config

  datatype Camera = Camera(camera_id: Uuid, name: string)

  /** The columns an insert supplies; the store generates `camera_id`. */
  datatype InsertableCamera = InsertableCamera(name: string)

  type Rows = map<Uuid, Camera>

  const CreateCameraFailed := ApiError("Failed to create new camera", InternalServerError)
  const AddTokenFailed := ApiError("Failed to add camera token", InternalServerError)
  const PairFailed := ApiError("Failed to pair user to camera", InternalServerError)
  const CreateConfigFailed := ApiError("Failed to create camera config", InternalServerError)

  /** The interval the new camera's config starts with. */
  const DefaultInterval: Int2 := 10

  /** Every row sits under its own `camera_id`. */
  ghost predicate Keyed(rows: Rows) {
    forall k | k in rows :: rows[k].camera_id == k
  }

  /** `InsertableCamera::from_camera` keeps the name and drops the key. */
  function FromCamera(c: Camera): (r: InsertableCamera)
    ensures r.name == c.name
  {
    InsertableCamera(c.name)
  }

  /** `get(camera_id)`: the camera keyed `camera_id`, or `RecordNotFound`. */
  function Get(rows: Rows, camera_id: Uuid): (r: Result<Camera, DbError>)
    ensures r.Ok? <==> camera_id in rows
    ensures r.Ok? ==> r.value == rows[camera_id]
    ensures r.Ok? && Keyed(rows) ==> r.value.camera_id == camera_id
  {
    Find(rows, camera_id)
  }

  /** `insert(InsertableCamera)`: one new camera under the generated `camera_id`. */
  method Insert(table: Table<Uuid, Camera>, newCamera: InsertableCamera, camera_id: Uuid, fail: bool)
    returns (r: Result<Camera, DbError>)
    modifies table
    ensures r.Ok? <==> !fail && camera_id !in old(table.rows)
    ensures r.Ok? ==> r.value == Camera(camera_id, newCamera.name)
    ensures table.rows == if r.Ok? then old(table.rows)[camera_id := r.value] else old(table.rows)
    ensures Keyed(old(table.rows)) ==> Keyed(table.rows)
  {
    r := table.InsertRow(camera_id, Camera(camera_id, newCamera.name), fail);
  }

  /** `update(camera_id, camera)`: the camera keyed `camera_id` is replaced, under `camera.camera_id`. */
  method Update(table: Table<Uuid, Camera>, camera_id: Uuid, camera: Camera, fail: bool)
    returns (r: Result<Camera, DbError>)
    modifies table
    ensures r.Ok? <==> !fail && camera_id in old(table.rows)
                       && (camera.camera_id == camera_id || camera.camera_id !in old(table.rows))
    ensures r.Ok? ==> r.value == camera && table.rows == (old(table.rows) - {camera_id})[camera.camera_id := camera]
    ensures r.Err? ==> table.rows == old(table.rows)
    ensures Keyed(old(table.rows)) ==> Keyed(table.rows)
  {
    r := table.UpdateRow(camera_id, camera.camera_id, camera, fail);
  }

  /** `delete(camera_id)`: removes only the camera keyed `camera_id`. */
  method Delete(table: Table<Uuid, Camera>, camera_id: Uuid) returns (count: nat)
    modifies table
    ensures table.rows == old(table.rows) - {camera_id}
    ensures count == if camera_id in old(table.rows) then 1 else 0
    ensures Keyed(old(table.rows)) ==> Keyed(table.rows)
  {
    count := table.DeleteRow(camera_id);
  }

  /**
   * What the store does with each of the saga's four inserts: the keys it
   * generates and whether the statement fails outright.
   */
  datatype StoreChoices = StoreChoices(
    camera_id: Uuid, cameraFails: bool,
    camera_token: Uuid, tokenFails: bool,
    users_cameras_id: Int4, linkFails: bool,
    configFails: bool)

  /**
   * How many of the saga's inserts succeed, in order, before the first that
   * fails (4: all of them), given the tables as they were when it started.
   */
  function Progress(store: StoreChoices, cameras: Rows, tokens: CameraTokens.Rows,
                    links: UsersCameras.Rows, configs: Config.Rows): (n: nat)
    ensures n <= 4
    ensures n == 0 <==> store.cameraFails || store.camera_id in cameras
  {
    if store.cameraFails || store.camera_id in cameras then 0
    else if store.tokenFails || store.camera_token in tokens then 1
    else if store.linkFails || store.users_cameras_id in links then 2
    else if store.configFails || store.camera_id in configs then 3
    else 4
  }

  /**
   * `add_new_camera`. Writing `c` for the new camera id, `t` for the new
   * token and `l` for the new link id, each step either succeeds or ends the
   * request after its compensation:
   *  1. camera insert fails: nothing changed;
   *  2. token insert fails: the camera is deleted, nothing changed;
   *  3. link insert fails: `camera_tokens::delete(c)`, then the camera is deleted;
   *  4. config insert fails: the link is deleted by `l`, then as in 3;
   *  otherwise the four rows are added and the token row is returned.
   * The token compensation deletes by token key `c`, so the token `t` issued
   * in step 2 survives steps 3 and 4 unless `t == c`, and a token row that
   * happens to be keyed `c` is deleted instead.
   */
  method AddNewCamera(
    cameras: Table<Uuid, Camera>,
    tokens: Table<Uuid, CameraTokens.CameraToken>,
    links: Table<Int4, UsersCameras.UsersCamera>,
    configs: Table<Uuid, Config.Config>,
    user_token: UserTokens.UserToken,
    camera_name: InsertableCamera,
    store: StoreChoices)
    returns (r: Result<CameraTokens.CameraToken, ApiError>)
    modifies cameras, tokens, links, configs
    ensures
      var p := Progress(store, old(cameras.rows), old(tokens.rows), old(links.rows), old(configs.rows));
      var c, t, l := store.camera_id, store.camera_token, store.users_cameras_id;
      && r == (if p == 0 then Err(CreateCameraFailed)
               else if p == 1 then Err(AddTokenFailed)
               else if p == 2 then Err(PairFailed)
               else if p == 3 then Err(CreateConfigFailed)
               else Ok(CameraTokens.CameraToken(t, c)))
      && cameras.rows == (if p == 4 then old(cameras.rows)[c := Camera(c, camera_name.name)] else old(cameras.rows))
      && tokens.rows == (if p == 4 then old(tokens.rows)[t := CameraTokens.CameraToken(t, c)]
                         else if p >= 2 then old(tokens.rows)[t := CameraTokens.CameraToken(t, c)] - {c}
                         else old(tokens.rows))
      && links.rows == (if p == 4 then old(links.rows)[l := UsersCameras.UsersCamera(l, c, user_token.user_id)]
                        else old(links.rows))
      && configs.rows == (if p == 4 then old(configs.rows)[c := Config.Config(c, DefaultInterval)]
                          else old(configs.rows))
    // A failed link or config insert leaves the issued token pointing at no camera.
    ensures
      var p := Progress(store, old(cameras.rows), old(tokens.rows), old(links.rows), old(configs.rows));
      (p == 2 || p == 3) && store.camera_token != store.camera_id ==>
        && store.camera_token in tokens.rows
        && tokens.rows[store.camera_token].camera_id == store.camera_id
        && store.camera_id !in cameras.rows
    ensures Keyed(old(cameras.rows)) ==> Keyed(cameras.rows)
    ensures CameraTokens.Keyed(old(tokens.rows)) ==> CameraTokens.Keyed(tokens.rows)
    ensures UsersCameras.Keyed(old(links.rows)) ==> UsersCameras.Keyed(links.rows)
    ensures Config.Keyed(old(configs.rows)) ==> Config.Keyed(configs.rows)
  {
    // Insert a new camera; the store picks its id.
    var new_camera := Insert(cameras, camera_name, store.camera_id, store.cameraFails);
    if new_camera.Err? {
      return Err(CreateCameraFailed);
    }
    var c := new_camera.value.camera_id;
    DeleteUndoesInsert(old(cameras.rows), c, new_camera.value);

    // Issue the camera's token.
    var new_camera_token := CameraTokens.Insert(tokens, CameraTokens.InsertableCameraToken(c),
                                                store.camera_token, store.tokenFails);
    if new_camera_token.Err? {
      var _ := Delete(cameras, c);
      return Err(AddTokenFailed);
    }

    // Give the creating user access to the camera.
    var users_camera := UsersCameras.Insert(links, UsersCameras.InsertableUsersCamera(c, user_token.user_id),
                                            store.users_cameras_id, store.linkFails);
    if users_camera.Err? {
      // As written: this deletes the token row keyed by the camera id.
      var _ := CameraTokens.Delete(tokens, c);
      var _ := Delete(cameras, c);
      return Err(PairFailed);
    }
    DeleteUndoesInsert(old(links.rows), users_camera.value.users_cameras_id, users_camera.value);

    var config := Config.Insert(configs, Config.Config(c, DefaultInterval), store.configFails);
    if config.Err? {
      var _ := UsersCameras.Delete(links, users_camera.value.users_cameras_id);
      var _ := CameraTokens.Delete(tokens, c);
      var _ := Delete(cameras, c);
      return Err(CreateConfigFailed);
    }

    r := Ok(new_camera_token.value);
  }
}
