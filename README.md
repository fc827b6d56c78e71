# camera-server: request-handling logic over six keyed tables

This project models the request-handling core of a small camera server
backend, written in Rust with Rocket and Diesel. Users register. A user
creates cameras. A camera uploads JPEG images with its own camera token, and
users list and fetch those images. The model covers four things:

- the keyed `get`/`insert`/`update`/`delete` statements of the six tables
  (`users`, `user_tokens`, `cameras`, `camera_tokens`, `users_cameras`,
  `configs`), each table keyed by the primary key its `table!` declaration
  names;
- the two token request guards, which turn a `token` or `camera_token`
  header into a table row or one of three failures;
- `add_new_camera`, a four-insert saga whose hand-written compensations
  undo earlier inserts when a later one fails;
- the image handlers (latest image, image list, single image, upload) over
  an abstract directory listing, plus registration and the two config
  handlers.

Each table is a `Schema.Table<K, R>` object, a class holding a `map` from
primary key to row. Statements that change a table are methods with
`modifies`. Their postconditions give the new `rows` in terms of `old(rows)`:
which rows were added or removed, and that nothing else changed. Lookups,
guards and the config handlers are pure functions of a table's rows.

The store picks fresh keys (UUIDs, the serial `users_cameras_id`), and these
arrive as parameters. An insert fails when its `fail` flag is set or when
its key is already taken, which is a unique violation. Library calls also
become parameters: `Uuid::parse_str` is a partial, deterministic
`string -> Option<Uuid>`, bcrypt's `hash` is a total `string -> string`,
`Uuid`'s `Display` is a `Uuid -> string`, and the success of
`File::open`/`stream_to_file` on each path is a `string -> bool`. The same
goes for the environment and the clock: `IMAGES_DIRECTORY` and the current
time in seconds are inputs. `read_dir` of a camera directory is given as
`Option<seq<string>>`, where `None` means `read_dir` failed.

The access check `check_if_user_has_access_to_camera` is not part of this
model. `camera.rs` and `config.rs` import it from `users_cameras`, but
`users_cameras.rs` does not define it, and no file of this model does. Handlers
receive its outcome as an `Access` value and propagate a denial unchanged.

## Behaviour modelled as written

- `add_new_camera` compensates for a failed link insert or config insert by
  calling `camera_tokens::delete(new_camera.camera_id)`. That `delete` finds
  rows by the table's primary key, which is `camera_token`, and not by
  `camera_id`. So the token issued in step 2 stays in the table, pointing at
  a camera that has been deleted, unless its key happens to equal the camera
  id. A token row that is keyed by the camera id is deleted instead. The
  `expect` message on that call ("Failed to delete new camera token …")
  says the call is meant to remove the new token. The model follows the
  code, and the second postcondition of `Camera.AddNewCamera` states the
  orphaned row.
- `add_user` checks neither that the username is free nor issues a user
  token. A failed insert aborts the request through `unwrap` rather than
  answering an error. The model follows the code here too.
- Image names are compared as text, so images taken at 5, 20 and 100
  seconds list as `100`, `20`, `5` (`CameraImages.TimestampsSortAsText`).
- `AsChangeset` leaves out the primary-key field, which is `id` unless a
  struct says `#[primary_key]`, and none does. `Camera`, `CameraToken`,
  `UserToken`, `UsersCamera` and `Config` have no field `id`, so their
  changesets set every column, the key column included, and
  `update(k, row)` re-keys a row under `row`'s own key. `User` does have a
  field `id` (src/user.rs:18), so `user::update` sets only `username` and
  `password` and never re-keys a user.
- `UserToken`'s key field is `token` (src/user_tokens.rs:25), but the key
  column of `user_tokens` is `user_token` (src/schema.rs:24), so no column
  matches the field its derived changeset names. `UserTokens.Update`
  takes that field to be the key column, as `Queryable` does by position.

## Model

| member | source | states |
|---|---|---|
| `Schema.Find` | src/camera_tokens.rs:65-69 | `find(key).get_result()` succeeds iff a row is keyed `key`, returns exactly that row, and otherwise reports `RecordNotFound` |
| `Schema.Table.InsertRow` | src/camera_tokens.rs:71-78 | an insert fails on the failure flag or a taken key and leaves the table unchanged; otherwise it adds exactly the one row under its key |
| `Schema.Table.UpdateRow` | src/camera_tokens.rs:80-88 | an update fails on the flag, a missing row or a new key that is taken; otherwise the old row goes and the new row sits under its own key |
| `Schema.Table.DeleteRow` | src/camera_tokens.rs:90-92 | a delete removes only the row with that primary key and returns 1, or 0 when there was none |
| `UserTokens.FromRequest` | src/user_tokens.rs:29-56 | no header gives `(Unauthorized, NoTokenProvided)`; a header that does not parse gives `(BadRequest, ParseError)`; a parsed token gives the row keyed by it, or `(Unauthorized, NotFound)`; a success always carries the parsed token as its key |
| `UserTokens.ParseErrorIgnoresTable` | src/user_tokens.rs:36-42 | an unparseable header fails the same way whatever the table holds: no lookup decides it |
| `UserTokens.FromUserToken` | src/user_tokens.rs:64-70 | the insertable row keeps the `user_id` |
| `UserTokens.Get` | src/user_tokens.rs:76-80 | succeeds iff a row is keyed by the token, and returns that stored row, which carries the token when the table is keyed |
| `UserTokens.Insert` | src/user_tokens.rs:82-89 | adds exactly one row for the given user under the generated token (or nothing, on failure); `get` on that token then returns it |
| `UserTokens.Update` | src/user_tokens.rs:91-99 | replaces the row keyed by the token with the given row, under the row's own token, or changes nothing on failure |
| `UserTokens.Delete` | src/user_tokens.rs:101-103 | removes only the row keyed `t`; the count is 1 or 0 |
| `CameraTokens.FromRequest` | src/camera_tokens.rs:17-45 | no `camera_token` header gives `(Unauthorized, NoTokenProvided)`; an unparseable one gives `(BadRequest, ParseError)`; a parsed one gives the row keyed by it (whose `camera_token` is the parsed value), or `(Unauthorized, NotFound)` |
| `CameraTokens.ParseErrorIgnoresTable` | src/camera_tokens.rs:24-29 | an unparseable header fails before any lookup: the outcome does not depend on the table |
| `CameraTokens.FromCameraToken` | src/camera_tokens.rs:53-59 | the insertable row keeps the `camera_id` |
| `CameraTokens.Get` | src/camera_tokens.rs:65-69 | succeeds iff a row is keyed by the token, and returns that stored row, which carries the token when the table is keyed |
| `CameraTokens.Insert` | src/camera_tokens.rs:71-78 | adds exactly one row carrying the given `camera_id` under the generated token key; `get` on that key then returns it |
| `CameraTokens.Update` | src/camera_tokens.rs:80-88 | replaces the row keyed `k` with the given row, under its own `camera_token`, or changes nothing on failure |
| `CameraTokens.Delete` | src/camera_tokens.rs:90-92 | removes only the row whose primary key `camera_token` equals the argument; the count is 0 without such a row and 1 otherwise; every other row is unchanged |
| `UsersCameras.Get` | src/users_cameras.rs:25-29 | succeeds iff a link is keyed `id`, and returns that link |
| `UsersCameras.GetUsersCameras` | src/users_cameras.rs:54-61 | exactly the stored links whose `user_id` is the given user |
| `UsersCameras.LinksAfterInsert` | src/users_cameras.rs:31-38 | after a link is inserted, the links of a user gain that link if it is theirs, and otherwise stay the same |
| `UsersCameras.LinksAfterDelete` | src/users_cameras.rs:50-52 | deleting by id takes exactly the link keyed `id` away from its user's links |
| `UsersCameras.Insert` | src/users_cameras.rs:31-38 | adds exactly one link with the given `camera_id` and `user_id` under the generated `users_cameras_id` |
| `UsersCameras.Update` | src/users_cameras.rs:40-48 | replaces the link keyed `id`, under the new row's own id, or changes nothing on failure |
| `UsersCameras.Delete` | src/users_cameras.rs:50-52 | removes only the link keyed `id`; all other links are unchanged |
| `User.FromUser` | src/user.rs:30-37 | the insertable user keeps the username and the stored password |
| `User.Insert` | src/user.rs:47-51 | adds exactly one user under the generated id, or nothing on failure |
| `User.Delete` | src/user.rs:59-61 | removes only the user keyed `id` |
| `User.AddUser` | src/user.rs:63-84 | a password of fewer than 8 scalar values gives `({"error": "Password must be at least 8 characters long"}, 422)` and leaves users unchanged; otherwise exactly one row with the username and `hash(password)` is added, and the answer is `({}, Created)` |
| `Config.Get` | src/config.rs:24-28 | succeeds iff a config is keyed by the camera id, and returns that stored config, interval included, which belongs to the camera when the table is keyed |
| `Config.Insert` | src/config.rs:30-34 | stores the config under its own `camera_id`, failing if that camera already has one |
| `Config.Update` | src/config.rs:36-44 | replaces the config keyed `camera_id`, under the new row's key, or changes nothing on failure |
| `Config.Delete` | src/config.rs:46-48 | removes only the config of camera `c` |
| `Config.GetConfigUser` | src/config.rs:50-79 | an access denial is returned first; an unparseable id gives `("Failed to parse camera ID string", 422)`; a missing config gives `("Failed to read config", 500)`; otherwise the config keyed by the parsed id |
| `Config.GetConfigCamera` | src/config.rs:81-96 | with no access check, returns the config of `camera_token.camera_id`, or `("Failed to read config", 500)` |
| `Camera.FromCamera` | src/camera.rs:37-41 | the insertable camera keeps the name |
| `Camera.Get` | src/camera.rs:47-51 | succeeds iff a camera is keyed `camera_id`, and returns that stored camera, name included |
| `Camera.Insert` | src/camera.rs:53-57 | adds exactly one camera with the given name under the generated id |
| `Camera.Update` | src/camera.rs:59-67 | replaces the camera keyed `camera_id`, under the new row's id, or changes nothing on failure |
| `Camera.Delete` | src/camera.rs:69-71 | removes only the camera keyed `camera_id` |
| `Camera.Progress` | src/camera.rs:124-198 | counts the saga steps that succeed before the first failing insert; it is 0 iff the camera insert fails |
| `Camera.AddNewCamera` | src/camera.rs:117-201 | if all four inserts succeed, the store gains exactly the camera, the token `(t, c)`, the link `(l, c, user)` and the config `(c, 10)`, and the token row is returned; a failed camera insert or token insert leaves the store unchanged, with `("Failed to create new camera", 500)` or `("Failed to add camera token", 500)`; a failed link or config insert restores cameras, links and configs and answers `("Failed to pair user to camera", 500)` or `("Failed to create camera config", 500)`, while the token table keeps `t` and loses only a row keyed `c`; so the issued token is orphaned unless `t == c` |
| `CameraImages.CameraDirectory` | src/camera.rs:113-115 | the camera directory is the images root, a `/`, then the camera id string |
| `CameraImages.EntryPath` | src/camera.rs:247-251 | `DirEntry::path()` of a listed entry is the directory, a `/`, then exactly the entry's name |
| `CameraImages.InsertByName` | src/camera.rs:102-104 | inserting into a name-sorted listing keeps it sorted and adds exactly the one entry |
| `CameraImages.SortByName` | src/camera.rs:102-104 | the name order of a listing is sorted by file name and a permutation of the listing |
| `CameraImages.SortedPermutationUnique` | src/camera.rs:103 | two name-sorted permutations of the same listing are equal, so any correct `sort_by` yields `SortByName` |
| `CameraImages.SortEntries` | src/camera.rs:102-104 | the in-place sort leaves the array sorted by file name and a permutation of what it held |
| `CameraImages.ListCameraDirectory` | src/camera.rs:76-107 | a failed `read_dir` gives `("Failed to get list of images", 500)`; an empty listing gives `("Camera has no images (or doesn't exist)", 404)`; otherwise every entry, sorted by file name iff `sort`, and in listing order when not |
| `CameraImages.Stems` | src/camera.rs:303-307 | one stem per entry, in the entries' order |
| `CameraImages.Position` | src/camera.rs:309-315 | the first index whose element equals the image id; none iff no element does |
| `CameraImages.Latest` | src/camera.rs:244-251 | `last()` of the sorted listing is a listed name that no listed name follows, so the `expect` on `last()` cannot fire |
| `CameraImages.LatestIsUnique` | src/camera.rs:244-251 | any listed name that no listed name follows is `Latest`, so the entry opened does not depend on how the sort orders equal names |
| `CameraImages.GetLatest` | src/camera.rs:232-261 | the access check runs first; listing errors propagate; otherwise the path opened is `<camera directory>/<greatest name>`, or `("Failed to load image", 500)` if opening fails |
| `CameraImages.GetImageList` | src/camera.rs:263-283 | the access check runs first; listing errors propagate; otherwise one extension-stripped name per entry, in name order |
| `CameraImages.GetImage` | src/camera.rs:285-326 | the access check runs first; the unsorted listing is searched for the first entry whose stem equals the image id, with `("Image not found", 404)` if none; that entry's path is opened |
| `CameraImages.ImageFileName` | src/camera.rs:216-220 | the stored name `<secs>.jpg` is a valid entry name whose stem is the decimal `secs` |
| `CameraImages.UploadPath` | src/camera.rs:216-220 | the upload target is `camera_directory(images, camera id) + "/" + <secs>.jpg` |
| `CameraImages.UploadImage` | src/camera.rs:203-230 | succeeds iff streaming to the upload path succeeds, answering `secs` in decimal, which denotes `secs` and is the stem of the stored name; otherwise `("Failed to save image to server", 500)` |
| `CameraImages.UploadedImageIsFound` | src/camera.rs:309-315 | with the uploaded file listed, looking up the id the upload answered finds an entry with that stem, the first such |
| `CameraImages.TimestampsSortAsText` | src/camera.rs:103 | `5.jpg`, `20.jpg`, `100.jpg` sort as `100.jpg`, `20.jpg`, `5.jpg` |
| `Text.LastIndexOf` | src/camera.rs:278 | the last position of a character, with no occurrence after it, or -1 iff it does not occur |
| `Text.FileStem` | src/camera.rs:278 | `Path::file_stem` of an entry name: the whole name iff it has no `.` after its first character, otherwise the non-empty text before the last `.` |
| `Text.StemOfJpg` | src/camera.rs:216-220 | the stem of `<digits>.jpg` is the digits |
| `Text.NatToString` | src/camera.rs:229 | `to_string` gives non-empty decimal digits with no leading zero |
| `Text.NatToStringRoundTrip` | src/camera.rs:229 | reading the digits back gives the number |
| `Text.NameLeIsLexicographic` | src/camera.rs:103 | `NameLe`, the `file_name().cmp` order, holds iff the first name is a prefix of the second or the first character where they differ is smaller in the first |
| `Text.NameLeTotal` | src/camera.rs:103 | any two file names are ordered one way or the other |
| `Text.NameLeAntisymmetric` | src/camera.rs:103 | names ordered both ways are equal |
| `Text.NameLeTransitive` | src/camera.rs:103 | the file-name order is transitive |

## Left out

- Rocket plumbing: routes, the `Responder` for `ApiError`, `main` and
  `launch`. At this snapshot `main` declares only `mod user` and mounts only
  `index`, so the other modules are modelled as written but are not wired
  into the server.
- `crate::enums::token_error::TokenError`, which `camera_tokens.rs`
  imports, is not part of this model. The camera guard uses the
  `TokenError` of `user_tokens.rs`, whose three variants are the ones it
  names.
- `crate::ApiResponse` is not part of this model. `User.ApiResponse` holds
  only the JSON bodies `add_user` produces.
- `check_if_user_has_access_to_camera` is not part of this model. Its
  outcome is an input.
- The `all()` function of every module: it loads a whole table in an
  unspecified order.
- `user::get`: the same keyed read as `Schema.Find`.
- `user::update`: the keyed statement `Schema.Table.UpdateRow` with
  `newKey == key` only, because its changeset leaves out `id` and cannot
  re-key a user.
- Schema.Find: reads never fail in the model. A connection failure on a
  `get` would give the same outcome as a missing row in the guards and the
  config handlers, and is not a separate case.
- Non-UTF-8 entry names: a listing is a `seq<string>`, so it cannot hold
  the name on which `to_str().expect` panics in `get_image_list` and
  `get_image` (src/camera.rs:278, 305).
- CameraImages.GetImageList and CameraImages.GetImage: the panic of
  `file_stem().expect` on an entry without a name becomes
  `requires AllEntryNames(..)` on the listing, rather than a modelled panic.
- CameraImages.GetImageList: the `IMAGES_DIRECTORY` `expect`
  (src/camera.rs:110) runs before the access check there
  (src/camera.rs:269-272); the directory is an input, so the model does not
  capture that an unset variable panics even for a user without access.
- UsersCameras.GetUsersCameras: it returns the `set` of a user's links. It
  does not model the `QueryResult` error of the query, or the order and
  multiplicity of the `Vec` that `load` returns (src/users_cameras.rs:54-61).
- Panics become preconditions or are not modelled. This covers DB
  connection acquisition in the guards, `create_dir_all`, the clock, entry
  mapping in `read_dir`, and the `expect`s on compensating deletes (deletes
  never fail in the model).
- User.AddUser: the insert must succeed (its key is not taken), because the
  source unwraps it.
- User.AddUser: bcrypt is a function parameter. The model stores
  `hash(password)` and does not prove that this differs from the plaintext.
- The file system: directory contents, streamed bytes and file contents are
  not modelled. A handler that returns a `Stream<File>` returns the opened
  path instead.
- The UUID grammar of `parse_str`, bcrypt's salt and cost, and the text
  form of `Uuid`'s `Display`.
- Logging (`println!`). There is no concurrency in this code.
