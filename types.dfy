/** Value types shared by every table and handler. */
module Types {

  datatype Option<+T> = None | Some(value: T)

  /** Rust's `Result`: a value or an error. */
  datatype Result<+T, +E> = Ok(value: T) | Err(error: E)

  /** A 128-bit UUID, the `Uuid` column type of the schema. */
  type Uuid = x: int | 0 <= x < 0x1_0000_0000_0000_0000_0000_0000_0000_0000

  /** The `Int4` column type (Rust `i32`). */
  type Int4 = x: int | -0x8000_0000 <= x < 0x8000_0000

  /** The `Int2` column type (Rust `i16`). */
  type Int2 = x: int | -0x8000 <= x < 0x8000

  /** Rust `u64`, the type of `Duration::as_secs`. */
  type U64 = x: int | 0 <= x < 0x1_0000_0000_0000_0000

  /** `uuid::Uuid::parse_str`: partial and deterministic; its grammar is not modelled. */
  type UuidParser = string -> Option<Uuid>

  /** The errors a keyed statement reports (diesel's `QueryResult` error side). */
  datatype DbError =
    | RecordNotFound    // `find(key)` matched no row
    | UniqueViolation   // the primary key is already taken
    | StatementFailed   // any other failure of the statement (connection, constraint, ...)
}
