/** The application error of crates/error/src/lib.rs and the store faults it wraps. */
module Errors {
  import opened Wrappers

  /** `AppError` holds a message; an error of the SQL layer is converted into one with
      a `rusqlite:` prefix, which the model keeps as a separate constructor. */
  datatype AppError =
    | AppError(message: string)
    | Sqlite(cause: SqliteError)

  /** The two engine errors the visible store code can produce. */
  datatype SqliteError =
    | QueryReturnedNoRows
    | ConversionFailure(cause: AppError)

  type Fallible<T> = Result<T, AppError>

  /** `From<TryLockError>`: the store mutex was already held. */
  const LockError: AppError := AppError("Failed to acquire lock on the database.")

  /** `From<ParseIntError>`: every integer-parse failure gets the same message. */
  const ParseIntError: AppError := AppError("failed to parse integer.")
}
