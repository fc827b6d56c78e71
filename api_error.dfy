/** HTTP statuses and the static `(error, status)` pairs handlers return. */
module ApiErrors {

  /** The statuses the handlers and request guards use. */
  datatype Status = BadRequest | Unauthorized | NotFound | UnprocessableEntity | InternalServerError | Created

  /** `ApiError { error: &'static str, status: Status }` */
  datatype ApiError = ApiError(error: string, status: Status)

  /**
   * Result of the access check `check_if_user_has_access_to_camera`, whose
   * body is not part of this model: it either lets the handler go on or
   * yields the error the handler must propagate.
   */
  datatype Access = Granted | Denied(error: ApiError)

  /** A request guard's `request::Outcome` (Rocket's `Forward` is never produced here). */
  datatype Outcome<+T, +E> = Success(value: T) | Failure(status: Status, error: E)
}
