/** The status codes and the `{error, msg}` reply shape that the handlers send. */
module Http {
  const StatusOK := 200
  const StatusCreated := 201
  const StatusBadRequest := 400
  const StatusUnauthorized := 401
  const StatusInternalServerError := 500

  /** A JSON reply reduced to its status code and its message text. */
  datatype Reply = Reply(status: int, message: string)
}
