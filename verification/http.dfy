/** Response shapes shared by the controllers, reduced to what a caller observes:
    a status family and a body. Routing and status-code mechanics are not modelled. */
module Http {

  /** Present or absent, in place of a null reference. */
  datatype Option<+T> = None | Some(value: T)

  /** An action result: 200 with a body, 201 with the created entity, 204 with no
      body, 400 with an error message, or an unhandled store exception (500;
      the authentication envelope calls the same outcome `Unhandled`). */
  datatype Response<+T> =
    | Ok(body: T)
    | Created(body: T)
    | NoContent
    | BadRequest(error: string)
    | ServerError

  /** What an endpoint answers, together with the state it leaves behind. */
  datatype Step<+R, +S> = Step(response: R, state: S)
}
