/** What a workflow hands back to the web layer: a status and a body, plus the
    trace of collaborator calls it made on the way. */
module Responses {
  import opened UserEntity
  import opened Dto
  import opened Collaborators

  /** The HTTP statuses the service produces. `InternalServerError` stands for
      an exception that escapes the service. */
  datatype Status = Ok | Created | NoContent | BadRequest | InternalServerError {

    /** `HttpStatus.isError`: a 4xx or 5xx status. */
    predicate IsError() {
      BadRequest? || InternalServerError?
    }
  }

  datatype Body =
    | NoBody
    | UserList(users: seq<User>)
    | PersistedUser(user: User)
    | Registered(info: UserApiResponse)
    | TokenResponse(token: string)
    | ErrorMessage(mensaje: seq<string>)

  datatype Response = Response(status: Status, body: Body)

  /** A BAD_REQUEST whose error body holds the single message. */
  function Rejected(message: string): Response {
    Response(BadRequest, ErrorMessage([message]))
  }

  datatype Run = Run(response: Response, events: seq<Event>) {

    predicate Writes() {
      exists i :: 0 <= i < |events| && events[i].IsWrite()
    }
  }
}
