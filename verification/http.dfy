/** The JSON envelope every endpoint answers with (`success`, `message`, and
    either `data` or `error`), as a plain record, plus the status codes used. */
module Http {

  import opened Base
  import opened Models

  const StatusOK: int := 200
  const StatusCreated: int := 201
  const StatusAccepted: int := 202
  const StatusNoContent: int := 204
  const StatusBadRequest: int := 400
  const StatusUnauthorized: int := 401
  const StatusForbidden: int := 403
  const StatusNotFound: int := 404
  const StatusConflict: int := 409
  const StatusInternalServerError: int := 500

  /** What rides in the envelope's `data` (on success) or `error` (on failure). */
  datatype Payload =
    | NoPayload
    | ProjectBody(project: ProjectResponse)
    | ProjectListBody(projects: seq<ProjectResponse>)
    | TokenBody(token: string)
    | RenderStarted(projectId: Uuid, status: string, note: string)
    | Detail(text: string)

  /** A JSON body after binding and validation: the request, or the binder's
      error text. */
  datatype Bound<+T> = Bound(req: T) | BindError(detail: string)

  datatype Envelope = Envelope(status: int, success: bool, message: string, payload: Payload)

  function Success(status: int, message: string, data: Payload): Envelope
  {
    Envelope(status, true, message, data)
  }

  function Failure(status: int, message: string, detail: Payload): Envelope
  {
    Envelope(status, false, message, detail)
  }
}
