/** The JSON responses the route handlers build with `NextResponse.json`:
    a status and an envelope `{ success, data?, error?, count?, message?, note? }`,
    and the request-body values the handlers inspect. */
module Http {
  import opened Common
  import opened Records

  /** An account as sent to a client: every field but `password`. */
  datatype PublicUser = PublicUser(id: string, username: string, role: string, createdAt: string)

  /** The `data` member of an envelope. */
  datatype Payload = NoPayload | JobList(jobs: seq<Job>) | OneJob(job: Job) | Account(user: PublicUser)

  /** A response body; `None` is a member the handler does not write. */
  datatype Envelope = Envelope(
    success: bool,
    data: Payload,
    error: Option<string>,
    count: Option<nat>,
    message: Option<string>,
    note: Option<string>)

  datatype Response = Response(status: int, body: Envelope)

  /** `{ success: false, error }` with the given status. */
  function Failure(status: int, error: string): (r: Response)
    ensures r.status == status && !r.body.success && r.body.error == Some(error)
  {
    Response(status, Envelope(false, NoPayload, Some(error), None, None, None))
  }

  /** A `requirements` member of a request body: absent, an array of strings,
      or a single string. */
  datatype RequirementsField = NoRequirements | RequirementList(items: seq<string>) | RequirementText(text: string)
}
