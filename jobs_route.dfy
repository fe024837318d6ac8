/** app/api/jobs/route.ts: listing postings (GET) and creating one (POST).
    The store call is a parameter: its result for GET, and for POST a
    function from the creation input to what `createJob` produces. */
module JobsRoute {
  import opened Common
  import opened Seqs
  import opened Text
  import opened Records
  import opened Http

  /** GET: always status 200. A listing is sent with its length; a failure
      is reported with an empty list, a count of 0 and the exception's
      message (`'Failed to fetch jobs'` when it has none). */
  function Get(listing: Outcome<seq<Job>>): (r: Response)
    ensures r.status == 200
    ensures r.body.success <==> listing.Ok?
    ensures listing.Ok? ==> r.body.data == JobList(listing.value) && r.body.count == Some(|listing.value|)
    ensures listing.Thrown? ==> r.body.data == JobList([]) && r.body.count == Some(0)
    ensures listing.Thrown? ==> r.body.error == Some(OrElse(Some(listing.message), "Failed to fetch jobs"))
  {
    match listing
    case Ok(jobs) => Response(200, Envelope(true, JobList(jobs), None, Some(|jobs|), None, None))
    case Thrown(m) =>
      Response(200, Envelope(false, JobList([]), Some(if m != "" then m else "Failed to fetch jobs"), Some(0), None, None))
  }

  /** The members of a creation request that the handler reads. */
  datatype JobBody = JobBody(
    title: Option<string>,
    company: Option<string>,
    location: Option<string>,
    kind: Option<string>,
    description: Option<string>,
    requirements: RequirementsField,
    salary: Option<string>,
    experience: Option<string>,
    deadline: Option<string>,
    applicationProcess: Option<string>,
    contactInfo: Option<string>)

  /** Title, company, location and description are all truthy. */
  predicate HasRequiredFields(b: JobBody) {
    Truthy(b.title) && Truthy(b.company) && Truthy(b.location) && Truthy(b.description)
  }

  /** The requirements of a created posting: an array as it is, a string as
      its comma list, nothing (or an empty string) as the empty list. */
  function NormalizeRequirements(f: RequirementsField): (r: seq<string>)
    ensures f.RequirementList? ==> r == f.items
    ensures f.RequirementText? ==> r == CommaList(f.text)
    ensures f.NoRequirements? ==> r == []
    ensures !f.RequirementList? ==> forall i :: 0 <= i < |r| ==> r[i] != "" && IsTrimmed(r[i]) && ',' !in r[i]
  {
    match f
    case RequirementList(items) => items
    case RequirementText(text) => if text != "" then CommaList(text) else []
    case NoRequirements => []
  }

  /** The input POST hands to `createJob`: required fields as given, the type
      defaulting to 'private', requirements normalised, optional fields as
      given (an empty one stays empty). */
  function CreateInput(b: JobBody): (input: JobInput)
    requires HasRequiredFields(b)
    ensures input.title == b.title.value && input.company == b.company.value
    ensures input.location == b.location.value && input.description == b.description.value
    ensures input.kind == OrElse(b.kind, "private")
    ensures input.requirements == NormalizeRequirements(b.requirements)
    ensures input.salary == b.salary && input.experience == b.experience && input.deadline == b.deadline
    ensures input.applicationProcess == b.applicationProcess && input.contactInfo == b.contactInfo
  {
    JobInput(b.title.value, b.company.value, b.location.value, OrElse(b.kind, "private"), b.deadline,
             b.description.value, NormalizeRequirements(b.requirements), b.salary, b.experience,
             b.applicationProcess, b.contactInfo)
  }

  /** POST: a body that is not JSON, or a failing create, gives 500; a body
      missing a required field gives 400 and `create` is not consulted; a
      created posting gives 201 with that posting. */
  function Post(body: Option<JobBody>, create: JobInput -> Outcome<Job>): (r: Response)
    ensures r.status == 400 <==> body.Some? && !HasRequiredFields(body.value)
    ensures r.status == 400 ==> r == Failure(400, "Missing required fields")
    ensures r.status == 201 <==> body.Some? && HasRequiredFields(body.value) && create(CreateInput(body.value)).Ok?
    ensures r.status == 201 ==> r.body.success && r.body.data == OneJob(create(CreateInput(body.value)).value)
    ensures r.status != 400 && r.status != 201 ==> r == Failure(500, "Failed to create job")
  {
    if body.None? then Failure(500, "Failed to create job")
    else if !HasRequiredFields(body.value) then Failure(400, "Missing required fields")
    else match create(CreateInput(body.value))
      case Ok(job) => Response(201, Envelope(true, OneJob(job), None, None, None, None))
      case Thrown(_) => Failure(500, "Failed to create job")
  }

  /** The rejection of an incomplete body does not depend on the store. */
  lemma PostRejectsWithoutCreating(b: JobBody, c1: JobInput -> Outcome<Job>, c2: JobInput -> Outcome<Job>)
    requires !HasRequiredFields(b)
    ensures Post(Some(b), c1) == Post(Some(b), c2) == Failure(400, "Missing required fields")
  {
  }

  /** A requirements string such as "A, B, C" becomes the list of its items. */
  lemma CommaSeparatedRequirements()
    ensures NormalizeRequirements(RequirementText("A, B, C")) == ["A", "B", "C"]
  {
    var items := ["A", "B", "C"];
    assert Join(items, ", ") == "A, B, C";
    CommaListJoin(items);
  }

  /** A created posting's requirements as a string round-trip through the
      editing form's `", "` join whenever they are clean items. */
  lemma RequirementsTextRoundTrip(items: seq<string>)
    requires forall i :: 0 <= i < |items| ==> items[i] != "" && IsTrimmed(items[i]) && ',' !in items[i]
    ensures NormalizeRequirements(RequirementText(Join(items, ", "))) == items
  {
    CommaListJoin(items);
  }
}
