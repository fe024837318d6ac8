/** The two entities of lib/db.ts, postings (`Job`) and accounts (`User`), and
    the record operations both stores share: the creation spread, the shallow
    merge of an update, and search and removal by identifier. */
module Records {
  import opened Common
  import opened Seqs

  /** A posting. The TypeScript field `type` is called `kind` here; it is kept
      as a string because nothing on the write path restricts it to
      'government' or 'private'. `postedDate` is the posting time as a number. */
  datatype Job = Job(
    id: string,
    title: string,
    company: string,
    location: string,
    kind: string,
    postedDate: int,
    deadline: Option<string>,
    description: string,
    requirements: seq<string>,
    salary: Option<string>,
    experience: Option<string>,
    applicationProcess: Option<string>,
    contactInfo: Option<string>)

  /** `Omit<Job, 'id' | 'postedDate'>`: the fields a creation request supplies. */
  datatype JobInput = JobInput(
    title: string,
    company: string,
    location: string,
    kind: string,
    deadline: Option<string>,
    description: string,
    requirements: seq<string>,
    salary: Option<string>,
    experience: Option<string>,
    applicationProcess: Option<string>,
    contactInfo: Option<string>)

  /** `Partial<Job>`: an update names any subset of the fields, `id` and
      `postedDate` included. `None` is a key the update does not carry. */
  datatype JobPatch = JobPatch(
    id: Option<string>,
    title: Option<string>,
    company: Option<string>,
    location: Option<string>,
    kind: Option<string>,
    postedDate: Option<int>,
    deadline: Option<string>,
    description: Option<string>,
    requirements: Option<seq<string>>,
    salary: Option<string>,
    experience: Option<string>,
    applicationProcess: Option<string>,
    contactInfo: Option<string>)

  /** An account. `password` is stored and compared as plain text. */
  datatype User = User(id: string, username: string, password: string, role: string, createdAt: string)

  /** A posting without its identity: the inverse direction of `NewJob`. */
  function InputOf(j: Job): JobInput {
    JobInput(j.title, j.company, j.location, j.kind, j.deadline, j.description,
             j.requirements, j.salary, j.experience, j.applicationProcess, j.contactInfo)
  }

  /** `{ ...job, id, postedDate }`: a new posting carries every input field
      unchanged plus the supplied identifier and timestamp. */
  function NewJob(input: JobInput, id: string, postedDate: int): (j: Job)
    ensures InputOf(j) == input
    ensures j.id == id && j.postedDate == postedDate
  {
    Job(id, input.title, input.company, input.location, input.kind, postedDate,
        input.deadline, input.description, input.requirements, input.salary,
        input.experience, input.applicationProcess, input.contactInfo)
  }

  /** `{ ...old, ...updates }`: every field the update carries replaces the previous
      value, every other field keeps it. */
  function Merge(prev: Job, u: JobPatch): (r: Job)
    ensures r.id == u.id.GetOr(prev.id) && r.postedDate == u.postedDate.GetOr(prev.postedDate)
    ensures r.title == u.title.GetOr(prev.title) && r.company == u.company.GetOr(prev.company)
    ensures r.location == u.location.GetOr(prev.location) && r.kind == u.kind.GetOr(prev.kind)
    ensures r.description == u.description.GetOr(prev.description)
    ensures r.requirements == u.requirements.GetOr(prev.requirements)
    ensures r.deadline == (if u.deadline.Some? then u.deadline else prev.deadline)
    ensures r.salary == (if u.salary.Some? then u.salary else prev.salary)
    ensures r.experience == (if u.experience.Some? then u.experience else prev.experience)
    ensures r.applicationProcess == (if u.applicationProcess.Some? then u.applicationProcess else prev.applicationProcess)
    ensures r.contactInfo == (if u.contactInfo.Some? then u.contactInfo else prev.contactInfo)
  {
    Job(u.id.GetOr(prev.id), u.title.GetOr(prev.title), u.company.GetOr(prev.company),
        u.location.GetOr(prev.location), u.kind.GetOr(prev.kind), u.postedDate.GetOr(prev.postedDate),
        if u.deadline.Some? then u.deadline else prev.deadline,
        u.description.GetOr(prev.description), u.requirements.GetOr(prev.requirements),
        if u.salary.Some? then u.salary else prev.salary,
        if u.experience.Some? then u.experience else prev.experience,
        if u.applicationProcess.Some? then u.applicationProcess else prev.applicationProcess,
        if u.contactInfo.Some? then u.contactInfo else prev.contactInfo)
  }

  /** The empty update `{}`. */
  const NoChanges := JobPatch(None, None, None, None, None, None, None, None, None, None, None, None, None)

  /** An update carrying every field of `j`. */
  function PatchOf(j: Job): JobPatch {
    JobPatch(Some(j.id), Some(j.title), Some(j.company), Some(j.location), Some(j.kind),
             Some(j.postedDate), j.deadline, Some(j.description),
             Some(j.requirements), j.salary, j.experience, j.applicationProcess, j.contactInfo)
  }

  /** Merging the empty update changes nothing. */
  lemma MergeNoChanges(j: Job)
    ensures Merge(j, NoChanges) == j
  {
  }

  /** Merging twice with the same update is merging once. */
  lemma MergeIdempotent(j: Job, u: JobPatch)
    ensures Merge(Merge(j, u), u) == Merge(j, u)
  {
  }

  /** An update carrying every field of `k` turns any posting whose absent
      optional fields are also absent in `k` into `k`. */
  lemma MergeFull(j: Job, k: Job)
    requires k.deadline.None? ==> j.deadline.None?
    requires k.salary.None? ==> j.salary.None?
    requires k.experience.None? ==> j.experience.None?
    requires k.applicationProcess.None? ==> j.applicationProcess.None?
    requires k.contactInfo.None? ==> j.contactInfo.None?
    ensures Merge(j, PatchOf(k)) == k
  {
  }

  /** Some posting of `s` has identifier `id`. */
  predicate HasId(s: seq<Job>, id: string) {
    exists i :: 0 <= i < |s| && s[i].id == id
  }

  /** `jobs.findIndex(job => job.id === id)`. */
  function IndexOfId(s: seq<Job>, id: string): (k: int)
    ensures -1 <= k < |s|
    ensures k >= 0 ==> s[k].id == id && forall i :: 0 <= i < k ==> s[i].id != id
    ensures k < 0 <==> !HasId(s, id)
  {
    FirstIndex(s, (j: Job) => j.id == id)
  }

  /** `jobs.find(job => job.id === id)`: the first posting with that identifier. */
  function FindById(s: seq<Job>, id: string): (r: Option<Job>)
    ensures r.None? <==> !HasId(s, id)
    ensures r.Some? ==> r.value.id == id && r.value in s
    ensures r.Some? ==> r.value == s[IndexOfId(s, id)]
  {
    var k := IndexOfId(s, id);
    if k < 0 then None else Some(s[k])
  }

  /** `jobs.filter(job => job.id !== id)`. No posting with `id` is left, the
      length is kept exactly when none had it, and then the list is unchanged. */
  function RemoveId(s: seq<Job>, id: string): (r: seq<Job>)
    ensures forall i :: 0 <= i < |r| ==> r[i].id != id && r[i] in s
    ensures |r| == |s| <==> !HasId(s, id)
    ensures !HasId(s, id) ==> r == s
  {
    var keep := (j: Job) => j.id != id;
    KeepLength(s, keep);
    Keep(s, keep)
  }

  /** Removal keeps every posting with another identifier, in the original order. */
  lemma RemoveIdKeepsOthers(s: seq<Job>, id: string, j: Job)
    requires j in s && j.id != id
    ensures j in RemoveId(s, id)
    ensures SubsequenceOf(RemoveId(s, id), s)
  {
    var keep := (j: Job) => j.id != id;
    KeepComplete(s, keep, j);
    KeepIsSubsequence(s, keep);
  }

  /** The account at `users[i]` matches the credentials exactly. */
  predicate Matches(u: User, username: string, password: string) {
    u.username == username && u.password == password
  }

  /** `users.findIndex(user => user.username === username && user.password === password)`. */
  function IndexOfUser(users: seq<User>, username: string, password: string): (k: int)
    ensures -1 <= k < |users|
    ensures k >= 0 ==> Matches(users[k], username, password)
    ensures forall i :: 0 <= i < |users| && (k < 0 || i < k) ==> !Matches(users[i], username, password)
  {
    FirstIndex(users, (u: User) => Matches(u, username, password))
  }

  /** `users.find(user => user.username === username && user.password === password)`:
      the first account whose username and password both match exactly. */
  function FindUser(users: seq<User>, username: string, password: string): (r: Option<User>)
    ensures r.Some? ==> r.value in users && Matches(r.value, username, password)
    ensures r.None? <==> forall i :: 0 <= i < |users| ==> !Matches(users[i], username, password)
    ensures r.Some? ==> r.value == users[IndexOfUser(users, username, password)]
  {
    var k := IndexOfUser(users, username, password);
    if k < 0 then None else Some(users[k])
  }
}
