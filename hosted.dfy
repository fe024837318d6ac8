/** The hosted-database adapter of lib/db.ts: the mapping between table rows
    and records, the partial-update patch, and what each `*Supabase` function
    makes of the query's reply. Query execution itself belongs to the database;
    where a lemma needs it, `Inserted`, `ApplyPatch` and `SelectSingle` state
    what the database is relied on to do. */
module Hosted {
  import opened Common
  import opened Seqs
  import opened Records

  /** A column value as the database returns it. */
  datatype Nullable<+T> = Null | Value(value: T)

  /** A row of the `jobs` table; fields carry the column names. */
  datatype JobRow = JobRow(
    id: string,
    title: string,
    company: string,
    location: string,
    kind: string,
    posted_date: int,
    deadline: Nullable<string>,
    description: string,
    requirements: Nullable<seq<string>>,
    salary: Nullable<string>,
    experience: Nullable<string>,
    application_process: Nullable<string>,
    contact_info: Nullable<string>)

  /** A row of the `users` table. */
  datatype UserRow = UserRow(id: string, username: string, password_hash: string, role: string, created_at: string)

  /** The `{ data, error }` a query resolves to: rows, no data, or an error. */
  datatype Reply<+T> = Rows(data: T) | NoData | Error(message: string)

  // ---------------------------------------------------------------- row -> record

  /** `column || undefined`: NULL and the empty string both become absent. */
  function Absent(c: Nullable<string>): (o: Option<string>)
    ensures o.Some? <==> c.Value? && c.value != ""
    ensures o.Some? ==> o.value == c.value
  {
    if c.Value? && c.value != "" then Some(c.value) else None
  }

  /** The record a `jobs` row maps to (lib/db.ts, the same literal in every
      reading function): required columns verbatim, `posted_date` as
      `postedDate`, NULL or empty optional columns absent, NULL requirements
      as the empty list. */
  function RowToJob(row: JobRow): (j: Job)
    ensures j.id == row.id && j.title == row.title && j.company == row.company
    ensures j.location == row.location && j.kind == row.kind && j.description == row.description
    ensures j.postedDate == row.posted_date
    ensures j.requirements == (if row.requirements.Value? then row.requirements.value else [])
    ensures j.deadline == Absent(row.deadline) && j.salary == Absent(row.salary)
    ensures j.experience == Absent(row.experience)
    ensures j.applicationProcess == Absent(row.application_process)
    ensures j.contactInfo == Absent(row.contact_info)
  {
    Job(row.id, row.title, row.company, row.location, row.kind, row.posted_date,
        Absent(row.deadline), row.description,
        if row.requirements.Value? then row.requirements.value else [],
        Absent(row.salary), Absent(row.experience), Absent(row.application_process),
        Absent(row.contact_info))
  }

  /** The account a `users` row maps to; the stored secret becomes `password`. */
  function RowToUser(row: UserRow): (u: User)
    ensures u.id == row.id && u.username == row.username && u.password == row.password_hash
    ensures u.role == row.role && u.createdAt == row.created_at
  {
    User(row.id, row.username, row.password_hash, row.role, row.created_at)
  }

  // ---------------------------------------------------------------- record -> insert row

  /** `value || null`: absent and empty strings are written as NULL. */
  function OrNull(o: Option<string>): (c: Nullable<string>)
    ensures c.Value? <==> Truthy(o)
    ensures c.Value? ==> c.value == o.value
  {
    if Truthy(o) then Value(o.value) else Null
  }

  /** The columns `createJobInSupabase` inserts; `id` and `posted_date` are
      left to the database. */
  datatype InsertRow = InsertRow(
    title: string,
    company: string,
    location: string,
    kind: string,
    deadline: Nullable<string>,
    description: string,
    requirements: seq<string>,
    salary: Nullable<string>,
    experience: Nullable<string>,
    application_process: Nullable<string>,
    contact_info: Nullable<string>)

  /** The insert row for a creation input. */
  function ToInsertRow(input: JobInput): (ins: InsertRow)
    ensures ins.title == input.title && ins.company == input.company && ins.location == input.location
    ensures ins.kind == input.kind && ins.description == input.description
    ensures ins.requirements == input.requirements
    ensures ins.deadline == OrNull(input.deadline) && ins.salary == OrNull(input.salary)
    ensures ins.experience == OrNull(input.experience)
    ensures ins.application_process == OrNull(input.applicationProcess)
    ensures ins.contact_info == OrNull(input.contactInfo)
  {
    InsertRow(input.title, input.company, input.location, input.kind, OrNull(input.deadline),
              input.description, input.requirements, OrNull(input.salary), OrNull(input.experience),
              OrNull(input.applicationProcess), OrNull(input.contactInfo))
  }

  /** The row the database stores for an insert, with the identifier and
      posting time it assigns. */
  function Inserted(ins: InsertRow, id: string, postedDate: int): JobRow {
    JobRow(id, ins.title, ins.company, ins.location, ins.kind, postedDate, ins.deadline,
           ins.description, Value(ins.requirements), ins.salary, ins.experience,
           ins.application_process, ins.contact_info)
  }

  /** Every optional field of the input is absent or non-empty. */
  predicate NoEmptyOptionals(input: JobInput) {
    && input.deadline != Some("") && input.salary != Some("") && input.experience != Some("")
    && input.applicationProcess != Some("") && input.contactInfo != Some("")
  }

  /** The input with its empty optional fields made absent. */
  function WithoutEmptyOptionals(input: JobInput): (r: JobInput)
    ensures NoEmptyOptionals(r)
    ensures NoEmptyOptionals(input) ==> r == input
  {
    input.(deadline := DropEmpty(input.deadline), salary := DropEmpty(input.salary),
           experience := DropEmpty(input.experience),
           applicationProcess := DropEmpty(input.applicationProcess),
           contactInfo := DropEmpty(input.contactInfo))
  }

  /** Writing a posting as an insert row and reading the stored row back gives
      the posting the file store would create from the same input, except that
      empty optional fields come back absent; so the two agree exactly when the
      input has no empty optional field. */
  lemma InsertRoundTrip(input: JobInput, id: string, postedDate: int)
    ensures RowToJob(Inserted(ToInsertRow(input), id, postedDate)) == NewJob(WithoutEmptyOptionals(input), id, postedDate)
    ensures RowToJob(Inserted(ToInsertRow(input), id, postedDate)) == NewJob(input, id, postedDate)
        <==> NoEmptyOptionals(input)
  {
    var back := RowToJob(Inserted(ToInsertRow(input), id, postedDate));
    if back == NewJob(input, id, postedDate) {
      assert InputOf(back) == input;
    }
  }

  // ---------------------------------------------------------------- update patch

  /** The columns `updateJobInSupabase` sets; absent means not set. There is
      no `id` or `posted_date` column in a patch. */
  datatype RowPatch = RowPatch(
    title: Option<string>,
    company: Option<string>,
    location: Option<string>,
    kind: Option<string>,
    deadline: Option<Nullable<string>>,
    description: Option<string>,
    requirements: Option<seq<string>>,
    salary: Option<Nullable<string>>,
    experience: Option<Nullable<string>>,
    application_process: Option<Nullable<string>>,
    contact_info: Option<Nullable<string>>)

  /** `if (given) patch.col = given`: set exactly when the given value is truthy. */
  predicate SetIfTruthy(given: Option<string>, col: Option<string>) {
    (col.Some? <==> Truthy(given)) && (col.Some? ==> col.value == given.value)
  }

  /** `if (given !== undefined) patch.col = given || null`: set whenever given,
      with the empty string written as NULL. */
  predicate SetIfDefined(given: Option<string>, col: Option<Nullable<string>>) {
    (col.Some? <==> given.Some?) && (col.Some? ==> col.value == OrNull(given))
  }

  /** The patch built from a partial update. */
  function UpdatePatch(u: JobPatch): (p: RowPatch)
    ensures SetIfTruthy(u.title, p.title) && SetIfTruthy(u.company, p.company)
    ensures SetIfTruthy(u.location, p.location) && SetIfTruthy(u.kind, p.kind)
    ensures SetIfTruthy(u.description, p.description)
    ensures p.requirements == u.requirements
    ensures SetIfDefined(u.deadline, p.deadline) && SetIfDefined(u.salary, p.salary)
    ensures SetIfDefined(u.experience, p.experience)
    ensures SetIfDefined(u.applicationProcess, p.application_process)
    ensures SetIfDefined(u.contactInfo, p.contact_info)
  {
    RowPatch(
      IfTruthy(u.title), IfTruthy(u.company), IfTruthy(u.location), IfTruthy(u.kind),
      IfDefined(u.deadline), IfTruthy(u.description), u.requirements,
      IfDefined(u.salary), IfDefined(u.experience), IfDefined(u.applicationProcess),
      IfDefined(u.contactInfo))
  }

  /** The column a text field contributes to a patch: set only when truthy. */
  function IfTruthy(given: Option<string>): (col: Option<string>)
    ensures SetIfTruthy(given, col)
  {
    if Truthy(given) then given else None
  }

  /** The column an optional field contributes to a patch: set whenever given. */
  function IfDefined(given: Option<string>): (col: Option<Nullable<string>>)
    ensures SetIfDefined(given, col)
  {
    if given.Some? then Some(OrNull(given)) else None
  }

  /** What the database does with `update(patch)`: sets the named columns. */
  function ApplyPatch(row: JobRow, p: RowPatch): JobRow {
    row.(title := p.title.GetOr(row.title), company := p.company.GetOr(row.company),
         location := p.location.GetOr(row.location), kind := p.kind.GetOr(row.kind),
         deadline := p.deadline.GetOr(row.deadline), description := p.description.GetOr(row.description),
         requirements := if p.requirements.Some? then Value(p.requirements.value) else row.requirements,
         salary := p.salary.GetOr(row.salary), experience := p.experience.GetOr(row.experience),
         application_process := p.application_process.GetOr(row.application_process),
         contact_info := p.contact_info.GetOr(row.contact_info))
  }

  /** The posting a hosted update yields, field by field: identifier and
      posting time never change whatever the update carries; an empty text
      field is ignored; a given optional field replaces the old one, an empty
      one making it absent. */
  lemma HostedUpdateFields(row: JobRow, u: JobPatch)
    ensures var j := RowToJob(ApplyPatch(row, UpdatePatch(u)));
      && j.id == row.id && j.postedDate == row.posted_date
      && j.title == OrElse(u.title, row.title) && j.company == OrElse(u.company, row.company)
      && j.location == OrElse(u.location, row.location) && j.kind == OrElse(u.kind, row.kind)
      && j.description == OrElse(u.description, row.description)
      && j.requirements == u.requirements.GetOr(RowToJob(row).requirements)
      && j.deadline == (if u.deadline.Some? then DropEmpty(u.deadline) else RowToJob(row).deadline)
      && j.salary == (if u.salary.Some? then DropEmpty(u.salary) else RowToJob(row).salary)
      && j.experience == (if u.experience.Some? then DropEmpty(u.experience) else RowToJob(row).experience)
      && j.applicationProcess == (if u.applicationProcess.Some? then DropEmpty(u.applicationProcess)
                                  else RowToJob(row).applicationProcess)
      && j.contactInfo == (if u.contactInfo.Some? then DropEmpty(u.contactInfo) else RowToJob(row).contactInfo)
  {
  }

  /** An update whose given text fields are all non-empty and that leaves
      `id` and `postedDate` alone: the file store's shallow merge. */
  predicate PlainUpdate(u: JobPatch) {
    && u.id.None? && u.postedDate.None?
    && u.title != Some("") && u.company != Some("") && u.location != Some("")
    && u.kind != Some("") && u.description != Some("")
    && u.deadline != Some("") && u.salary != Some("") && u.experience != Some("")
    && u.applicationProcess != Some("") && u.contactInfo != Some("")
  }

  /** On a plain update the two backends agree: the hosted update yields the
      file store's merge of the stored posting. */
  lemma HostedUpdateMatchesMerge(row: JobRow, u: JobPatch)
    requires PlainUpdate(u)
    ensures RowToJob(ApplyPatch(row, UpdatePatch(u))) == Merge(RowToJob(row), u)
  {
  }

  /** The backends part ways on an update that empties a required text field
      or names a new identifier: the file store takes it, the hosted store
      keeps the old value. */
  lemma HostedUpdateDiffers(row: JobRow, newId: string)
    requires newId != row.id && row.title != ""
    ensures var u := NoChanges.(title := Some(""), id := Some(newId));
      && RowToJob(ApplyPatch(row, UpdatePatch(u))).title == row.title
      && Merge(RowToJob(row), u).title == ""
      && RowToJob(ApplyPatch(row, UpdatePatch(u))).id == row.id
      && Merge(RowToJob(row), u).id == newId
  {
  }

  // ---------------------------------------------------------------- replies

  /** `getJobsFromSupabase`: the mapped rows; an error or missing data (and a
      thrown exception, which the function catches) gives no postings. */
  function ListReply(reply: Reply<seq<JobRow>>): (jobs: seq<Job>)
    ensures reply.Rows? ==> |jobs| == |reply.data| && forall i :: 0 <= i < |jobs| ==> jobs[i] == RowToJob(reply.data[i])
    ensures !reply.Rows? ==> jobs == []
  {
    match reply
    case Rows(rows) => seq(|rows|, i requires 0 <= i < |rows| => RowToJob(rows[i]))
    case _ => []
  }

  /** `getJobByIdFromSupabase`, `updateJobInSupabase`: the mapped row, or
      absent on an error or missing data. */
  function RowReply(reply: Reply<JobRow>): (r: Option<Job>)
    ensures r.Some? <==> reply.Rows?
    ensures reply.Rows? ==> r.value == RowToJob(reply.data)
  {
    match reply
    case Rows(row) => Some(RowToJob(row))
    case _ => None
  }

  /** `createJobInSupabase`: the mapped row, or an exception carrying the
      error's message (`'Failed to create job'` when it has none). */
  function CreateReply(reply: Reply<JobRow>): (r: Outcome<Job>)
    ensures reply.Rows? ==> r == Ok(RowToJob(reply.data))
    ensures reply.Error? && reply.message != "" ==> r == Thrown(reply.message)
    ensures (reply.NoData? || (reply.Error? && reply.message == "")) ==> r == Thrown("Failed to create job")
  {
    match reply
    case Rows(row) => Ok(RowToJob(row))
    case Error(m) => Thrown(if m != "" then m else "Failed to create job")
    case NoData => Thrown("Failed to create job")
  }

  /** `deleteJobFromSupabase`: true whenever the query reports no error, so
      also when no row had the identifier. */
  function DeleteReply(error: Option<string>): (deleted: bool)
    ensures deleted <==> error.None?
  {
    error.None?
  }

  /** `verifyUserFromSupabase`: the account whose stored secret equals the
      password given, compared as plain text. */
  function VerifyReply(reply: Reply<UserRow>, password: string): (r: Option<User>)
    ensures r.Some? <==> reply.Rows? && reply.data.password_hash == password
    ensures r.Some? ==> r.value == RowToUser(reply.data) && r.value.password == password
  {
    if reply.Rows? && reply.data.password_hash == password then Some(RowToUser(reply.data)) else None
  }

  // ---------------------------------------------------------------- lookups against the file store

  /** What `.eq(column, value).single()` relies on the database for: the one
      matching row, or an error when there is none or more than one. */
  function SelectSingle<T>(matches: seq<T>): Reply<T> {
    if |matches| == 1 then Rows(matches[0]) else Error("expected a single row")
  }

  /** No two rows of the table share an identifier. */
  predicate UniqueIds(table: seq<JobRow>) {
    forall i, j :: 0 <= i < j < |table| ==> table[i].id != table[j].id
  }

  /** No two accounts share a username. */
  predicate UniqueUsernames(table: seq<UserRow>) {
    forall i, j :: 0 <= i < j < |table| ==> table[i].username != table[j].username
  }

  /** With unique identifiers, looking a posting up in the table gives what the
      file store's first-match search gives on the same postings. */
  lemma GetByIdMatchesFile(table: seq<JobRow>, id: string)
    requires UniqueIds(table)
    ensures RowReply(SelectSingle(Keep(table, (r: JobRow) => r.id == id))) == FindById(ListReply(Rows(table)), id)
  {
    var p := (r: JobRow) => r.id == id;
    var jobs := ListReply(Rows(table));
    var k := IndexOfId(jobs, id);
    if k < 0 {
      assert forall i :: 0 <= i < |table| ==> table[i].id == jobs[i].id;
      KeepNone(table, p);
    } else {
      forall i | 0 <= i < |table| && i != k ensures !p(table[i]) {
        assert table[k].id == jobs[k].id;
      }
      KeepSingle(table, p, k);
    }
  }

  /** The accounts a `users` table holds, as the file store keeps them. */
  function UsersOf(table: seq<UserRow>): (users: seq<User>)
    ensures |users| == |table|
    ensures forall i :: 0 <= i < |table| ==> users[i] == RowToUser(table[i])
  {
    seq(|table|, i requires 0 <= i < |table| => RowToUser(table[i]))
  }

  /** With unique usernames, the hosted credential check agrees with the file
      store's: the account with that username, if its secret is the password. */
  lemma VerifyMatchesFile(table: seq<UserRow>, username: string, password: string)
    requires UniqueUsernames(table)
    ensures VerifyReply(SelectSingle(Keep(table, (r: UserRow) => r.username == username)), password)
         == FindUser(UsersOf(table), username, password)
  {
    var p := (r: UserRow) => r.username == username;
    var users := UsersOf(table);
    var k := FirstIndex(table, p);
    if k < 0 {
      KeepNone(table, p);
      assert forall i :: 0 <= i < |users| ==> !Matches(users[i], username, password);
    } else {
      KeepSingle(table, p, k);
      assert forall i :: 0 <= i < |users| && i != k ==> users[i].username != username;
      if table[k].password_hash == password {
        assert Matches(users[k], username, password);
        var m := IndexOfUser(users, username, password);
        assert m == k;
      } else {
        assert forall i :: 0 <= i < |users| ==> !Matches(users[i], username, password);
      }
    }
  }
}
