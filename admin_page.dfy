/** The admin panel's form rules (app/admin/page.tsx): the posting built by
    the add form, the update built by the edit form, and the form filled in
    when an edit starts. */
module AdminPage {
  import opened Common
  import opened Seqs
  import opened Text
  import opened Records
  import opened Http
  import JobsRoute

  /** The requirements field of the form: the text typed in, a list carried
      over unchanged, or not set. */
  datatype FormRequirements = FormText(text: string) | FormList(items: seq<string>) | FormUnset

  /** The form state. `id` and `postedDate` are present only when the form
      was filled from an existing posting. */
  datatype JobForm = JobForm(
    title: Option<string>,
    company: Option<string>,
    location: Option<string>,
    kind: Option<string>,
    description: Option<string>,
    requirements: FormRequirements,
    salary: Option<string>,
    experience: Option<string>,
    deadline: Option<string>,
    applicationProcess: Option<string>,
    contactInfo: Option<string>,
    id: Option<string>,
    postedDate: Option<int>)

  /** `handleAddJob`: missing text fields become '', a missing type becomes
      'private', typed requirements become their comma list, a list passes
      through and anything else becomes empty; optional fields go as they are. */
  function AddPayload(form: JobForm): (input: JobInput)
    ensures input.title == OrElse(form.title, "") && input.company == OrElse(form.company, "")
    ensures input.location == OrElse(form.location, "") && input.description == OrElse(form.description, "")
    ensures input.kind == OrElse(form.kind, "private") && input.kind != ""
    ensures form.requirements.FormText? ==> input.requirements == CommaList(form.requirements.text)
    ensures form.requirements.FormList? ==> input.requirements == form.requirements.items
    ensures form.requirements.FormUnset? ==> input.requirements == []
    ensures !form.requirements.FormList? ==> forall i :: 0 <= i < |input.requirements| ==> input.requirements[i] != ""
    ensures input.salary == form.salary && input.experience == form.experience && input.deadline == form.deadline
    ensures input.applicationProcess == form.applicationProcess && input.contactInfo == form.contactInfo
  {
    JobInput(OrElse(form.title, ""), OrElse(form.company, ""), OrElse(form.location, ""),
             OrElse(form.kind, "private"), form.deadline, OrElse(form.description, ""),
             match form.requirements
             case FormText(text) => CommaList(text)
             case FormList(items) => items
             case FormUnset => [],
             form.salary, form.experience, form.applicationProcess, form.contactInfo)
  }

  /** `handleUpdateJob`: every form field as it is, with the requirements
      replaced by their normalised form; when the form holds neither text nor
      a list, the edited posting's requirements are kept. */
  function UpdatePayload(form: JobForm, editing: Job): (u: JobPatch)
    ensures u.id == form.id && u.postedDate == form.postedDate
    ensures u.title == form.title && u.company == form.company && u.location == form.location
    ensures u.kind == form.kind && u.description == form.description
    ensures u.salary == form.salary && u.experience == form.experience && u.deadline == form.deadline
    ensures u.applicationProcess == form.applicationProcess && u.contactInfo == form.contactInfo
    ensures form.requirements.FormText? ==> u.requirements == Some(CommaList(form.requirements.text))
    ensures form.requirements.FormList? ==> u.requirements == Some(form.requirements.items)
    ensures form.requirements.FormUnset? ==> u.requirements == Some(editing.requirements)
  {
    JobPatch(form.id, form.title, form.company, form.location, form.kind, form.postedDate,
             form.deadline, form.description,
             Some(match form.requirements
                  case FormText(text) => CommaList(text)
                  case FormList(items) => items
                  case FormUnset => editing.requirements),
             form.salary, form.experience, form.applicationProcess, form.contactInfo)
  }

  /** `startEdit`: the form holds every field of the posting, with the
      requirements joined by ", " into one text. */
  function EditForm(j: Job): (form: JobForm)
    ensures form.requirements == FormText(Join(j.requirements, ", "))
    ensures form.id == Some(j.id) && form.postedDate == Some(j.postedDate) && form.title == Some(j.title)
    ensures form.company == Some(j.company) && form.location == Some(j.location)
    ensures form.kind == Some(j.kind) && form.description == Some(j.description)
    ensures form.salary == j.salary && form.experience == j.experience && form.deadline == j.deadline
    ensures form.applicationProcess == j.applicationProcess && form.contactInfo == j.contactInfo
  {
    JobForm(Some(j.title), Some(j.company), Some(j.location), Some(j.kind), Some(j.description),
            FormText(Join(j.requirements, ", ")), j.salary, j.experience, j.deadline,
            j.applicationProcess, j.contactInfo, Some(j.id), Some(j.postedDate))
  }

  /** Requirements that are non-empty, trimmed and free of commas. */
  predicate CleanItems(items: seq<string>) {
    forall i :: 0 <= i < |items| ==> items[i] != "" && IsTrimmed(items[i]) && ',' !in items[i]
  }

  /** Starting an edit and saving it unchanged sends the posting's own
      requirements back, provided they are clean. */
  lemma EditKeepsRequirements(j: Job)
    requires CleanItems(j.requirements)
    ensures UpdatePayload(EditForm(j), j).requirements == Some(j.requirements)
  {
    CommaListJoin(j.requirements);
  }

  /** Saving an unchanged edit leaves the posting as it was in the file
      store: the shallow merge of the update is the posting itself. */
  lemma UnchangedEditIsNoOp(j: Job)
    requires CleanItems(j.requirements)
    ensures Merge(j, UpdatePayload(EditForm(j), j)) == j
  {
    EditKeepsRequirements(j);
  }

  /** Requirements that are not clean do not survive an unchanged edit: an
      item holding a comma comes back as two items. */
  lemma EditSplitsCommaItems(j: Job)
    requires j.requirements == ["a,b"]
    ensures UpdatePayload(EditForm(j), j).requirements == Some(["a", "b"])
  {
    assert Join(j.requirements, ", ") == "a,b";
    CommaListOfAB();
  }

  /** "a,b" as a comma list is ["a", "b"]. */
  lemma CommaListOfAB()
    ensures CommaList("a,b") == ["a", "b"]
  {
    SplitOfAB();
    var items := ["a", "b"];
    assert !IsWhitespace(items[0][0]) && !IsWhitespace(items[1][0]);
    CommaListOfPieces("a,b", items);
  }

  /** "a,b" splits at its comma into "a" and "b". */
  lemma SplitOfAB()
    ensures Split("a,b", ',') == ["a", "b"]
  {
    SplitAt("a", "b", ',');
    assert "a" + [','] + "b" == "a,b";
    assert IndexOf("b", ',') < 0;
  }

  /** The posting an add sends, as the request body of the create endpoint:
      the list of requirements travels as an array. */
  function AsBody(input: JobInput): (b: JobsRoute.JobBody)
    ensures b.requirements == RequirementList(input.requirements)
    ensures b.title == Some(input.title) && b.kind == Some(input.kind)
  {
    JobsRoute.JobBody(Some(input.title), Some(input.company), Some(input.location), Some(input.kind),
                      Some(input.description), RequirementList(input.requirements), input.salary,
                      input.experience, input.deadline, input.applicationProcess, input.contactInfo)
  }

  /** A filled-in add form reaches the create endpoint's validation and is
      created from exactly the posting the form built; an add form missing a
      required field is refused there with 400. */
  lemma AddReachesCreate(form: JobForm)
    ensures JobsRoute.HasRequiredFields(AsBody(AddPayload(form)))
        <==> Truthy(form.title) && Truthy(form.company) && Truthy(form.location) && Truthy(form.description)
    ensures JobsRoute.HasRequiredFields(AsBody(AddPayload(form)))
        ==> JobsRoute.CreateInput(AsBody(AddPayload(form))) == AddPayload(form)
  {
  }
}
