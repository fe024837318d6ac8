/** app/api/jobs/submit/route.ts: a job submitted for review. The handler
    validates the body, composes a notification text holding a readable
    summary and an INSERT statement for the reviewer to run, and answers.
    Modelled here: the guards, the response, the type label, the numbered
    requirements section and the SQL value tokens of the statement. */
module SubmitRoute {
  import opened Common
  import opened Seqs
  import opened Text
  import opened Http

  /** The members of a submission the handler reads. */
  datatype SubmitBody = SubmitBody(
    title: Option<string>,
    company: Option<string>,
    location: Option<string>,
    kind: Option<string>,
    description: Option<string>,
    requirements: RequirementsField,
    salary: Option<string>,
    experience: Option<string>,
    deadline: Option<string>,
    applicationProcess: Option<string>,
    contactInfo: Option<string>,
    submitterName: Option<string>,
    submitterEmail: Option<string>)

  /** Title, company, location and description are all truthy. */
  predicate HasJobFields(b: SubmitBody) {
    Truthy(b.title) && Truthy(b.company) && Truthy(b.location) && Truthy(b.description)
  }

  /** The submitter gave both a name and an email address. */
  predicate HasSubmitter(b: SubmitBody) {
    Truthy(b.submitterName) && Truthy(b.submitterEmail)
  }

  /** POST /api/jobs/submit. The job fields are checked first, the submitter
      second; a valid submission is acknowledged with 200. A body that is not
      JSON gives 500. */
  function Submit(body: Option<SubmitBody>): (r: Response)
    ensures body.None? ==> r == Failure(500, "Failed to submit job. Please try again.")
    ensures body.Some? && !HasJobFields(body.value) ==> r == Failure(400, "Missing required fields")
    ensures body.Some? && HasJobFields(body.value) && !HasSubmitter(body.value)
        ==> r == Failure(400, "Please provide your name and email")
    ensures r.status == 200 <==> body.Some? && HasJobFields(body.value) && HasSubmitter(body.value)
    ensures r.status == 200 ==>
      r.body.success && r.body.message == Some("Job submission received. Admin will review and post it soon.")
  {
    if body.None? then Failure(500, "Failed to submit job. Please try again.")
    else if !HasJobFields(body.value) then Failure(400, "Missing required fields")
    else if !HasSubmitter(body.value) then Failure(400, "Please provide your name and email")
    else Response(200, Envelope(true, NoPayload, None, None,
                                Some("Job submission received. Admin will review and post it soon."),
                                Some("Check server logs for job details and SQL query")))
  }

  /** The "Job Type" line: 'government' reads as Government, anything else,
      absent included, as Private Sector. */
  function TypeLabel(kind: Option<string>): (name: string)
    ensures name == "Government" <==> kind == Some("government")
    ensures name != "Government" ==> name == "Private Sector"
  {
    if kind == Some("government") then "Government" else "Private Sector"
  }

  // ---------------------------------------------------------------- numbered requirements

  /** `i. item` for each item, numbered from 1. */
  function NumberedLines(items: seq<string>): (lines: seq<string>)
    ensures |lines| == |items|
    ensures forall i :: 0 <= i < |items| ==> lines[i] == Decimal(i + 1) + ". " + items[i]
  {
    seq(|items|, i requires 0 <= i < |items| => Decimal(i + 1) + ". " + items[i])
  }

  /** The Requirements section of the summary: present only when the member
      is a non-empty array or a non-empty string. An array is listed one
      numbered item per line, a string is copied as it is. */
  function RequirementsSection(f: RequirementsField): (text: string)
    ensures text == "" <==> f.NoRequirements? || (f.RequirementList? && f.items == [])
                            || (f.RequirementText? && f.text == "")
    ensures f.RequirementText? && f.text != "" ==>
      |text| > 15 && text[..15] == "\nRequirements:\n" && text[15..|text| - 1] == f.text && text[|text| - 1] == '\n'
  {
    match f
    case RequirementList(items) =>
      if items != [] then "\nRequirements:\n" + Join(NumberedLines(items), "\n") + "\n" else ""
    case RequirementText(text) =>
      if text != "" then "\nRequirements:\n" + text + "\n" else ""
    case NoRequirements => ""
  }

  /** A non-empty list of items free of line breaks gives a section whose
      lines are an empty one, the heading, the numbered items in order, and a
      final empty one. */
  lemma RequirementsSectionLines(items: seq<string>)
    requires items != []
    requires forall i :: 0 <= i < |items| ==> '\n' !in items[i]
    ensures Split(RequirementsSection(RequirementList(items)), '\n')
         == ["", "Requirements:"] + NumberedLines(items) + [""]
  {
    var lines := NumberedLines(items);
    forall i | 0 <= i < |lines| ensures '\n' !in lines[i] {
      NumberedLineHasNoBreak(i + 1, items[i]);
    }
    var body := Join(lines, "\n");
    assert "\nRequirements:\n" == ['\n'] + "Requirements:" + ['\n'];
    assert '\n' !in "Requirements:";
    SplitFramed("Requirements:", lines, '\n');
  }

  /** The numbered list loses nothing: its lines split back at line breaks,
      and each line holds its number, written in decimal, and then its item. */
  lemma NumberedListReadsBack(items: seq<string>)
    requires items != []
    requires forall i :: 0 <= i < |items| ==> '\n' !in items[i]
    ensures Split(Join(NumberedLines(items), "\n"), '\n') == NumberedLines(items)
    ensures forall i :: 0 <= i < |items| ==>
      var line := NumberedLines(items)[i];
      var n := |Decimal(i + 1)|;
      && n + 2 <= |line|
      && DigitsValue(line[..n]) == i + 1
      && line[n..n + 2] == ". "
      && line[n + 2..] == items[i]
  {
    var lines := NumberedLines(items);
    forall i | 0 <= i < |lines| ensures '\n' !in lines[i] {
      NumberedLineHasNoBreak(i + 1, items[i]);
    }
    SplitJoin(lines, '\n');
    forall i | 0 <= i < |items|
      ensures DigitsValue(lines[i][..|Decimal(i + 1)|]) == i + 1
    {
      NumberedLinePrefix(i + 1, items[i]);
    }
  }

  /** A numbered line holds a line break only where its item does. */
  lemma NumberedLineHasNoBreak(n: nat, item: string)
    requires '\n' !in item
    ensures '\n' !in Decimal(n) + ". " + item
  {
    var d := Decimal(n);
    var line := d + ". " + item;
    forall k | 0 <= k < |line| ensures line[k] != '\n' {
      if k < |d| {
        assert line[k] == d[k];
      } else if k >= |d| + 2 {
        assert line[k] == item[k - |d| - 2];
      }
    }
  }

  /** The number in front of a numbered line reads back as the number. */
  lemma NumberedLinePrefix(n: nat, item: string)
    ensures (Decimal(n) + ". " + item)[..|Decimal(n)|] == Decimal(n)
    ensures DigitsValue((Decimal(n) + ". " + item)[..|Decimal(n)|]) == n
  {
    var d := Decimal(n);
    assert (d + ". " + item)[..|d|] == d;
    DecimalValue(n);
  }

  // ---------------------------------------------------------------- SQL value tokens

  /** An optional text column: its quoted, escaped literal when truthy,
      otherwise the bare keyword NULL. */
  function SqlTextOrNull(o: Option<string>): (tok: string)
    ensures tok == "NULL" <==> !Truthy(o)
    ensures Truthy(o) ==> tok == SqlQuote(o.value)
  {
    if Truthy(o) then SqlQuote(o.value) else "NULL"
  }

  /** The deadline column: the value placed between quotes as it is, with no
      escaping, then cast to a timestamp; NULL when falsy. */
  function DeadlineToken(o: Option<string>): (tok: string)
    ensures tok == "NULL" <==> !Truthy(o)
    ensures Truthy(o) ==> tok == "'" + o.value + "'::timestamp"
  {
    if Truthy(o) then "'" + o.value + "'::timestamp" else "NULL"
  }

  /** The type column: the type between quotes, unescaped; an absent type is
      rendered as the text undefined. */
  function TypeToken(kind: Option<string>): (tok: string)
    ensures kind.Some? ==> tok == "'" + kind.value + "'"
    ensures kind.None? ==> tok == "'undefined'"
  {
    "'" + (if kind.Some? then kind.value else "undefined") + "'"
  }

  /** Every item as a quoted, escaped literal. */
  function QuoteAll(items: seq<string>): (r: seq<string>)
    ensures |r| == |items|
    ensures forall i :: 0 <= i < |items| ==> r[i] == SqlQuote(items[i])
  {
    if items == [] then [] else [SqlQuote(items[0])] + QuoteAll(items[1..])
  }

  /** The elements of the requirements array literal: one literal per array
      item, or the one string (for an absent member, the text undefined). */
  function RequirementElements(f: RequirementsField): (elems: seq<string>)
    ensures f.RequirementList? ==> elems == QuoteAll(f.items)
    ensures !f.RequirementList? ==> |elems| == 1
    ensures f.RequirementText? ==> elems[0] == SqlQuote(f.text)
    ensures f.NoRequirements? ==> elems[0] == SqlQuote("undefined")
  {
    match f
    case RequirementList(items) => QuoteAll(items)
    case RequirementText(text) => [SqlQuote(text)]
    case NoRequirements => [SqlQuote("undefined")]
  }

  /** Every element of the requirements array reads back as the item, the
      string, or the text undefined it was written from. */
  lemma RequirementElementsReadBack(f: RequirementsField)
    ensures f.RequirementList? ==> forall i :: 0 <= i < |f.items| ==>
      ScanLiteral(RequirementElements(f)[i][1..]) == Some((f.items[i], ""))
    ensures f.RequirementText? ==> ScanLiteral(RequirementElements(f)[0][1..]) == Some((f.text, ""))
    ensures f.NoRequirements? ==> ScanLiteral(RequirementElements(f)[0][1..]) == Some(("undefined", ""))
  {
    match f
    case RequirementList(items) =>
      forall i | 0 <= i < |items|
        ensures ScanLiteral(RequirementElements(f)[i][1..]) == Some((items[i], ""))
      {
        QuotedReadsBack(items[i]);
      }
    case RequirementText(text) => QuotedReadsBack(text);
    case NoRequirements => QuotedReadsBack("undefined");
  }

  /** The requirements column: the elements, joined by ", ", in an array literal. */
  function RequirementsToken(f: RequirementsField): (tok: string)
    ensures |tok| >= 7 && tok[..6] == "ARRAY[" && tok[|tok| - 1] == ']'
    ensures tok[6..|tok| - 1] == Join(RequirementElements(f), ", ")
  {
    var inner := Join(RequirementElements(f), ", ");
    var tok := "ARRAY[" + inner + "]";
    assert tok[6..|tok| - 1] == inner;
    tok
  }

  /** The VALUES of the INSERT statement, one token per column, in the
      statement's column order. */
  datatype InsertValues = InsertValues(
    title: string, company: string, location: string, kind: string, description: string,
    requirements: string, salary: string, experience: string, deadline: string,
    applicationProcess: string, contactInfo: string)

  /** The value tokens of the INSERT statement. Written only for a body that
      passed the guards. */
  function SqlValues(b: SubmitBody): (vals: InsertValues)
    requires HasJobFields(b)
    ensures vals.title == SqlQuote(b.title.value) && vals.company == SqlQuote(b.company.value)
    ensures vals.location == SqlQuote(b.location.value) && vals.description == SqlQuote(b.description.value)
    ensures vals.kind == TypeToken(b.kind) && vals.requirements == RequirementsToken(b.requirements)
    ensures vals.salary == SqlTextOrNull(b.salary) && vals.experience == SqlTextOrNull(b.experience)
    ensures vals.deadline == DeadlineToken(b.deadline)
    ensures vals.applicationProcess == SqlTextOrNull(b.applicationProcess)
    ensures vals.contactInfo == SqlTextOrNull(b.contactInfo)
  {
    InsertValues(SqlQuote(b.title.value), SqlQuote(b.company.value), SqlQuote(b.location.value),
                 TypeToken(b.kind), SqlQuote(b.description.value), RequirementsToken(b.requirements),
                 SqlTextOrNull(b.salary), SqlTextOrNull(b.experience), DeadlineToken(b.deadline),
                 SqlTextOrNull(b.applicationProcess), SqlTextOrNull(b.contactInfo))
  }

  /** Every escaped text column reads back, under SQL's quoting rule, as
      exactly the submitted text, whatever quotes it holds. */
  lemma EscapedColumnsReadBack(b: SubmitBody)
    requires HasJobFields(b)
    ensures var vals := SqlValues(b);
      && ScanLiteral(vals.title[1..]) == Some((b.title.value, ""))
      && ScanLiteral(vals.company[1..]) == Some((b.company.value, ""))
      && ScanLiteral(vals.location[1..]) == Some((b.location.value, ""))
      && ScanLiteral(vals.description[1..]) == Some((b.description.value, ""))
      && (Truthy(b.salary) ==> ScanLiteral(vals.salary[1..]) == Some((b.salary.value, "")))
      && (Truthy(b.experience) ==> ScanLiteral(vals.experience[1..]) == Some((b.experience.value, "")))
      && (Truthy(b.applicationProcess) ==>
            ScanLiteral(vals.applicationProcess[1..]) == Some((b.applicationProcess.value, "")))
      && (Truthy(b.contactInfo) ==> ScanLiteral(vals.contactInfo[1..]) == Some((b.contactInfo.value, "")))
  {
    QuotedReadsBack(b.title.value);
    QuotedReadsBack(b.company.value);
    QuotedReadsBack(b.location.value);
    QuotedReadsBack(b.description.value);
    if Truthy(b.salary) { QuotedReadsBack(b.salary.value); }
    if Truthy(b.experience) { QuotedReadsBack(b.experience.value); }
    if Truthy(b.applicationProcess) { QuotedReadsBack(b.applicationProcess.value); }
    if Truthy(b.contactInfo) { QuotedReadsBack(b.contactInfo.value); }
  }

  /** The body of `SqlQuote(s)` after its opening quote reads back as `s`. */
  lemma QuotedReadsBack(s: string)
    ensures ScanLiteral(SqlQuote(s)[1..]) == Some((s, ""))
  {
    assert SqlQuote(s)[1..] == EscapeQuotes(s) + "'" + "";
    SqlQuoteReadsBack(s, "");
  }

  /** The deadline is not escaped: a quote in it ends the literal early and
      the rest of the value lands outside it. */
  lemma DeadlineQuoteEndsLiteral()
    ensures ScanLiteral(DeadlineToken(Some("a'b"))[1..]) == Some(("a", "b'::timestamp"))
  {
    var t := DeadlineToken(Some("a'b"))[1..];
    assert t == "a'b'::timestamp";
    assert t[1..] == "'b'::timestamp" && t[1..][1..] == "b'::timestamp";
    assert ScanLiteral(t[1..]) == Some(("", "b'::timestamp"));
    assert t[0] != '\'' && [t[0]] + "" == "a";
    assert ScanLiteral(t) == Some(([t[0]] + "", "b'::timestamp"));
  }
}
