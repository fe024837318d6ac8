/** The listing filter of the home page (app/page.tsx): a type filter unless
    'all' is chosen, then a case-insensitive search of title, company and
    location unless the search term is empty. */
module HomePage {
  import opened Seqs
  import opened Text
  import opened Records

  /** The posting's title, company or location contains `term`, ignoring case. */
  predicate TextMatch(j: Job, term: string) {
    || Contains(Lower(j.title), Lower(term))
    || Contains(Lower(j.company), Lower(term))
    || Contains(Lower(j.location), Lower(term))
  }

  /** Both criteria of the filter hold for `j`. */
  predicate Selected(j: Job, filterType: string, term: string) {
    (filterType == "all" || j.kind == filterType) && (term == "" || TextMatch(j, term))
  }

  /** The filtered listing, computed as the page does: at most two filters in turn. */
  function FilterJobs(jobs: seq<Job>, filterType: string, term: string): (r: seq<Job>)
    ensures forall i :: 0 <= i < |r| ==> r[i] in jobs
    ensures filterType != "all" ==> forall i :: 0 <= i < |r| ==> r[i].kind == filterType
    ensures term != "" ==> forall i :: 0 <= i < |r| ==> TextMatch(r[i], term)
  {
    var byType := if filterType != "all" then Keep(jobs, (j: Job) => j.kind == filterType) else jobs;
    if term != "" then Keep(byType, (j: Job) => TextMatch(j, term)) else byType
  }

  /** The two filters in turn are one filter on both criteria. */
  lemma FilterIsSelection(jobs: seq<Job>, filterType: string, term: string)
    ensures FilterJobs(jobs, filterType, term) == Keep(jobs, (j: Job) => Selected(j, filterType, term))
  {
    var sel := (j: Job) => Selected(j, filterType, term);
    var byKind := (j: Job) => j.kind == filterType;
    var byText := (j: Job) => TextMatch(j, term);
    if filterType != "all" && term != "" {
      KeepKeep(jobs, byKind, byText, sel);
    } else if filterType != "all" {
      KeepSame(jobs, byKind, sel);
    } else if term != "" {
      KeepSame(jobs, byText, sel);
    } else {
      KeepLength(jobs, sel);
    }
  }

  /** The filtered listing keeps the loaded order and only drops postings. */
  lemma FilterIsSubsequence(jobs: seq<Job>, filterType: string, term: string)
    ensures SubsequenceOf(FilterJobs(jobs, filterType, term), jobs)
  {
    FilterIsSelection(jobs, filterType, term);
    KeepIsSubsequence(jobs, (j: Job) => Selected(j, filterType, term));
  }

  /** Every posting meeting both criteria is listed. */
  lemma FilterIsComplete(jobs: seq<Job>, filterType: string, term: string, j: Job)
    requires j in jobs && Selected(j, filterType, term)
    ensures j in FilterJobs(jobs, filterType, term)
  {
    FilterIsSelection(jobs, filterType, term);
    KeepComplete(jobs, (j: Job) => Selected(j, filterType, term), j);
  }

  /** Filtering the filtered listing again changes nothing. */
  lemma FilterIsIdempotent(jobs: seq<Job>, filterType: string, term: string)
    ensures FilterJobs(FilterJobs(jobs, filterType, term), filterType, term) == FilterJobs(jobs, filterType, term)
  {
    FilterIsSelection(jobs, filterType, term);
    FilterIsSelection(FilterJobs(jobs, filterType, term), filterType, term);
    KeepIdempotent(jobs, (j: Job) => Selected(j, filterType, term));
  }

  /** The search ignores the case of the term: typing it in capitals lists
      the same postings. */
  lemma FilterIgnoresCase(jobs: seq<Job>, filterType: string, term: string)
    ensures FilterJobs(jobs, filterType, Upper(term)) == FilterJobs(jobs, filterType, term)
  {
    LowerUpper(term);
    FilterIsSelection(jobs, filterType, term);
    FilterIsSelection(jobs, filterType, Upper(term));
    KeepSame(jobs, (j: Job) => Selected(j, filterType, Upper(term)), (j: Job) => Selected(j, filterType, term));
  }
}
