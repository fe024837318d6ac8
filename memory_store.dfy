/** lib/jobs.ts: a module-level list of postings that starts from built-in
    defaults. In the browser it is persisted under the storage key
    'barakJobs'; on the server it is cached in memory, and saving is
    ignored there. */
module MemoryStore {
  import opened Common
  import opened Seqs
  import opened Records

  /** What the 'barakJobs' storage entry holds: nothing (or an empty string),
      text that does not parse, JSON that is not an array, or an array of
      postings. */
  datatype SavedValue = Missing | Unparseable | NotAnArray | JobArray(jobs: seq<Job>)

  /** The load rule of `getJobsArray` in the browser: a saved array is used
      only when it is non-empty; otherwise the defaults. */
  function LoadRule(saved: SavedValue, defaults: seq<Job>): (r: seq<Job>)
    ensures saved.JobArray? && saved.jobs != [] ==> r == saved.jobs
    ensures !(saved.JobArray? && saved.jobs != []) ==> r == defaults
  {
    if saved.JobArray? && |saved.jobs| > 0 then saved.jobs else defaults
  }

  // ---------------------------------------------------------------- newest first

  /** Postings in order of non-increasing posting time. */
  predicate NewestFirstOrder(s: seq<Job>) {
    forall i, j :: 0 <= i < j < |s| ==> s[i].postedDate >= s[j].postedDate
  }

  /** No posting of `s` is newer than `b`. */
  predicate NoneAfter(s: seq<Job>, b: int) {
    forall i :: 0 <= i < |s| ==> s[i].postedDate <= b
  }

  /** Places `x` into `t` before the first posting not newer than it. */
  function Insert(x: Job, t: seq<Job>): (r: seq<Job>)
    ensures multiset(r) == multiset(t) + multiset{x}
  {
    if t == [] then [x]
    else if t[0].postedDate <= x.postedDate then [x] + t
    else
      assert t == [t[0]] + t[1..];
      [t[0]] + Insert(x, t[1..])
  }

  /** Inserting a posting no newer than `b` keeps every posting no newer than `b`. */
  lemma {:induction false} InsertNoneAfter(x: Job, t: seq<Job>, b: int)
    requires NoneAfter(t, b) && x.postedDate <= b
    ensures NoneAfter(Insert(x, t), b)
  {
    if t != [] && t[0].postedDate > x.postedDate {
      InsertNoneAfter(x, t[1..], b);
    }
  }

  /** Inserting into a newest-first list keeps it newest first. */
  lemma {:induction false} InsertOrdered(x: Job, t: seq<Job>)
    requires NewestFirstOrder(t)
    ensures NewestFirstOrder(Insert(x, t))
  {
    if t != [] && t[0].postedDate > x.postedDate {
      InsertOrdered(x, t[1..]);
      InsertNoneAfter(x, t[1..], t[0].postedDate);
    }
  }

  /** `getJobs`' sort by descending posting time: a permutation of the
      postings in newest-first order. */
  function NewestFirst(s: seq<Job>): (r: seq<Job>)
    ensures multiset(r) == multiset(s)
    ensures NewestFirstOrder(r)
  {
    if s == [] then []
    else
      assert s == [s[0]] + s[1..];
      InsertOrdered(s[0], NewestFirst(s[1..]));
      Insert(s[0], NewestFirst(s[1..]))
  }

  /** `jobs.map(job => job.id === j.id ? j : job)`: every posting with `j`'s
      identifier becomes `j`, every other one stays where it was. */
  function ReplaceById(s: seq<Job>, j: Job): (r: seq<Job>)
    ensures |r| == |s|
    ensures forall i :: 0 <= i < |s| && s[i].id != j.id ==> r[i] == s[i]
    ensures forall i :: 0 <= i < |s| && s[i].id == j.id ==> r[i] == j
  {
    seq(|s|, i requires 0 <= i < |s| => if s[i].id == j.id then j else s[i])
  }

  /** Replacing is idempotent, changes nothing when no posting has the
      identifier, and afterwards the posting found under it is `j`. */
  lemma ReplaceByIdFacts(s: seq<Job>, j: Job)
    ensures ReplaceById(ReplaceById(s, j), j) == ReplaceById(s, j)
    ensures !HasId(s, j.id) ==> ReplaceById(s, j) == s
    ensures HasId(s, j.id) ==> FindById(ReplaceById(s, j), j.id) == Some(j)
  {
    var r := ReplaceById(s, j);
    if HasId(s, j.id) {
      var k :| 0 <= k < |s| && s[k].id == j.id;
      assert r[k].id == j.id;
    }
  }

  class JobCache {
    /** `typeof window !== 'undefined'`: running in the browser. */
    const onClient: bool
    /** The built-in list of postings. */
    const defaults: seq<Job>
    /** `jobsCache`. */
    var cache: Option<seq<Job>>
    /** The 'barakJobs' entry of the browser's storage. */
    var saved: SavedValue

    /** The list the next read works on: in the browser the stored list by
        the load rule, on the server the cache, or the defaults before the
        first read. */
    function Visible(): seq<Job>
      reads this
    {
      if onClient then LoadRule(saved, defaults) else cache.GetOr(defaults)
    }

    /** A fresh module instance: nothing cached yet. */
    constructor (onClient: bool, defaults: seq<Job>, saved: SavedValue)
      ensures this.onClient == onClient && this.defaults == defaults
      ensures this.saved == saved && cache.None?
    {
      this.onClient := onClient;
      this.defaults := defaults;
      this.saved := saved;
      cache := None;
    }

    /** `getJobsArray`: on the server a cached list is returned as it is and
        the first read caches the defaults; in the browser the storage entry
        is read every time. */
    method LoadJobs() returns (r: seq<Job>)
      modifies this`cache
      ensures r == old(Visible())
      ensures Visible() == old(Visible())
      ensures onClient ==> cache == old(cache)
      ensures !onClient ==> cache == Some(r)
    {
      if cache.Some? && !onClient {
        return cache.value;
      }
      var current := defaults;
      if onClient {
        if saved.JobArray? && |saved.jobs| > 0 {
          current := saved.jobs;
        }
      }
      if !onClient {
        cache := Some(current);
      }
      r := current;
    }

    /** `saveJobsToStorage`: in the browser the list is stored and cached; on
        the server nothing happens. */
    method Save(jobs: seq<Job>)
      modifies this`cache, this`saved
      ensures onClient ==> saved == JobArray(jobs) && cache == Some(jobs)
      ensures !onClient ==> saved == old(saved) && cache == old(cache)
    {
      if onClient {
        saved := JobArray(jobs);
        cache := Some(jobs);
      }
    }

    /** `getJobs`: a newest-first copy of the list; the list itself is left
        as it was. */
    method GetJobs() returns (r: seq<Job>)
      modifies this`cache
      ensures r == NewestFirst(old(Visible()))
      ensures multiset(r) == multiset(old(Visible())) && NewestFirstOrder(r)
      ensures Visible() == old(Visible())
    {
      var jobs := LoadJobs();
      r := NewestFirst(jobs);
    }

    /** `getJobById`: nothing for an empty identifier, otherwise the first
        posting with that identifier. */
    method GetJobById(id: string) returns (r: Option<Job>)
      modifies this`cache
      ensures id == "" ==> r.None? && cache == old(cache)
      ensures id != "" ==> r == FindById(old(Visible()), id)
      ensures Visible() == old(Visible())
    {
      if id == "" {
        return None;
      }
      var jobs := LoadJobs();
      r := FindById(jobs, id);
    }

    /** `addJob`: a posting without identifier is refused; otherwise it is
        appended, which only the browser keeps. */
    method AddJob(job: Job)
      modifies this`cache, this`saved
      ensures job.id == "" ==> cache == old(cache) && saved == old(saved)
      ensures job.id != "" && onClient ==> (saved == JobArray(old(Visible()) + [job])
                                            && Visible() == old(Visible()) + [job])
      ensures !onClient ==> Visible() == old(Visible())
    {
      if job.id == "" {
        return;
      }
      var jobs := LoadJobs();
      Save(jobs + [job]);
    }

    /** `updateJob`: a posting without identifier is refused; otherwise every
        posting with its identifier is replaced by it, which only the browser
        keeps. */
    method UpdateJob(updated: Job)
      modifies this`cache, this`saved
      ensures updated.id == "" ==> cache == old(cache) && saved == old(saved)
      ensures updated.id != "" && onClient ==> (saved == JobArray(ReplaceById(old(Visible()), updated))
                                                && Visible() == (if old(Visible()) == [] then defaults
                                                                 else ReplaceById(old(Visible()), updated)))
      ensures !onClient ==> Visible() == old(Visible())
    {
      if updated.id == "" {
        return;
      }
      var jobs := LoadJobs();
      Save(ReplaceById(jobs, updated));
    }

    /** `deleteJob`: an empty identifier is refused; otherwise every posting
        with it is removed, which only the browser keeps. */
    method DeleteJob(id: string)
      modifies this`cache, this`saved
      ensures id == "" ==> cache == old(cache) && saved == old(saved)
      ensures id != "" && onClient ==> (saved == JobArray(RemoveId(old(Visible()), id))
                                        && Visible() == (if RemoveId(old(Visible()), id) == [] then defaults
                                                         else RemoveId(old(Visible()), id)))
      ensures !onClient ==> Visible() == old(Visible())
    {
      if id == "" {
        return;
      }
      var jobs := LoadJobs();
      Save(RemoveId(jobs, id));
    }
  }

  /** In the browser, an update keeps the number of postings (the stored list
      is never empty once the defaults are not). */
  lemma UpdateKeepsCount(visible: seq<Job>, defaults: seq<Job>, updated: Job)
    requires visible != []
    ensures LoadRule(JobArray(ReplaceById(visible, updated)), defaults) == ReplaceById(visible, updated)
    ensures |LoadRule(JobArray(ReplaceById(visible, updated)), defaults)| == |visible|
  {
  }

  /** In the browser, deleting the last posting brings the defaults back. */
  lemma DeleteLastRestoresDefaults(j: Job, defaults: seq<Job>)
    ensures LoadRule(JobArray(RemoveId([j], j.id)), defaults) == defaults
  {
    assert [j][0].id == j.id;
  }
}
