/** The file fallback of lib/db.ts. data/jobs.json and data/users.json are
    each held as what the file parses to, `None` when it cannot be read or
    parsed. Every operation is a read-modify-write of the whole file. */
module FileStore {
  import opened Common
  import opened Records

  /** The account `initializeFileData` writes when users.json is absent. */
  function DefaultAdmin(createdAt: string): (u: User)
    ensures u.username == "admin" && u.password == "admin123" && u.role == "admin"
  {
    User("1", "admin", "admin123", "admin", createdAt)
  }

  /** What `initializeFileData` finds on disk for one data file: no file, a
      file that does not parse, or the parsed contents. */
  datatype OnDisk<T> = NoFile | BadFile | Parsed(contents: T)

  /** What a data file holds after `initializeFileData`: an absent file is
      written with `seed`; an existing one is left alone, so one that does
      not parse stays unreadable. */
  function Initialized<T>(d: OnDisk<T>, seed: T): (r: Option<T>)
    ensures d.NoFile? ==> r == Some(seed)
    ensures d.BadFile? ==> r.None?
    ensures d.Parsed? ==> r == Some(d.contents)
  {
    match d
    case NoFile => Some(seed)
    case BadFile => None
    case Parsed(contents) => Some(contents)
  }

  class JobFiles {
    /** The parsed contents of data/jobs.json. */
    var jobsFile: Option<seq<Job>>
    /** The parsed contents of data/users.json. */
    var usersFile: Option<seq<User>>

    /** `getJobsFromFile`: what reading the postings file yields; a read or
        parse failure reads as no postings. */
    function Listed(): seq<Job>
      reads this
    {
      jobsFile.GetOr([])
    }

    /** `initializeFileData`: a file that exists is left as it is, parsed or
        not; an absent one is seeded, postings with `seedJobs` and accounts
        with the default administrator. */
    constructor (jobsOnDisk: OnDisk<seq<Job>>, usersOnDisk: OnDisk<seq<User>>, seedJobs: seq<Job>, now: string)
      ensures jobsFile == Initialized(jobsOnDisk, seedJobs)
      ensures usersFile == Initialized(usersOnDisk, [DefaultAdmin(now)])
    {
      if jobsOnDisk.NoFile? {
        jobsFile := Some(seedJobs);
      } else {
        jobsFile := if jobsOnDisk.Parsed? then Some(jobsOnDisk.contents) else None;
      }
      if usersOnDisk.NoFile? {
        usersFile := Some([DefaultAdmin(now)]);
      } else {
        usersFile := if usersOnDisk.Parsed? then Some(usersOnDisk.contents) else None;
      }
    }

    /** `getJobsFromFile`. */
    method GetJobs() returns (r: seq<Job>)
      ensures r == Listed()
      ensures jobsFile.None? ==> r == []
    {
      match jobsFile
      case None => r := [];
      case Some(js) => r := js;
    }

    /** `getJobByIdFromFile`: a linear scan for the first posting with `id`. */
    method GetJobById(id: string) returns (r: Option<Job>)
      ensures r == FindById(Listed(), id)
    {
      var jobs := GetJobs();
      var i := 0;
      while i < |jobs|
        invariant 0 <= i <= |jobs|
        invariant forall k :: 0 <= k < i ==> jobs[k].id != id
      {
        if jobs[i].id == id {
          return Some(jobs[i]);
        }
        i := i + 1;
      }
      return None;
    }

    /** `createJobInFile`: appends one posting built from `input` with the
        supplied identifier and timestamp, and rewrites the file. */
    method CreateJob(input: JobInput, id: string, postedDate: int) returns (created: Job)
      modifies this`jobsFile
      ensures created == NewJob(input, id, postedDate)
      ensures Listed() == old(Listed()) + [created]
      ensures jobsFile.Some?
    {
      var jobs := GetJobs();
      created := NewJob(input, id, postedDate);
      jobs := jobs + [created];
      jobsFile := Some(jobs);
    }

    /** `updateJobInFile`: finds the first posting with `id`; when there is
        none, returns null and writes nothing, otherwise replaces that one
        posting by its shallow merge with `updates`. */
    method UpdateJob(id: string, updates: JobPatch) returns (r: Option<Job>)
      modifies this`jobsFile
      ensures var k := IndexOfId(old(Listed()), id);
        if k < 0 then r.None? && jobsFile == old(jobsFile)
        else r == Some(Merge(old(Listed())[k], updates)) && Listed() == old(Listed())[k := r.value]
    {
      var jobs := GetJobs();
      var index := 0;
      while index < |jobs| && jobs[index].id != id
        invariant 0 <= index <= |jobs|
        invariant forall k :: 0 <= k < index ==> jobs[k].id != id
      {
        index := index + 1;
      }
      if index == |jobs| {
        return None;
      }
      jobs := jobs[index := Merge(jobs[index], updates)];
      jobsFile := Some(jobs);
      r := Some(jobs[index]);
    }

    /** `deleteJobFromFile`: removes every posting with `id`; reports whether
        any was removed and rewrites the file only then. */
    method DeleteJob(id: string) returns (removed: bool)
      modifies this`jobsFile
      ensures removed <==> HasId(old(Listed()), id)
      ensures removed ==> Listed() == RemoveId(old(Listed()), id)
      ensures !removed ==> jobsFile == old(jobsFile)
    {
      var jobs := GetJobs();
      var filtered := RemoveId(jobs, id);
      if |filtered| == |jobs| {
        return false;
      }
      jobsFile := Some(filtered);
      return true;
    }

    /** `verifyUserFromFile`: the first account whose username and password
        both match exactly; an unreadable accounts file matches nobody. */
    method VerifyUser(username: string, password: string) returns (u: Option<User>)
      ensures u == FindUser(usersFile.GetOr([]), username, password)
    {
      if usersFile.None? {
        return None;
      }
      var users := usersFile.value;
      var i := 0;
      while i < |users|
        invariant 0 <= i <= |users|
        invariant forall k :: 0 <= k < i ==> !Matches(users[k], username, password)
      {
        if users[i].username == username && users[i].password == password {
          return Some(users[i]);
        }
        i := i + 1;
      }
      return None;
    }
  }

  /** A store seeded without an accounts file admits the default administrator. */
  lemma SeededAdminLogsIn(now: string)
    ensures FindUser([DefaultAdmin(now)], "admin", "admin123") == Some(DefaultAdmin(now))
  {
  }
}
