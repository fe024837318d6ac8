/** The public functions of lib/db.ts: each goes to the hosted database when
    it is configured and to the file fallback otherwise. The hosted query's
    reply is a parameter; the file fallback is the `JobFiles` state. */
module Db {
  import opened Common
  import opened Records
  import opened FileStore
  import opened Hosted

  /** `getJobs`. */
  method GetJobs(configured: bool, files: JobFiles, reply: Reply<seq<JobRow>>) returns (r: seq<Job>)
    ensures configured ==> r == ListReply(reply)
    ensures !configured ==> r == files.Listed()
  {
    if configured {
      r := ListReply(reply);
    } else {
      r := files.GetJobs();
    }
  }

  /** `getJobById`. */
  method GetJobById(configured: bool, files: JobFiles, id: string, reply: Reply<JobRow>) returns (r: Option<Job>)
    ensures configured ==> r == RowReply(reply)
    ensures !configured ==> r == FindById(files.Listed(), id)
  {
    if configured {
      r := RowReply(reply);
    } else {
      r := files.GetJobById(id);
    }
  }

  /** `createJob`: the file fallback cannot fail; the hosted insert throws on
      an error reply. `id` and `postedDate` are what the file fallback's clock
      supplies. */
  method CreateJob(configured: bool, files: JobFiles, input: JobInput, id: string, postedDate: int,
                   reply: Reply<JobRow>) returns (r: Outcome<Job>)
    modifies files`jobsFile
    ensures configured ==> r == CreateReply(reply) && files.jobsFile == old(files.jobsFile)
    ensures !configured ==> (r == Ok(NewJob(input, id, postedDate))
                             && files.Listed() == old(files.Listed()) + [r.value])
  {
    if configured {
      r := CreateReply(reply);
    } else {
      var created := files.CreateJob(input, id, postedDate);
      r := Ok(created);
    }
  }

  /** `updateJob`. */
  method UpdateJob(configured: bool, files: JobFiles, id: string, updates: JobPatch,
                   reply: Reply<JobRow>) returns (r: Option<Job>)
    modifies files`jobsFile
    ensures configured ==> r == RowReply(reply) && files.jobsFile == old(files.jobsFile)
    ensures !configured ==> var k := IndexOfId(old(files.Listed()), id);
      if k < 0 then r.None? && files.jobsFile == old(files.jobsFile)
      else r == Some(Merge(old(files.Listed())[k], updates)) && files.Listed() == old(files.Listed())[k := r.value]
  {
    if configured {
      r := RowReply(reply);
    } else {
      r := files.UpdateJob(id, updates);
    }
  }

  /** `deleteJob`: the file fallback reports whether a posting had `id`; the
      hosted delete reports only that the query raised no error. */
  method DeleteJob(configured: bool, files: JobFiles, id: string, error: Option<string>) returns (deleted: bool)
    modifies files`jobsFile
    ensures configured ==> (deleted <==> error.None?) && files.jobsFile == old(files.jobsFile)
    ensures !configured ==> (deleted <==> HasId(old(files.Listed()), id))
    ensures !configured && deleted ==> files.Listed() == RemoveId(old(files.Listed()), id)
    ensures !configured && !deleted ==> files.jobsFile == old(files.jobsFile)
  {
    if configured {
      deleted := DeleteReply(error);
    } else {
      deleted := files.DeleteJob(id);
    }
  }

  /** `verifyUser`: the hosted reply is the row selected by username. */
  method VerifyUser(configured: bool, files: JobFiles, username: string, password: string,
                    reply: Reply<UserRow>) returns (u: Option<User>)
    ensures configured ==> u == VerifyReply(reply, password)
    ensures !configured ==> u == FindUser(files.usersFile.GetOr([]), username, password)
    ensures u.Some? ==> u.value.password == password
  {
    if configured {
      u := VerifyReply(reply, password);
    } else {
      u := files.VerifyUser(username, password);
    }
  }
}
