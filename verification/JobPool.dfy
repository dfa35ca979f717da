/** The shared FIFO of jobs. Every operation but AddJobs holds the pool's lock, so
    each is one atomic step. */
module JobPools {

  datatype Option<+T> = None | Some(value: T)

  datatype JobType = SETUP | EXEC

  datatype Job = Job(name: string, jobType: JobType)

  class JobPool {
    var jobs: seq<Job>

    constructor ()
      ensures jobs == []
    {
      jobs := [];
    }

    method AddJob(job: Job)
      modifies this
      ensures jobs == old(jobs) + [job]
    {
      jobs := jobs + [job];
    }

    method AddJobs(more: seq<Job>)
      modifies this
      ensures jobs == old(jobs) + more
    {
      jobs := jobs + more;
    }

    /** The oldest job, or None when the pool is empty. */
    method GetNextJob() returns (job: Option<Job>)
      modifies this
      ensures job.None? <==> old(jobs) == []
      ensures job.Some? ==> old(jobs) == [job.value] + jobs
      ensures job.None? ==> jobs == []
    {
      if jobs != [] {
        job := Some(jobs[0]);
        jobs := jobs[1..];
      } else {
        job := None;
      }
    }

    predicate HasJobs()
      reads this
    {
      |jobs| > 0
    }

    predicate IsEmpty()
      reads this
      ensures IsEmpty() <==> !HasJobs()
    {
      |jobs| == 0
    }
  }
}
