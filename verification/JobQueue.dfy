/** The thread pool's job queue: a linked list with a front, a rear and a length. */
module JobQueues {

  class Job {
    var prev: Job? // the job pushed after this one
    const id: nat

    constructor (id: nat)
      ensures this.id == id && prev == null
    {
      this.id := id;
      prev := null;
    }
  }

  class JobQueue {
    var front: Job?
    var rear: Job?
    var len: nat

    /** The queued jobs, first pushed first. */
    ghost var jobs: seq<Job>

    ghost predicate Valid()
      reads this, jobs
    {
      && len == |jobs|
      && (len == 0 ==> front == null && rear == null)
      && (len > 0 ==> front == jobs[0] && rear == jobs[len - 1] && rear.prev == null)
      && (forall i :: 0 <= i < len - 1 ==> jobs[i].prev == jobs[i + 1])
      && (forall i, j :: 0 <= i < j < len ==> jobs[i] != jobs[j])
    }

    /** The numbers of the queued jobs. */
    ghost function Ids(): (ids: seq<nat>)
      reads this
    {
      seq(|jobs|, i requires 0 <= i < |jobs| reads this => jobs[i].id)
    }

    constructor ()
      ensures Valid() && jobs == []
    {
      front, rear, len, jobs := null, null, 0, [];
    }

    /** Appends a job; the caller then posts the semaphore. */
    method Push(newjob: Job)
      requires Valid() && newjob !in jobs
      modifies this, rear, newjob
      ensures Valid() && jobs == old(jobs) + [newjob]
    {
      newjob.prev := null;
      if len == 0 {
        front := newjob;
        rear := newjob;
      } else {
        rear.prev := newjob;
        rear := newjob;
      }
      len := len + 1;
      jobs := jobs + [newjob];
    }

    /** Takes the first job, if there is one; `post` says whether the semaphore is posted again
        because jobs are left. */
    method Pull() returns (job: Job?, post: bool)
      requires Valid()
      modifies this
      ensures Valid() && (old(jobs) == [] ==> job == null && jobs == [])
      ensures old(jobs) != [] ==> job == old(jobs)[0] && jobs == old(jobs)[1..]
      ensures post <==> jobs != []
    {
      job, post := front, false;
      if len == 1 {
        front := null;
        rear := null;
        len := 0;
        jobs := [];
      } else if len > 1 {
        front := job.prev;
        len := len - 1;
        post := true;
        jobs := jobs[1..];
      }
    }

    /** Pulls and frees job after job until the length is zero: each of the queued jobs once, in
        order, and no other. */
    method Clear() returns (freed: seq<Job>)
      requires Valid()
      modifies this
      ensures Valid() && jobs == [] && freed == old(jobs)
    {
      freed := [];
      ghost var all := jobs;
      while len > 0
        invariant Valid() && |freed| <= |all| && freed == all[..|freed|] && jobs == all[|freed|..]
        decreases len
      {
        var job, post := Pull();
        freed := freed + [job];
      }
      front := null;
      rear := null;
      len := 0;
    }
  }
}
