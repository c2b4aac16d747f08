/** The linked job queue does what the steps of the thread pool say of its queue. */
module PoolQueue {
  import opened JobQueues
  import opened ThreadPool

  /** The adding thread a, which holds the queue lock, links its job. */
  method PushStep(q: JobQueue, newjob: Job, ghost s: State, ghost a: nat)
    requires q.Valid() && newjob !in q.jobs && q.Ids() == s.queue
    requires a < |s.adders| && s.adders[a] == Pushing(newjob.id)
    modifies q, q.rear, newjob
    ensures q.Valid() && q.Ids() == AdderDo(s, a, Push).queue
    ensures AdderDo(s, a, Push).adders[a] == Posting(newjob.id)
  {
    q.Push(newjob);
  }

  /** The worker w, which holds the queue lock, pulls: it goes on without a job, with one, or with one
      and the duty to post again. */
  method PullStep(q: JobQueue, ghost s: State, ghost w: nat) returns (job: Job?, post: bool)
    requires q.Valid() && q.Ids() == s.queue && w < |s.workers| && s.workers[w] == Pulling
    modifies q
    ensures q.Valid() && q.Ids() == WorkerDo(s, w, Pull).queue
    ensures WorkerDo(s, w, Pull).workers[w] ==
      if job == null then Pulled(Nothing) else if post then Reposting(job.id) else Pulled(Got(job.id))
  {
    job, post := q.Pull();
  }
}
