/**
 The thread pool as a transition system: any number of workers, any number of threads that add
 work and one thread that waits, interleaved step by step. A step is what happens between two
 points where another thread can get in between.
 */
module ThreadPool {

  /** Where a worker stands in its loop. */
  datatype Worker =
    | Idle                     // about to lock the semaphore and test it
    | Blocked                  // in the semaphore's condition wait, not signalled
    | Woken                    // signalled, about to lock the semaphore and test it again
    | HasToken                 // has taken the token, about to count itself as working
    | Counted                  // counted, about to lock the queue
    | Pulling                  // holds the queue lock
    | Reposting(job: nat)      // holds the queue lock, took a job, jobs are left
    | Pulled(got: Got)         // about to release the queue lock
    | Running(job: nat)        // running the job
    | Finished                 // about to stop counting itself as working

  datatype Got = Nothing | Got(job: nat)

  /** Where a thread that adds work stands in thpool_add_work. */
  datatype Adder =
    | Away
    | Adding(job: nat)         // has allocated the job, about to lock the queue
    | Pushing(job: nat)        // holds the queue lock
    | Posting(job: nat)        // holds the queue lock, has linked the job
    | Leaving(job: nat)        // has posted, about to release the queue lock

  /** Where the waiting thread stands in thpool_wait. */
  datatype Waiter =
    | Outside
    | Entering                 // about to lock the counter lock
    | ReadingLen               // holds the counter lock, about to read the queue's length
    | ReadingCount             // holds it, read a length of zero, about to read the counter
    | FallingAsleep            // holds it, about to wait for the condition
    | Asleep                   // in the condition wait, not signalled
    | Signalled                // signalled, about to lock the counter lock again
    | Returned

  datatype QueueLock = Free | ByWorker(w: nat) | ByAdder(a: nat)

  datatype State = State(
    token: bool,               // the binary semaphore
    queue: seq<nat>,           // the jobs in the queue, first pushed first
    working: int,              // num_threads_working
    lock: QueueLock,           // the queue's mutex
    counterHeld: bool,         // the counter lock is held by the waiting thread
    workers: seq<Worker>,
    adders: seq<Adder>,
    waiter: Waiter,
    // history
    next: nat,                 // the next job number
    pushed: seq<nat>,          // the jobs in the order they were pushed
    pulled: seq<nat>,          // the jobs in the order they were pulled
    done: set<nat>,            // the jobs that have run to their end
    returned: set<nat>,        // the jobs whose thpool_add_work has returned
    due: set<nat>              // those of them that had when the current wait began
  )

  datatype WorkerStep =
    | TestToken
    | WakeSpuriously
    | CountIn
    | LockForPull
    | Pull
    | Repost(signalled: set<nat>)
    | UnlockAfterPull
    | FinishJob
    | CountOut

  datatype AdderStep =
    | StartAdd
    | LockForPush
    | Push
    | Post(signalled: set<nat>)
    | UnlockAfterPush

  datatype WaiterStep =
    | StartWait
    | LockCounter
    | ReadLen
    | ReadCount
    | FallAsleep
    | WakeWaiterSpuriously
    | LeaveWait

  datatype Action =
    | ByWorkerThread(w: nat, ws: WorkerStep)
    | ByAdderThread(a: nat, adds: AdderStep)
    | ByWaiterThread(waits: WaiterStep)

  ghost predicate Initial(s: State) {
    && !s.token && s.queue == [] && s.working == 0 && s.lock == Free && !s.counterHeld
    && (forall w: nat :: 0 <= w < |s.workers| ==> s.workers[w] == Idle)
    && (forall a: nat :: 0 <= a < |s.adders| ==> s.adders[a] == Away)
    && s.waiter == Outside
    && s.pushed == [] && s.pulled == [] && s.done == {} && s.returned == {} && s.due == {}
  }

  // ---------------------------------------------------------------- steps

  ghost predicate BlockedAt(s: State, w: nat) {
    w < |s.workers| && s.workers[w].Blocked?
  }

  /** pthread_cond_signal: at least one blocked thread is woken if there is one. */
  ghost predicate CanSignal(s: State, signalled: set<nat>) {
    && (forall w: nat :: w in signalled ==> BlockedAt(s, w))
    && (signalled == {} ==> forall w: nat :: !BlockedAt(s, w))
  }

  ghost function Wake(workers: seq<Worker>, signalled: set<nat>): seq<Worker> {
    seq(|workers|, w requires 0 <= w < |workers| => if w in signalled then Woken else workers[w])
  }

  ghost predicate WorkerCan(s: State, w: nat, step: WorkerStep) {
    w < |s.workers| &&
    match step
    case TestToken => s.workers[w].Idle? || s.workers[w].Woken?
    case WakeSpuriously => s.workers[w].Blocked?
    case CountIn => s.workers[w].HasToken? && !s.counterHeld
    case LockForPull => s.workers[w].Counted? && s.lock == Free
    case Pull => s.workers[w].Pulling?
    case Repost(signalled) => s.workers[w].Reposting? && CanSignal(s, signalled)
    case UnlockAfterPull => s.workers[w].Pulled?
    case FinishJob => s.workers[w].Running?
    case CountOut => s.workers[w].Finished? && !s.counterHeld
  }

  /** Where the stepping worker goes. */
  ghost function WorkerNext(s: State, w: nat, step: WorkerStep): Worker
    requires WorkerCan(s, w, step)
  {
    match step
    case TestToken => if s.token then HasToken else Blocked
    case WakeSpuriously => Woken
    case CountIn => Counted
    case LockForPull => Pulling
    case Pull =>
      if s.queue == [] then Pulled(Nothing)
      else if |s.queue| == 1 then Pulled(Got(s.queue[0]))
      else Reposting(s.queue[0])
    case Repost(_) => Pulled(Got(s.workers[w].job))
    case UnlockAfterPull =>
      if s.workers[w].got.Nothing? then Finished else Running(s.workers[w].got.job)
    case FinishJob => Finished
    case CountOut => Idle
  }

  /** bsem_post. */
  ghost function Posted(s: State, signalled: set<nat>): State {
    s.(token := true, workers := Wake(s.workers, signalled))
  }

  ghost function WorkerDo(s: State, w: nat, step: WorkerStep): State
    requires WorkerCan(s, w, step)
  {
    var t := s.(workers := s.workers[w := WorkerNext(s, w, step)]);
    match step
    case TestToken => t.(token := false)
    case WakeSpuriously => t
    case CountIn => t.(working := s.working + 1)
    case LockForPull => t.(lock := ByWorker(w))
    case Pull =>
      if s.queue == [] then t
      else t.(queue := s.queue[1..], pulled := s.pulled + [s.queue[0]])
    case Repost(signalled) => Posted(t, signalled)
    case UnlockAfterPull => t.(lock := Free)
    case FinishJob => t.(done := s.done + {s.workers[w].job})
    case CountOut =>
      t.(working := s.working - 1,
         waiter := if s.working - 1 == 0 && s.waiter == Asleep then Signalled else s.waiter)
  }

  ghost predicate AdderCan(s: State, a: nat, step: AdderStep) {
    a < |s.adders| &&
    match step
    case StartAdd => s.adders[a].Away?
    case LockForPush => s.adders[a].Adding? && s.lock == Free
    case Push => s.adders[a].Pushing?
    case Post(signalled) => s.adders[a].Posting? && CanSignal(s, signalled)
    case UnlockAfterPush => s.adders[a].Leaving?
  }

  ghost function AdderNext(s: State, a: nat, step: AdderStep): Adder
    requires AdderCan(s, a, step)
  {
    match step
    case StartAdd => Adding(s.next)
    case LockForPush => Pushing(s.adders[a].job)
    case Push => Posting(s.adders[a].job)
    case Post(_) => Leaving(s.adders[a].job)
    case UnlockAfterPush => Away
  }

  ghost function AdderDo(s: State, a: nat, step: AdderStep): State
    requires AdderCan(s, a, step)
  {
    var t := s.(adders := s.adders[a := AdderNext(s, a, step)]);
    match step
    case StartAdd => t.(next := s.next + 1)
    case LockForPush => t.(lock := ByAdder(a))
    case Push =>
      t.(queue := s.queue + [s.adders[a].job], pushed := s.pushed + [s.adders[a].job])
    case Post(signalled) => Posted(t, signalled)
    case UnlockAfterPush => t.(lock := Free, returned := s.returned + {s.adders[a].job})
  }

  ghost predicate WaiterCan(s: State, step: WaiterStep) {
    match step
    case StartWait => s.waiter.Outside?
    case LockCounter => (s.waiter.Entering? || s.waiter.Signalled?) && !s.counterHeld
    case ReadLen => s.waiter.ReadingLen?
    case ReadCount => s.waiter.ReadingCount?
    case FallAsleep => s.waiter.FallingAsleep?
    case WakeWaiterSpuriously => s.waiter.Asleep?
    case LeaveWait => s.waiter.Returned?
  }

  ghost function WaiterDo(s: State, step: WaiterStep): State
    requires WaiterCan(s, step)
  {
    match step
    case StartWait => s.(waiter := Entering, due := s.returned)
    case LockCounter => s.(waiter := ReadingLen, counterHeld := true)
    case ReadLen => s.(waiter := if |s.queue| != 0 then FallingAsleep else ReadingCount)
    case ReadCount =>
      if s.working != 0 then s.(waiter := FallingAsleep)
      else s.(waiter := Returned, counterHeld := false)
    case FallAsleep => s.(waiter := Asleep, counterHeld := false)
    case WakeWaiterSpuriously => s.(waiter := Signalled)
    case LeaveWait => s.(waiter := Outside)
  }

  ghost predicate Enabled(s: State, act: Action) {
    match act
    case ByWorkerThread(w, step) => WorkerCan(s, w, step)
    case ByAdderThread(a, step) => AdderCan(s, a, step)
    case ByWaiterThread(step) => WaiterCan(s, step)
  }

  ghost function Do(s: State, act: Action): State
    requires Enabled(s, act)
  {
    match act
    case ByWorkerThread(w, step) => WorkerDo(s, w, step)
    case ByAdderThread(a, step) => AdderDo(s, a, step)
    case ByWaiterThread(step) => WaiterDo(s, step)
  }

  // ---------------------------------------------------------------- the invariant

  ghost predicate AtQueue(x: Worker) {
    x.Pulling? || x.Reposting? || x.Pulled?
  }

  ghost predicate AdderAtQueue(x: Adder) {
    x.Pushing? || x.Posting? || x.Leaving?
  }

  /** Between counting itself in and counting itself out. */
  ghost predicate CountedIn(x: Worker) {
    x.Counted? || AtQueue(x) || x.Running? || x.Finished?
  }

  ghost function Working(workers: seq<Worker>): (n: nat)
    ensures n <= |workers|
  {
    if workers == [] then 0
    else Working(workers[..|workers| - 1]) + (if CountedIn(workers[|workers| - 1]) then 1 else 0)
  }

  ghost predicate HasJob(x: Worker, job: nat) {
    x == Reposting(job) || x == Pulled(Got(job)) || x == Running(job)
  }

  ghost predicate Holds(s: State, w: nat, job: nat) {
    w < |s.workers| && HasJob(s.workers[w], job)
  }

  /** The adder has a job that it has not linked into the queue yet. */
  ghost predicate Brings(s: State, a: nat, job: nat) {
    a < |s.adders| && (s.adders[a] == Adding(job) || s.adders[a] == Pushing(job))
  }

  /** The adder has linked the job and not returned yet. */
  ghost predicate Brought(s: State, a: nat, job: nat) {
    a < |s.adders| && (s.adders[a] == Posting(job) || s.adders[a] == Leaving(job))
  }

  /** Has taken a token and not looked into the queue yet. */
  ghost predicate Committed(s: State, w: nat) {
    w < |s.workers| && (s.workers[w].HasToken? || s.workers[w].Counted? || s.workers[w].Pulling?)
  }

  ghost predicate AboutToRepost(s: State, w: nat) {
    w < |s.workers| && s.workers[w].Reposting?
  }

  ghost predicate AboutToPost(s: State, a: nat) {
    a < |s.adders| && s.adders[a].Posting?
  }

  ghost predicate WorkerLock(s: State, w: nat) {
    w < |s.workers| && AtQueue(s.workers[w])
  }

  ghost predicate AdderLock(s: State, a: nat) {
    a < |s.adders| && AdderAtQueue(s.adders[a])
  }

  /** Each lock is held by exactly the thread whose position says so. */
  ghost predicate Locks(s: State) {
    && (forall w: nat :: WorkerLock(s, w) <==> s.lock == ByWorker(w))
    && (forall a: nat :: AdderLock(s, a) <==> s.lock == ByAdder(a))
    && (s.counterHeld <==> s.waiter.ReadingLen? || s.waiter.ReadingCount? || s.waiter.FallingAsleep?)
  }

  ghost predicate Counting(s: State) {
    s.working == Working(s.workers)
  }

  ghost predicate NoDuplicates(q: seq<nat>) {
    forall i, j :: 0 <= i < j < |q| ==> q[i] != q[j]
  }

  /** First pushed, first pulled; no job is pushed twice. */
  ghost predicate Fifo(s: State) {
    && s.pushed == s.pulled + s.queue
    && NoDuplicates(s.pushed)
    && (forall job: nat :: job in s.pushed ==> job < s.next)
    && (forall a: nat, job: nat :: Brings(s, a, job) ==> job < s.next && job !in s.pushed)
    && (forall a: nat, b: nat, job: nat :: Brings(s, a, job) && Brings(s, b, job) ==> a == b)
    && (forall a: nat, job: nat :: Brought(s, a, job) ==> job in s.pushed)
  }

  /** A pulled job is held by exactly one worker until it is done. */
  ghost predicate OnceEach(s: State) {
    && (forall w: nat, job: nat :: Holds(s, w, job) ==> job in s.pulled && job !in s.done)
    && (forall v: nat, w: nat, job: nat :: Holds(s, v, job) && Holds(s, w, job) ==> v == w)
    && (forall job: nat :: job in s.pulled && job !in s.done ==> exists w: nat :: Holds(s, w, job))
    && (forall job: nat :: job in s.done ==> job in s.pulled)
  }

  /** A job in the queue has a token, a worker on its way to the queue, or a thread about to post. */
  ghost predicate NoLostJob(s: State) {
    s.queue != [] ==>
      || s.token
      || (exists w: nat :: Committed(s, w))
      || (exists w: nat :: AboutToRepost(s, w))
      || (exists a: nat :: AboutToPost(s, a))
  }

  /** A token never coexists with all workers blocked. */
  ghost predicate TokenSeen(s: State) {
    s.token && |s.workers| > 0 ==> exists w: nat :: w < |s.workers| && !BlockedAt(s, w)
  }

  ghost predicate Waiting(s: State) {
    && (forall job: nat :: job in s.returned ==> job in s.pushed)
    && (forall job: nat :: job in s.due ==> job in s.returned)
    && (s.waiter.ReadingCount? ==> forall job: nat :: job in s.due ==> job in s.pulled)
    && (s.waiter.Returned? ==> s.due <= s.done)
    && (s.waiter.FallingAsleep? || s.waiter.Asleep? ==> s.queue != [] || s.working > 0)
  }

  ghost predicate Inv(s: State) {
    && Locks(s) && Counting(s) && Fifo(s) && OnceEach(s) && NoLostJob(s) && TokenSeen(s)
    && Waiting(s)
  }

  lemma {:induction false} NobodyWorking(workers: seq<Worker>)
    requires forall w: nat :: 0 <= w < |workers| ==> !CountedIn(workers[w])
    ensures Working(workers) == 0
  {
    if workers != [] {
      NobodyWorking(workers[..|workers| - 1]);
    }
  }

  lemma {:induction false} SomebodyWorking(workers: seq<Worker>, w: nat)
    requires w < |workers| && CountedIn(workers[w])
    ensures Working(workers) > 0
  {
    if w < |workers| - 1 {
      SomebodyWorking(workers[..|workers| - 1], w);
    }
  }

  lemma {:induction false} WorkingUpdate(workers: seq<Worker>, w: nat, to: Worker)
    requires w < |workers|
    ensures Working(workers[w := to]) == Working(workers)
              - (if CountedIn(workers[w]) then 1 else 0) + (if CountedIn(to) then 1 else 0)
  {
    var k := |workers| - 1;
    if w == k {
      assert workers[w := to][..k] == workers[..k];
    } else {
      assert workers[w := to][..k] == workers[..k][w := to];
      WorkingUpdate(workers[..k], w, to);
    }
  }

  lemma {:induction false} WorkingWake(workers: seq<Worker>, signalled: set<nat>)
    requires forall w: nat :: w in signalled ==> w < |workers| && workers[w] == Blocked
    ensures Working(Wake(workers, signalled)) == Working(workers)
  {
    if workers != [] {
      var k := |workers| - 1;
      WorkingWake(workers[..k], signalled - {k});
      assert Wake(workers, signalled)[..k] == Wake(workers[..k], signalled - {k});
    }
  }

  lemma InitialInv(s: State)
    requires Initial(s)
    ensures Inv(s)
  {
    NobodyWorking(s.workers);
  }

  // ---------------------------------------------------------------- every step keeps it

  lemma WorkerKeepsCounting(s: State, w: nat, step: WorkerStep)
    requires Inv(s) && WorkerCan(s, w, step)
    ensures Counting(WorkerDo(s, w, step))
  {
    var to := WorkerNext(s, w, step);
    WorkingUpdate(s.workers, w, to);
    if step.Repost? {
      WorkingWake(s.workers[w := to], step.signalled);
    }
  }

  lemma AdderKeepsCounting(s: State, a: nat, step: AdderStep)
    requires Inv(s) && AdderCan(s, a, step)
    ensures Counting(AdderDo(s, a, step))
  {
    if step.Post? {
      WorkingWake(s.workers, step.signalled);
    }
  }

  lemma WorkerKeepsLocks(s: State, w: nat, step: WorkerStep)
    requires Inv(s) && WorkerCan(s, w, step)
    ensures Locks(WorkerDo(s, w, step))
  {
    var t := WorkerDo(s, w, step);
    assert WorkerLock(s, w) <==> s.lock == ByWorker(w);
    forall v: nat ensures WorkerLock(t, v) <==> t.lock == ByWorker(v) {
      assert WorkerLock(s, v) <==> s.lock == ByWorker(v);
    }
    forall a: nat ensures AdderLock(t, a) <==> t.lock == ByAdder(a) {
      assert AdderLock(s, a) <==> s.lock == ByAdder(a);
    }
  }

  lemma AdderKeepsLocks(s: State, a: nat, step: AdderStep)
    requires Inv(s) && AdderCan(s, a, step)
    ensures Locks(AdderDo(s, a, step))
  {
    var t := AdderDo(s, a, step);
    assert AdderLock(s, a) <==> s.lock == ByAdder(a);
    forall v: nat ensures WorkerLock(t, v) <==> t.lock == ByWorker(v) {
      assert WorkerLock(s, v) <==> s.lock == ByWorker(v);
    }
    forall b: nat ensures AdderLock(t, b) <==> t.lock == ByAdder(b) {
      assert AdderLock(s, b) <==> s.lock == ByAdder(b);
    }
  }

  lemma WaiterKeepsLocks(s: State, step: WaiterStep)
    requires Inv(s) && WaiterCan(s, step)
    ensures Locks(WaiterDo(s, step)) && Counting(WaiterDo(s, step))
  {
    var t := WaiterDo(s, step);
    forall v: nat ensures WorkerLock(t, v) <==> t.lock == ByWorker(v) {
      assert WorkerLock(s, v) <==> s.lock == ByWorker(v);
    }
    forall b: nat ensures AdderLock(t, b) <==> t.lock == ByAdder(b) {
      assert AdderLock(s, b) <==> s.lock == ByAdder(b);
    }
  }

  lemma WorkerKeepsFifo(s: State, w: nat, step: WorkerStep)
    requires Inv(s) && WorkerCan(s, w, step)
    ensures Fifo(WorkerDo(s, w, step))
  {
    var t := WorkerDo(s, w, step);
    assert t.pushed == t.pulled + t.queue;
    forall a: nat, job: nat ensures Brings(t, a, job) <==> Brings(s, a, job) {
    }
    forall a: nat, job: nat ensures Brought(t, a, job) <==> Brought(s, a, job) {
    }
  }

  lemma AdderKeepsFifo(s: State, a: nat, step: AdderStep)
    requires Inv(s) && AdderCan(s, a, step)
    ensures Fifo(AdderDo(s, a, step))
  {
    var t := AdderDo(s, a, step);
    assert t.pushed == t.pulled + t.queue;
    if step.LockForPush? || step.Push? {
      assert Brings(s, a, s.adders[a].job);
    }
    if step.Post? {
      assert Brought(s, a, s.adders[a].job);
    }
    forall b: nat, job: nat | Brings(t, b, job)
      ensures job < t.next && job !in t.pushed
    {
      assert b != a ==> Brings(s, b, job);
    }
    forall b: nat, c: nat, job: nat | Brings(t, b, job) && Brings(t, c, job) ensures b == c {
      assert b != a ==> Brings(s, b, job);
      assert c != a ==> Brings(s, c, job);
    }
    forall b: nat, job: nat | Brought(t, b, job) ensures job in t.pushed {
      assert b != a ==> Brought(s, b, job);
    }
  }

  lemma WorkerKeepsOnceEach(s: State, w: nat, step: WorkerStep)
    requires Inv(s) && WorkerCan(s, w, step)
    ensures OnceEach(WorkerDo(s, w, step))
  {
    var t := WorkerDo(s, w, step);
    WorkerHolds(s, w, step);
    if step.Pull? && s.queue != [] {
      FrontIsFresh(s);
      assert t.pulled == s.pulled + [s.queue[0]];
      assert Holds(t, w, s.queue[0]);
    }
    if step.FinishJob? {
      assert Holds(s, w, s.workers[w].job);
    }
    forall job: nat | job in t.pulled && job !in t.done ensures exists v: nat :: Holds(t, v, job) {
      if job in s.pulled {
        var v: nat :| Holds(s, v, job);
        assert Holds(t, v, job);
      }
    }
  }

  /** The job at the front of the queue has not been pulled. */
  lemma FrontIsFresh(s: State)
    requires Fifo(s) && s.queue != []
    ensures s.queue[0] !in s.pulled
  {
    forall i | 0 <= i < |s.pulled| ensures s.pulled[i] != s.queue[0] {
      assert s.pushed[i] == s.pulled[i] && s.pushed[|s.pulled|] == s.queue[0];
    }
  }

  /** Only a pull gives a worker a job, and only finishing it takes it away. */
  lemma WorkerHolds(s: State, w: nat, step: WorkerStep)
    requires Inv(s) && WorkerCan(s, w, step)
    ensures var t := WorkerDo(s, w, step);
      forall v: nat, job: nat :: Holds(t, v, job) <==>
        || (Holds(s, v, job) && !(v == w && step.FinishJob?))
        || (v == w && step.Pull? && s.queue != [] && job == s.queue[0])
  {
    var t := WorkerDo(s, w, step);
    forall v: nat, job: nat
      ensures Holds(t, v, job) <==>
        || (Holds(s, v, job) && !(v == w && step.FinishJob?))
        || (v == w && step.Pull? && s.queue != [] && job == s.queue[0])
    {
      if v < |s.workers| && v != w {
        assert t.workers[v] == s.workers[v] || (s.workers[v].Blocked? && t.workers[v].Woken?);
      }
    }
  }

  lemma AdderKeepsOnceEach(s: State, a: nat, step: AdderStep)
    requires Inv(s) && AdderCan(s, a, step)
    ensures OnceEach(AdderDo(s, a, step))
  {
    var t := AdderDo(s, a, step);
    forall v: nat, job: nat ensures Holds(t, v, job) <==> Holds(s, v, job) {
      if v < |s.workers| {
        assert t.workers[v] == s.workers[v] || (s.workers[v].Blocked? && t.workers[v].Woken?);
      }
    }
    forall job: nat | job in t.pulled && job !in t.done ensures exists v: nat :: Holds(t, v, job) {
      var v: nat :| Holds(s, v, job);
      assert Holds(t, v, job);
    }
  }

  /** What a step leaves of the reasons why queued jobs are not lost. */
  lemma WorkerKeepsNoLostJob(s: State, w: nat, step: WorkerStep)
    requires Inv(s) && WorkerCan(s, w, step)
    ensures NoLostJob(WorkerDo(s, w, step))
  {
    var t := WorkerDo(s, w, step);
    if t.queue != [] && !t.token {
      match step
      case TestToken =>
        if s.token { assert Committed(t, w); } else { ReasonsKept(s, t, w); }
      case CountIn => assert Committed(t, w);
      case LockForPull => assert Committed(t, w);
      case Pull => assert AboutToRepost(t, w);
      case Repost(_) =>
      case WakeSpuriously => ReasonsKept(s, t, w);
      case UnlockAfterPull => ReasonsKept(s, t, w);
      case FinishJob => ReasonsKept(s, t, w);
      case CountOut => ReasonsKept(s, t, w);
    }
  }

  lemma ReasonsKept(s: State, t: State, w: nat)
    requires NoLostJob(s) && !s.token && s.queue != [] && t.queue != []
    requires !Committed(s, w) && !AboutToRepost(s, w) && |t.workers| == |s.workers|
    requires t.adders == s.adders
    requires forall v :: 0 <= v < |s.workers| && v != w ==> t.workers[v] == s.workers[v]
    ensures NoLostJob(t)
  {
    if v: nat :| Committed(s, v) {
      assert Committed(t, v);
    } else if v: nat :| AboutToRepost(s, v) {
      assert AboutToRepost(t, v);
    } else {
      var a: nat :| AboutToPost(s, a);
      assert AboutToPost(t, a);
    }
  }

  lemma AdderKeepsNoLostJob(s: State, a: nat, step: AdderStep)
    requires Inv(s) && AdderCan(s, a, step)
    ensures NoLostJob(AdderDo(s, a, step))
  {
    var t := AdderDo(s, a, step);
    if t.queue != [] && !t.token {
      if step.Push? {
        assert AboutToPost(t, a);
      } else if v: nat :| Committed(s, v) {
        assert Committed(t, v);
      } else if v: nat :| AboutToRepost(s, v) {
        assert AboutToRepost(t, v);
      } else {
        var b: nat :| AboutToPost(s, b);
        assert AboutToPost(t, b);
      }
    }
  }

  lemma WorkerKeepsTokenSeen(s: State, w: nat, step: WorkerStep)
    requires Inv(s) && WorkerCan(s, w, step)
    ensures TokenSeen(WorkerDo(s, w, step))
  {
    var t := WorkerDo(s, w, step);
    if t.token {
      assert !BlockedAt(t, w);
    }
  }

  lemma AdderKeepsTokenSeen(s: State, a: nat, step: AdderStep)
    requires Inv(s) && AdderCan(s, a, step)
    ensures TokenSeen(AdderDo(s, a, step))
  {
    var t := AdderDo(s, a, step);
    if t.token && |t.workers| > 0 {
      if step.Post? {
        if v :| v in step.signalled {
          assert BlockedAt(s, v) && !BlockedAt(t, v);
        } else {
          assert !BlockedAt(s, 0) && !BlockedAt(t, 0);
        }
      } else {
        var v: nat :| v < |s.workers| && !BlockedAt(s, v);
        assert !BlockedAt(t, v);
      }
    }
  }

  lemma WorkerKeepsWaiting(s: State, w: nat, step: WorkerStep)
    requires Inv(s) && WorkerCan(s, w, step)
    ensures Waiting(WorkerDo(s, w, step))
  {
    var t := WorkerDo(s, w, step);
    if step.Pull? {
      SomebodyWorking(s.workers, w);
    }
  }

  lemma AdderKeepsWaiting(s: State, a: nat, step: AdderStep)
    requires Inv(s) && AdderCan(s, a, step)
    ensures Waiting(AdderDo(s, a, step))
  {
    if step.UnlockAfterPush? {
      assert Brought(s, a, s.adders[a].job);
    }
  }

  /** The waiting thread reads a length of zero only after every job it waits for was pulled, and a
      count of zero only when no worker holds a job. */
  lemma WaiterKeepsWaiting(s: State, step: WaiterStep)
    requires Inv(s) && WaiterCan(s, step)
    ensures Waiting(WaiterDo(s, step))
  {
    if step.ReadLen? && s.queue == [] {
      assert s.pushed == s.pulled;
    }
    if step.ReadCount? && s.working == 0 {
      forall job | job in s.due ensures job in s.done {
        if job !in s.done {
          var w: nat :| Holds(s, w, job);
          SomebodyWorking(s.workers, w);
        }
      }
    }
  }

  lemma WaiterKeepsOthers(s: State, step: WaiterStep)
    requires Inv(s) && WaiterCan(s, step)
    ensures var t := WaiterDo(s, step); Fifo(t) && OnceEach(t) && NoLostJob(t) && TokenSeen(t)
  {
    var t := WaiterDo(s, step);
    forall v: nat, job: nat ensures Holds(t, v, job) <==> Holds(s, v, job) {
    }
    forall a: nat, job: nat ensures Brings(t, a, job) <==> Brings(s, a, job) {
    }
    forall a: nat, job: nat ensures Brought(t, a, job) <==> Brought(s, a, job) {
    }
    forall v: nat ensures (Committed(t, v) <==> Committed(s, v))
      && (AboutToRepost(t, v) <==> AboutToRepost(s, v)) && (AboutToPost(t, v) <==> AboutToPost(s, v))
      && (BlockedAt(t, v) <==> BlockedAt(s, v))
    {
    }
  }

  /** Every step of every thread keeps the invariant. */
  lemma StepKeepsInv(s: State, act: Action)
    requires Inv(s) && Enabled(s, act)
    ensures Inv(Do(s, act))
  {
    match act
    case ByWorkerThread(w, step) =>
      WorkerKeepsLocks(s, w, step);
      WorkerKeepsCounting(s, w, step);
      WorkerKeepsFifo(s, w, step);
      WorkerKeepsOnceEach(s, w, step);
      WorkerKeepsNoLostJob(s, w, step);
      WorkerKeepsTokenSeen(s, w, step);
      WorkerKeepsWaiting(s, w, step);
    case ByAdderThread(a, step) =>
      AdderKeepsLocks(s, a, step);
      AdderKeepsCounting(s, a, step);
      AdderKeepsFifo(s, a, step);
      AdderKeepsOnceEach(s, a, step);
      AdderKeepsNoLostJob(s, a, step);
      AdderKeepsTokenSeen(s, a, step);
      AdderKeepsWaiting(s, a, step);
    case ByWaiterThread(step) =>
      WaiterKeepsLocks(s, step);
      WaiterKeepsOthers(s, step);
      WaiterKeepsWaiting(s, step);
  }

  // ---------------------------------------------------------------- runs

  /** The actions lead from s to t. */
  ghost predicate Path(s: State, acts: seq<Action>, t: State)
    decreases |acts|
  {
    if acts == [] then s == t
    else Enabled(s, acts[0]) && Path(Do(s, acts[0]), acts[1..], t)
  }

  lemma {:induction false} PathKeepsInv(s: State, acts: seq<Action>, t: State)
    requires Inv(s) && Path(s, acts, t)
    ensures Inv(t)
    decreases |acts|
  {
    if acts != [] {
      StepKeepsInv(s, acts[0]);
      PathKeepsInv(Do(s, acts[0]), acts[1..], t);
    }
  }

  /** Exactly once and in order: in every run, what was pushed is what was pulled followed by the
      queue, no job is pulled twice, each pulled job is done or held by exactly one worker, and the
      working count is the number of workers between counting in and counting out. */
  lemma RunsAreFifo(s: State, acts: seq<Action>, t: State)
    requires Initial(s) && Path(s, acts, t)
    ensures t.pushed == t.pulled + t.queue && NoDuplicates(t.pushed)
    ensures forall job: nat :: job in t.pulled <==> job in t.done || exists w: nat :: Holds(t, w, job)
    ensures forall w: nat, job: nat :: Holds(t, w, job) ==> job !in t.done
    ensures forall v: nat, w: nat, job: nat :: Holds(t, v, job) && Holds(t, w, job) ==> v == w
    ensures t.working == Working(t.workers)
  {
    InitialInv(s);
    PathKeepsInv(s, acts, t);
  }

  ghost predicate StartsNoWait(acts: seq<Action>) {
    forall i :: 0 <= i < |acts| ==> acts[i] != ByWaiterThread(StartWait)
  }

  lemma {:induction false} DueStays(s: State, acts: seq<Action>, t: State)
    requires Path(s, acts, t) && StartsNoWait(acts)
    ensures t.due == s.due
    decreases |acts|
  {
    if acts != [] {
      assert StartsNoWait(acts[1..]);
      DueStays(Do(s, acts[0]), acts[1..], t);
    }
  }

  /** thpool_wait is sound: when it returns, every job whose thpool_add_work had returned when the
      wait began has run to its end. */
  lemma WaitIsSound(s: State, before: seq<Action>, b: State, during: seq<Action>, t: State)
    requires Initial(s) && Path(s, before, b) && b.waiter.Outside?
    requires Path(WaiterDo(b, StartWait), during, t) && StartsNoWait(during)
    requires t.waiter.Returned?
    ensures b.returned <= t.done
  {
    InitialInv(s);
    PathKeepsInv(s, before, b);
    StepKeepsInv(b, ByWaiterThread(StartWait));
    PathKeepsInv(WaiterDo(b, StartWait), during, t);
    DueStays(WaiterDo(b, StartWait), during, t);
  }

  /** No lost job: in every reachable state a job in the queue has a token, a worker on its way to
      the queue or a thread about to post, and a set token is not left to blocked workers only. */
  lemma NoJobIsLost(s: State, acts: seq<Action>, t: State)
    requires Initial(s) && Path(s, acts, t)
    ensures t.queue != [] ==>
      || t.token || (exists w: nat :: Committed(t, w))
      || (exists w: nat :: AboutToRepost(t, w)) || (exists a: nat :: AboutToPost(t, a))
    ensures t.token && |t.workers| > 0 ==> exists w: nat :: w < |t.workers| && !t.workers[w].Blocked?
  {
    InitialInv(s);
    PathKeepsInv(s, acts, t);
    if t.token && |t.workers| > 0 {
      var w: nat :| w < |t.workers| && !BlockedAt(t, w);
    }
  }

  /** No lost wakeup: while the waiting thread sleeps unsignalled there are jobs in the queue or
      workers counted in, and the count that falls to zero signals it. */
  lemma NoLostWakeup(s: State, acts: seq<Action>, t: State, w: nat)
    requires Initial(s) && Path(s, acts, t) && t.waiter.Asleep?
    ensures t.queue != [] || exists v: nat :: v < |t.workers| && CountedIn(t.workers[v])
    ensures WorkerCan(t, w, CountOut) && (forall v: nat :: v < |t.workers| && CountedIn(t.workers[v]) ==> v == w)
      ==> WorkerDo(t, w, CountOut).waiter.Signalled?
  {
    InitialInv(s);
    PathKeepsInv(s, acts, t);
    if forall v: nat :: v < |t.workers| ==> !CountedIn(t.workers[v]) {
      NobodyWorking(t.workers);
    }
    if WorkerCan(t, w, CountOut)
      && (forall v: nat :: v < |t.workers| && CountedIn(t.workers[v]) ==> v == w)
    {
      WorkingUpdate(t.workers, w, Idle);
      NobodyWorking(t.workers[w := Idle]);
    }
  }

  // ---------------------------------------------------------------- progress

  /** Steps other than new calls and spurious wakeups. */
  ghost predicate Progress(act: Action) {
    act != ByWaiterThread(StartWait) && act != ByWaiterThread(WakeWaiterSpuriously)
    && (act.ByWorkerThread? ==> act.ws != WakeSpuriously)
    && (act.ByAdderThread? ==> act.adds != StartAdd)
  }

  /** No thread can take a step of its own. */
  ghost predicate Quiescent(s: State) {
    forall act :: Progress(act) ==> !Enabled(s, act)
  }

  ghost function AllBlocked(s: State): set<nat> {
    set w: nat | 0 <= w < |s.workers| && BlockedAt(s, w)
  }

  lemma SignalAll(s: State)
    ensures CanSignal(s, AllBlocked(s))
  {
    assert forall w: nat :: BlockedAt(s, w) ==> w in AllBlocked(s);
  }

  /** Whoever holds a lock can go on. */
  lemma HolderStep(s: State) returns (act: Action)
    requires Locks(s) && (s.lock != Free || s.counterHeld)
    ensures Progress(act) && Enabled(s, act)
  {
    SignalAll(s);
    match s.lock
    case ByWorker(w) =>
      assert WorkerLock(s, w);
      act := ByWorkerThread(w, match s.workers[w]
        case Pulling => Pull
        case Reposting(_) => Repost(AllBlocked(s))
        case _ => UnlockAfterPull);
    case ByAdder(a) =>
      assert AdderLock(s, a);
      act := ByAdderThread(a, match s.adders[a]
        case Pushing(_) => Push
        case Posting(_) => Post(AllBlocked(s))
        case _ => UnlockAfterPush);
    case Free =>
      act := ByWaiterThread(match s.waiter
        case ReadingLen => ReadLen
        case ReadingCount => ReadCount
        case _ => FallAsleep);
  }

  lemma HoldersGoOn(s: State)
    requires Inv(s) && Quiescent(s)
    ensures s.lock == Free && !s.counterHeld
  {
    if s.lock != Free || s.counterHeld {
      var act := HolderStep(s);
    }
  }

  lemma WorkersBlocked(s: State)
    requires Inv(s) && Quiescent(s)
    ensures forall w :: 0 <= w < |s.workers| ==> s.workers[w].Blocked?
  {
    HoldersGoOn(s);
    forall w | 0 <= w < |s.workers| ensures s.workers[w].Blocked? {
      assert !Enabled(s, ByWorkerThread(w, TestToken));
      assert !Enabled(s, ByWorkerThread(w, CountIn));
      assert !Enabled(s, ByWorkerThread(w, LockForPull));
      assert !Enabled(s, ByWorkerThread(w, FinishJob));
      assert !Enabled(s, ByWorkerThread(w, CountOut));
      assert !WorkerLock(s, w);
    }
  }

  /** Nothing gets stuck: with at least one worker, a state in which no thread can take a step has
      an empty queue, every pushed job done, and nobody left inside thpool_add_work or thpool_wait. */
  lemma QuietMeansDone(s: State)
    requires Inv(s) && Quiescent(s) && |s.workers| > 0
    ensures s.queue == [] && (forall job :: job in s.pushed ==> job in s.done)
    ensures s.waiter.Outside? && forall a :: 0 <= a < |s.adders| ==> s.adders[a].Away?
  {
    HoldersGoOn(s);
    WorkersBlocked(s);
    NobodyWorking(s.workers);
    forall a: nat | a < |s.adders| ensures s.adders[a].Away? {
      assert !Enabled(s, ByAdderThread(a, LockForPush));
      assert !AdderLock(s, a);
    }
    assert !s.token;
    assert s.queue == [];
    assert s.pushed == s.pulled;
    forall job | job in s.pushed ensures job in s.done {
      forall w: nat ensures !Holds(s, w, job) {
      }
    }
    assert !Enabled(s, ByWaiterThread(LockCounter)) && !Enabled(s, ByWaiterThread(LeaveWait));
  }

  // A measure that every step of progress lowers.

  ghost function WorkerRank(x: Worker, n: nat): nat {
    match x
    case Blocked => 0
    case Idle => 1
    case Woken => 1
    case Finished => 6
    case Running(_) => 7
    case Pulled(_) => 8
    case Pulling => 9
    case Counted => 10
    case HasToken => 11
    case Reposting(_) => 20 + n
  }

  ghost function AdderRank(x: Adder, n: nat): nat {
    match x
    case Away => 0
    case Leaving(_) => 1
    case Posting(_) => 13 + n
    case Pushing(_) => 26 + 2 * n
    case Adding(_) => 27 + 2 * n
  }

  ghost function WaiterRank(x: Waiter): nat {
    match x
    case Outside => 0
    case Asleep => 0
    case FallingAsleep => 1
    case Returned => 1
    case ReadingCount => 2
    case ReadingLen => 3
    case Entering => 4
    case Signalled => 4
  }

  ghost function WorkersRank(xs: seq<Worker>, n: nat): nat {
    if xs == [] then 0 else WorkersRank(xs[..|xs| - 1], n) + WorkerRank(xs[|xs| - 1], n)
  }

  ghost function AddersRank(xs: seq<Adder>, n: nat): nat {
    if xs == [] then 0 else AddersRank(xs[..|xs| - 1], n) + AdderRank(xs[|xs| - 1], n)
  }

  ghost function QueueRank(len: nat, n: nat): nat {
    if len == 0 then 0 else QueueRank(len - 1, n) + 12 + n
  }

  ghost function Rank(s: State): nat {
    var n := |s.workers|;
    QueueRank(|s.queue|, n) + (if s.token then 11 else 0) + WorkersRank(s.workers, n)
    + AddersRank(s.adders, n) + WaiterRank(s.waiter)
  }

  lemma {:induction false} WorkersRankUpdate(xs: seq<Worker>, w: nat, x: Worker, n: nat)
    requires w < |xs|
    ensures WorkersRank(xs[w := x], n) == WorkersRank(xs, n) - WorkerRank(xs[w], n) + WorkerRank(x, n)
  {
    var k := |xs| - 1;
    if w == k {
      assert xs[w := x][..k] == xs[..k];
    } else {
      assert xs[w := x][..k] == xs[..k][w := x];
      WorkersRankUpdate(xs[..k], w, x, n);
    }
  }

  lemma {:induction false} AddersRankUpdate(xs: seq<Adder>, a: nat, x: Adder, n: nat)
    requires a < |xs|
    ensures AddersRank(xs[a := x], n) == AddersRank(xs, n) - AdderRank(xs[a], n) + AdderRank(x, n)
  {
    var k := |xs| - 1;
    if a == k {
      assert xs[a := x][..k] == xs[..k];
    } else {
      assert xs[a := x][..k] == xs[..k][a := x];
      AddersRankUpdate(xs[..k], a, x, n);
    }
  }

  lemma {:induction false} WakeRank(xs: seq<Worker>, signalled: set<nat>, n: nat)
    requires forall w :: w in signalled ==> w < |xs| && xs[w].Blocked?
    ensures WorkersRank(Wake(xs, signalled), n) <= WorkersRank(xs, n) + |xs|
  {
    if xs != [] {
      var k := |xs| - 1;
      WakeRank(xs[..k], signalled - {k}, n);
      assert Wake(xs, signalled)[..k] == Wake(xs[..k], signalled - {k});
    }
  }

  lemma WorkerLowersRank(s: State, w: nat, step: WorkerStep)
    requires WorkerCan(s, w, step) && step != WakeSpuriously
    ensures Rank(WorkerDo(s, w, step)) < Rank(s)
  {
    var n, to := |s.workers|, WorkerNext(s, w, step);
    WorkersRankUpdate(s.workers, w, to, n);
    if step.Repost? {
      WakeRank(s.workers[w := to], step.signalled, n);
    }
  }

  lemma AdderLowersRank(s: State, a: nat, step: AdderStep)
    requires AdderCan(s, a, step) && step != StartAdd
    ensures Rank(AdderDo(s, a, step)) < Rank(s)
  {
    var n := |s.workers|;
    AddersRankUpdate(s.adders, a, AdderNext(s, a, step), n);
    if step.Post? {
      WakeRank(s.workers, step.signalled, n);
    }
  }

  lemma {:induction false} ProgressIsBounded(s: State, acts: seq<Action>, t: State)
    requires Path(s, acts, t) && forall i :: 0 <= i < |acts| ==> Progress(acts[i])
    ensures |acts| + Rank(t) <= Rank(s)
    decreases |acts|
  {
    if acts != [] {
      match acts[0] {
        case ByWorkerThread(w, step) => WorkerLowersRank(s, w, step);
        case ByAdderThread(a, step) => AdderLowersRank(s, a, step);
        case ByWaiterThread(step) =>
      }
      ProgressIsBounded(Do(s, acts[0]), acts[1..], t);
    }
  }

  /** All work gets done under any schedule: after any run, if no further calls are made and no
      condition wakes spuriously, the threads together take a bounded number of steps, and when
      they can take none, every job pushed is done and every call has returned. */
  lemma AllWorkGetsDone(s: State, acts: seq<Action>, b: State, rest: seq<Action>, t: State)
    requires Initial(s) && |s.workers| > 0 && Path(s, acts, b)
    requires Path(b, rest, t) && forall i :: 0 <= i < |rest| ==> Progress(rest[i])
    ensures |rest| <= Rank(b)
    ensures Quiescent(t) ==>
      && t.queue == [] && (forall job :: job in t.pushed ==> job in t.done)
      && t.waiter.Outside? && (forall a :: 0 <= a < |t.adders| ==> t.adders[a].Away?)
  {
    InitialInv(s);
    PathKeepsInv(s, acts, b);
    PathKeepsInv(b, rest, t);
    SameThreads(s, acts, b);
    SameThreads(b, rest, t);
    ProgressIsBounded(b, rest, t);
    if Quiescent(t) {
      QuietMeansDone(t);
    }
  }

  lemma {:induction false} SameThreads(s: State, acts: seq<Action>, t: State)
    requires Path(s, acts, t)
    ensures |t.workers| == |s.workers| && |t.adders| == |s.adders|
    decreases |acts|
  {
    if acts != [] {
      SameThreads(Do(s, acts[0]), acts[1..], t);
    }
  }
}
