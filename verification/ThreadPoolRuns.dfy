/** What runs of the thread pool do to a job, told by the steps of the run alone. */
module ThreadPoolRuns {
  import opened ThreadPool

  /** In state u the step ends the run of a job by the worker that holds it. */
  ghost predicate Finishes(u: State, act: Action, job: nat) {
    act.ByWorkerThread? && act.ws == FinishJob && act.w < |u.workers| && u.workers[act.w] == Running(job)
  }

  /** In state u the step is the return from thpool_add_work for a job. */
  ghost predicate Returns(u: State, act: Action, job: nat) {
    act.ByAdderThread? && act.adds == UnlockAfterPush && act.a < |u.adders| && u.adders[act.a] == Leaving(job)
  }

  /** The k-th step of the run that starts in s, and the state it is taken in. */
  ghost predicate StepAt(s: State, acts: seq<Action>, k: nat, u: State) {
    k < |acts| && Path(s, acts[..k], u)
  }

  lemma {:induction false} Concatenated(s: State, first: seq<Action>, u: State, second: seq<Action>, t: State)
    requires Path(s, first, u) && Path(u, second, t)
    ensures Path(s, first + second, t)
    decreases |first|
  {
    if first == [] {
      assert [] + second == second;
    } else {
      Concatenated(Do(s, first[0]), first[1..], u, second, t);
      assert (first + second)[1..] == first[1..] + second;
    }
  }

  /** From the state of a step the run goes on. */
  lemma {:induction false} GoesOn(s: State, acts: seq<Action>, t: State, k: nat, u: State)
    requires Path(s, acts, t) && StepAt(s, acts, k, u)
    ensures Enabled(u, acts[k]) && Path(Do(u, acts[k]), acts[k + 1..], t)
    decreases k
  {
    if k > 0 {
      assert acts[..k][1..] == acts[1..][..k - 1] && acts[1..][k..] == acts[k + 1..];
      GoesOn(Do(s, acts[0]), acts[1..], t, k - 1, u);
    }
  }

  /** What is done stays done, and who has returned has returned. */
  lemma {:induction false} HistoryGrows(s: State, acts: seq<Action>, t: State)
    requires Path(s, acts, t)
    ensures s.done <= t.done && s.returned <= t.returned
    decreases |acts|
  {
    if acts != [] {
      HistoryGrows(Do(s, acts[0]), acts[1..], t);
    }
  }

  /** A job becomes done by the step that finishes it. */
  lemma {:induction false} DoneByStep(s: State, acts: seq<Action>, t: State, job: nat) returns (k: nat, u: State)
    requires Path(s, acts, t) && job in t.done && job !in s.done
    ensures StepAt(s, acts, k, u) && Finishes(u, acts[k], job)
    decreases |acts|
  {
    var next := Do(s, acts[0]);
    if job in next.done {
      k, u := 0, s;
    } else {
      k, u := DoneByStep(next, acts[1..], t, job);
      assert acts[..k + 1][1..] == acts[1..][..k];
      k := k + 1;
    }
  }

  /** No job is finished twice in a run. */
  lemma FinishedOnce(s: State, acts: seq<Action>, t: State, job: nat, j: nat, u: State, k: nat, v: State)
    requires Initial(s) && Path(s, acts, t)
    requires StepAt(s, acts, j, u) && Finishes(u, acts[j], job)
    requires StepAt(s, acts, k, v) && Finishes(v, acts[k], job)
    ensures j == k
  {
    if j < k {
      NotFinishedBefore(s, acts, job, j, u, k, v);
    } else if k < j {
      NotFinishedBefore(s, acts, job, k, v, j, u);
    }
  }

  lemma NotFinishedBefore(s: State, acts: seq<Action>, job: nat, j: nat, u: State, k: nat, v: State)
    requires Initial(s) && j < k && StepAt(s, acts, j, u) && Finishes(u, acts[j], job) && StepAt(s, acts, k, v)
    ensures !Finishes(v, acts[k], job)
  {
    assert acts[..k][..j] == acts[..j];
    GoesOn(s, acts[..k], v, j, u);
    HistoryGrows(Do(u, acts[j]), acts[..k][j + 1..], v);
    RunsAreFifo(s, acts[..k], v);
    assert Finishes(v, acts[k], job) ==> Holds(v, acts[k].w, job);
  }

  /** When thpool_wait returns, every job whose thpool_add_work returned before the wait began has been run
      and finished by a worker at some step of the run. */
  lemma WaitedJobsRun(s: State, before: seq<Action>, b: State, during: seq<Action>, t: State,
                      k: nat, u: State, job: nat) returns (acts: seq<Action>, m: nat, v: State)
    requires Initial(s) && Path(s, before, b) && b.waiter.Outside?
    requires Path(WaiterDo(b, StartWait), during, t) && StartsNoWait(during) && t.waiter.Returned?
    requires StepAt(s, before, k, u) && Returns(u, before[k], job)
    ensures acts == before + [ByWaiterThread(StartWait)] + during && Path(s, acts, t)
    ensures StepAt(s, acts, m, v) && Finishes(v, acts[m], job)
  {
    WaitIsSound(s, before, b, during, t);
    GoesOn(s, before, b, k, u);
    HistoryGrows(Do(u, before[k]), before[k + 1..], b);
    var waits := [ByWaiterThread(StartWait)];
    assert waits[1..] == [];
    assert Path(b, waits, WaiterDo(b, StartWait));
    Concatenated(s, before, b, waits, WaiterDo(b, StartWait));
    Concatenated(s, before + waits, WaiterDo(b, StartWait), during, t);
    acts := before + waits + during;
    m, v := DoneByStep(s, acts, t, job);
  }
}
