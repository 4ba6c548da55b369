/** A Wait comes to an end: between additions the threads of the check queue have a bounded amount of work to do. And
    workers are woken for it (src/checkqueue.h). */
module CheckProgress {
  import opened CheckQueue

  /** A batch that has been taken is to be evaluated and reported. */
  function Effort(threads: seq<Thread>): nat {
    if threads == [] then 0 else Effort(threads[..|threads| - 1]) + Steps(threads[|threads| - 1])
  }

  function Steps(th: Thread): nat {
    if th.Working? then 2 else if th.Finished? then 1 else 0
  }

  /** An upper bound of the evaluations and reports to come. */
  function Work(s: State): nat {
    2 * |s.queue| + Effort(s.threads)
  }

  lemma {:induction false} EffortAfter(threads: seq<Thread>, t: nat, th: Thread)
    requires t < |threads|
    ensures Effort(threads[t := th]) == Effort(threads) - Steps(threads[t]) + Steps(th)
  {
    var last := |threads| - 1;
    if t < last {
      EffortAfter(threads[..last], t, th);
      assert threads[t := th][..last] == threads[..last][t := th];
    } else {
      assert threads[t := th][..last] == threads[..last];
    }
  }

  lemma {:induction false} EffortSame(a: seq<Thread>, b: seq<Thread>)
    requires SameButNotified(a, b)
    ensures Effort(a) == Effort(b)
  {
    if a != [] { EffortSame(a[..|a| - 1], b[..|b| - 1]); }
  }

  /** Leaving the section never makes more work. */
  lemma ContinueWork(s: State, t: nat)
    requires t < |s.threads| && s.threads[t].InSection? && s.total + s.idle + 1 > 0
    ensures Work(Continue(s, t)) <= Work(s)
  {
    hide Effort, Popped;
    EffortAfter(s.threads, t, Continue(s, t).threads[t]);
    if s.queue != [] {
      var n := BatchSize(s);
      assert |Continue(s, t).queue| == |s.queue| - n;
    }
  }

  lemma BeforeWork(s: State, step: Step)
    requires Enabled(s, step) && (step.Enter? || step.Wake? || step.Report?)
    ensures Work(Before(s, step)) == Work(s) - if step.Report? then 1 else 0
  {
    hide Effort, NotifyOne, NotifyWorkers;
    var threads := s.threads[step.t := InSection];
    EffortAfter(s.threads, step.t, InSection);
    NotifySame(threads, 0);
    EffortSame(threads, NotifyOne(threads, 0));
  }

  predicate IsWork(step: Step) {
    step.Execute? || step.Report?
  }

  /** No step but an addition makes more work, and evaluations and reports make less. */
  lemma WorkGoesDown(s: State, round: seq<Check>, step: Step)
    requires Inv(s, round) && Enabled(s, step) && Sane(s, step) && !step.Add?
    ensures Work(Next(s, step)) <= Work(s) - if IsWork(step) then 1 else 0
  {
    hide Inv, Continue, Before, Effort, NotifyOne, NotifyWorkers;
    if step.WakeInVain? {
      EffortAfter(s.threads, step.t, Waiting(false));
    } else if step.Execute? {
      EffortAfter(s.threads, step.t, Next(s, step).threads[step.t]);
    } else if step.Interrupt? {
      var u := NotifyWorkers(s.threads);
      NotifySame(s.threads, 0);
      NotifySame(u, 0);
      EffortSame(s.threads, u);
      EffortSame(u, NotifyOne(u, 0));
    } else {
      BeforeKeeps(s, round, step);
      ContinueKeeps(Before(s, step), round, step.t);
      BeforeWork(s, step);
      ContinueWork(Before(s, step), step.t);
    }
  }

  lemma {:induction false} EffortBound(threads: seq<Thread>)
    requires forall t :: 0 <= t < |threads| ==> Steps(threads[t]) <= 2 * |threads[t].Batch()|
    ensures Effort(threads) <= 2 * InFlight(threads)
  {
    if threads != [] { EffortBound(threads[..|threads| - 1]); }
  }

  /** There is no more to do than the checks to be done call for. */
  lemma WorkBound(s: State, round: seq<Check>)
    requires Inv(s, round)
    ensures Work(s) <= 2 * s.todo
  {
    hide AllPass, Within, RestPasses;
    forall t | 0 <= t < |s.threads| ensures Steps(s.threads[t]) <= 2 * |s.threads[t].Batch()| {
      assert ThreadOk(s.threads[t], round);
    }
    EffortBound(s.threads);
  }

  lemma {:induction false} NoEffort(threads: seq<Thread>)
    requires Effort(threads) == 0
    ensures InFlight(threads) == 0
    ensures forall t :: 0 <= t < |threads| ==> !threads[t].Working? && !threads[t].Finished?
  {
    if threads != [] { NoEffort(threads[..|threads| - 1]); }
  }

  /** When all work is done the master has been notified, and waking up ends its Wait. */
  lemma DoneReturns(s: State, round: seq<Check>)
    requires Inv(s, round) && Settled(s) && !s.threads[0].Outside? && Work(s) == 0
    ensures s.threads[0] == Waiting(true) && Enabled(s, Wake(0)) && WaitResult(s, Wake(0)).Some?
  {
    hide ResultsOk;
    NoEffort(s.threads);
  }

  /** The evaluations and reports among the steps from a to b. */
  function WorkSteps(steps: seq<Step>, a: nat, b: nat): nat
    requires a <= b <= |steps|
  {
    if a == b then 0 else WorkSteps(steps, a, b - 1) + if IsWork(steps[b - 1]) then 1 else 0
  }

  /** In every run, while nothing is added, the evaluations and reports are at most two for each check to be done. */
  lemma {:induction false} BoundedWork(states: seq<State>, steps: seq<Step>, batchSize: nat, workers: nat,
                                       a: nat, b: nat)
    requires IsRun(states, steps) && states[0] == Start(batchSize, workers) && a <= b <= |steps|
    requires forall i :: a <= i < b ==> !steps[i].Add?
    ensures WorkSteps(steps, a, b) + Work(states[b]) <= Work(states[a]) <= 2 * states[a].todo
    decreases b
  {
    hide Inv, Next, Work, Settled, Start;
    RunKeeps(states, steps, batchSize, workers, a);
    WorkBound(states[a], RoundAt(states, steps, a));
    if a < b {
      BoundedWork(states, steps, batchSize, workers, a, b - 1);
      var round := RoundAt(states, steps, b - 1);
      RunKeeps(states, steps, batchSize, workers, b - 1);
      AlwaysSane(states[b - 1], round, steps[b - 1]);
      WorkGoesDown(states[b - 1], round, steps[b - 1]);
    }
  }

  // ---------------------------------------------------------------- the workers

  /** After more than one check is added no worker waits without a notification; after one, the worker chosen does not,
      and no other is notified. No thread is disturbed in any other way. */
  lemma AddWakes(s: State, checks: seq<Check>, who: nat)
    requires Enabled(s, Add(checks, who)) && Sane(s, Add(checks, who))
    ensures var t := Next(s, Add(checks, who));
      && t == s.(queue := s.queue + checks, todo := s.todo + |checks|, threads := t.threads)
      && SameButNotified(s.threads, t.threads)
      && (|checks| > 1 ==> forall i :: 1 <= i < |t.threads| ==> t.threads[i] != Waiting(false))
      && (|checks| == 1 ==>
            && (0 < who < |t.threads| ==> t.threads[who] != Waiting(false))
            && (forall i :: 0 <= i < |t.threads| && (i != who || i == 0) ==> t.threads[i] == s.threads[i]))
      && (checks == [] ==> t == s)
  {
    assert s.queue + [] == s.queue;
  }

  /** After an interruption no thread waits without a notification. */
  lemma InterruptWakes(s: State)
    requires Sane(s, Interrupt)
    ensures var t := Next(s, Interrupt);
      && t == s.(quit := true, threads := t.threads) && SameButNotified(s.threads, t.threads)
      && forall i :: 0 <= i < |t.threads| ==> t.threads[i] != Waiting(false)
  {
  }

  /** Once interrupted, with nothing left to do, every thread that waits can wake up, and then it leaves the loop. */
  lemma QuitLeaves(s: State, round: seq<Check>, t: nat)
    requires Inv(s, round) && s.quit && s.todo == 0 && t < |s.threads| && s.threads[t].Waiting?
    ensures Enabled(s, Wake(t)) && Sane(s, Wake(t)) && Next(s, Wake(t)).threads == s.threads[t := Outside]
  {
    hide ResultsOk;
    AlwaysSane(s, round, Wake(t));
  }

  lemma {:induction false} PoppedAt(queue: seq<Check>, n: nat)
    requires n <= |queue|
    ensures |Popped(queue, n)| == n && forall i :: 0 <= i < n ==> Popped(queue, n)[i] == queue[|queue| - 1 - i]
  {
    if n > 0 { PoppedAt(queue[..|queue| - 1], n - 1); }
  }

  /** While there are checks in the queue, every thread that waits can wake up, and then it takes some of them from the
      end, and knows whether one has failed already. */
  lemma WakeTakes(s: State, round: seq<Check>, t: nat)
    requires Inv(s, round) && s.queue != [] && t < |s.threads| && s.threads[t].Waiting?
    ensures Enabled(s, Wake(t)) && Sane(s, Wake(t))
    ensures var n := Next(s, Wake(t)); var th := n.threads[t];
      && th.Working? && th.ok == s.allOk && 0 < |th.batch| <= |s.queue|
      && n.queue == s.queue[..|s.queue| - |th.batch|]
      && (forall i :: 0 <= i < |th.batch| ==> th.batch[i] == s.queue[|s.queue| - 1 - i])
  {
    hide ResultsOk, Popped;
    AlwaysSane(s, round, Wake(t));
    var m := Before(s, Wake(t));
    PoppedAt(m.queue, BatchSize(m));
  }

  /** A worker leaves the loop only when it has been interrupted and nothing is left to do, and the master only when
      nothing is left to do. */
  lemma LeavesOnly(s: State, step: Step, t: nat)
    requires Enabled(s, step) && Sane(s, step) && t < |s.threads| && !s.threads[t].Outside?
    ensures var n := Next(s, step);
      |n.threads| == |s.threads| && (n.threads[t].Outside? ==> n.todo == 0 && n.queue == [] && (t == 0 || s.quit))
  {
    hide Popped, AllPass, Continue, Before;
    if step.Enter? || step.Wake? || step.Report? {
      BeforeStays(s, step, t);
      ContinueLeaves(Before(s, step), step.t, t);
    }
  }

  lemma BeforeStays(s: State, step: Step, t: nat)
    requires Enabled(s, step) && (step.Enter? || step.Wake? || step.Report?)
    requires t < |s.threads| && !s.threads[t].Outside?
    ensures var m := Before(s, step);
      |m.threads| == |s.threads| && !m.threads[t].Outside? && m.quit == s.quit && m.total >= s.total
      && m.idle >= s.idle - (if step.Wake? then 1 else 0)
  {
  }

  lemma ContinueLeaves(s: State, who: nat, t: nat)
    requires who < |s.threads| && s.total + s.idle + 1 > 0 && t < |s.threads| && !s.threads[t].Outside?
    ensures var n := Continue(s, who);
      |n.threads| == |s.threads| && (n.threads[t].Outside? ==> n.todo == 0 && n.queue == [] && (t == 0 || s.quit))
  {
    hide Popped;
  }
}
