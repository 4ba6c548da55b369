/** The check queue: one master and any number of workers share a stack of
    checks behind a mutex (src/checkqueue.h). Every step below is one critical
    section, or the execution of a batch outside it; a run is any interleaving
    of such steps. Thread 0 is the master. */
module CheckQueue {
  import opened Wrappers
  import opened Numbers

  /** A check, and what evaluating it returns. */
  datatype Check = Check(id: nat, passes: bool)

  predicate AllPass(checks: seq<Check>) {
    forall i :: 0 <= i < |checks| ==> checks[i].passes
  }

  datatype Thread =
    | Outside                                  // not in Loop
    | InSection                                // holds the mutex; never between steps
    | Waiting(notified: bool)                  // blocked on its condition variable
    | Working(batch: seq<Check>, ok: bool)     // holds a batch; ok is fAllOk when it was taken
    | Finished(batch: seq<Check>, ok: bool)    // has evaluated its batch and not reported yet
  {
    function Batch(): seq<Check> {
      if Working? || Finished? then batch else []
    }
  }

  datatype State = State(
    queue: seq<Check>, idle: int, total: int, allOk: bool, todo: int, quit: bool,
    batchSize: nat, threads: seq<Thread>)

  datatype Step =
    | Add(checks: seq<Check>, who: nat)        // who: the worker that notify_one picks
    | Enter(t: nat)
    | Wake(t: nat)
    | WakeInVain(t: nat)
    | Execute(t: nat)
    | Report(t: nat)
    | Interrupt

  // -------------------------------------------------------------- the steps

  /** The condition a thread waits for. */
  predicate Ready(s: State, t: nat) {
    s.queue != [] || ((t == 0 || s.quit) && s.todo == 0)
  }

  predicate Enabled(s: State, step: Step) {
    match step
    case Add(_, _) => |s.threads| > 0 && s.threads[0].Outside?
    case Enter(t) => t < |s.threads| && s.threads[t].Outside?
    case Wake(t) => t < |s.threads| && s.threads[t].Waiting? && Ready(s, t)
    case WakeInVain(t) => t < |s.threads| && s.threads[t].Waiting? && !Ready(s, t)
    case Execute(t) => t < |s.threads| && s.threads[t].Working?
    case Report(t) => t < |s.threads| && s.threads[t].Finished?
    case Interrupt => true
  }

  function Notified(th: Thread): Thread {
    if th.Waiting? then Waiting(true) else th
  }

  function NotifyWorkers(threads: seq<Thread>): seq<Thread> {
    seq(|threads|, i requires 0 <= i < |threads| => if i == 0 then threads[i] else Notified(threads[i]))
  }

  function NotifyOne(threads: seq<Thread>, t: nat): seq<Thread> {
    if t < |threads| then threads[t := Notified(threads[t])] else threads
  }

  /** How many checks a thread takes: at least one, at most all there are, and no more than the limit. */
  function BatchSize(s: State): (n: nat)
    requires s.total + s.idle + 1 > 0 && s.queue != []
    ensures 1 <= n <= |s.queue| && n <= Max(1, s.batchSize)
  {
    QuoNat(|s.queue|, s.total + s.idle + 1);
    QuoIs(|s.queue|, s.total + s.idle + 1);
    Max(1, Min(s.batchSize, |s.queue| / (s.total + s.idle + 1)))
  }

  /** The batch is the thread's share of the queue: it takes no more unless it takes only one, and takes all of its
      share unless the limit is lower. */
  lemma BatchShare(s: State)
    requires s.total + s.idle + 1 > 0 && s.queue != []
    ensures var n := BatchSize(s); var threads := s.total + s.idle + 1;
      (n == 1 || Mul(n, threads) <= |s.queue|) && (n >= s.batchSize || |s.queue| < Mul(n + 1, threads))
  {
    hide Mul, Quo, Rem;
    var size, threads := |s.queue|, s.total + s.idle + 1;
    QuoIs(size, threads);
    QuoNat(size, threads);
    QuoRem(size, threads);
    var q := size / threads;
    MulSwap(q, threads);
    MulPlus(threads, q, 1);
    MulUnit(threads);
    MulSwap(q + 1, threads);
    var n := BatchSize(s);
    if n <= q {
      MulGrows(threads, n, q);
      MulSwap(n, threads);
    }
    if q + 1 <= n + 1 {
      MulGrows(threads, q + 1, n + 1);
      MulSwap(n + 1, threads);
    }
  }

  /** The last n checks, in the order they are popped. */
  function Popped(queue: seq<Check>, n: nat): seq<Check>
    requires n <= |queue|
  {
    if n == 0 then [] else [queue[|queue| - 1]] + Popped(queue[..|queue| - 1], n - 1)
  }

  predicate Returns(s: State, t: nat) {
    s.queue == [] && (t == 0 || s.quit) && s.todo == 0
  }

  /** The rest of a critical section: take a batch, return, or start to wait. */
  function Continue(s: State, t: nat): State
    requires t < |s.threads| && s.total + s.idle + 1 > 0
  {
    if s.queue != [] then
      var n := BatchSize(s);
      s.(queue := s.queue[..|s.queue| - n], threads := s.threads[t := Working(Popped(s.queue, n), s.allOk)])
    else if Returns(s, t) then
      s.(total := s.total - 1, allOk := t == 0 || s.allOk, threads := s.threads[t := Outside])
    else
      s.(idle := s.idle + 1, threads := s.threads[t := Waiting(false)])
  }

  /** The state in which a step reaches the common part of the critical section. */
  function Before(s: State, step: Step): State
    requires Enabled(s, step) && (step.Enter? || step.Wake? || step.Report?)
  {
    match step
    case Enter(t) => s.(total := s.total + 1, threads := s.threads[t := InSection])
    case Wake(t) => s.(idle := s.idle - 1, threads := s.threads[t := InSection])
    case Report(t) =>
      var th := s.threads[t];
      var todo := s.todo - |th.batch|;
      var threads := s.threads[t := InSection];
      s.(allOk := s.allOk && th.ok, todo := todo,
         threads := if todo == 0 && t != 0 then NotifyOne(threads, 0) else threads)
  }

  /** No counter of a step goes below zero; of them only `todo` is unsigned. */
  predicate Sane(s: State, step: Step)
    requires Enabled(s, step)
  {
    && s.total >= 0 && s.idle >= 0
    && (step.Wake? ==> s.idle > 0)
    && (step.Report? ==> |s.threads[step.t].batch| <= s.todo)
  }

  function Next(s: State, step: Step): State
    requires Enabled(s, step) && Sane(s, step)
  {
    match step
    case Add(checks, who) =>
      s.(queue := s.queue + checks, todo := s.todo + |checks|,
         threads := if |checks| == 1 && who != 0 then NotifyOne(s.threads, who)
                    else if |checks| > 1 then NotifyWorkers(s.threads) else s.threads)
    case Enter(t) => Continue(Before(s, step), t)
    case Wake(t) => Continue(Before(s, step), t)
    case WakeInVain(t) => s.(threads := s.threads[t := Waiting(false)])
    case Execute(t) =>
      var th := s.threads[t];
      s.(threads := s.threads[t := Finished(th.batch, th.ok && AllPass(th.batch))])
    case Report(t) => Continue(Before(s, step), t)
    case Interrupt => s.(quit := true, threads := NotifyOne(NotifyWorkers(s.threads), 0))
  }

  /** What Wait returns, if this step ends it. */
  function WaitResult(s: State, step: Step): Option<bool>
    requires Enabled(s, step)
  {
    if (step.Enter? || step.Wake? || step.Report?) && step.t == 0 && Returns(Before(s, step), 0)
    then Some(Before(s, step).allOk) else None
  }

  /** The checks added since Wait last returned. */
  function NextRound(s: State, step: Step, round: seq<Check>): seq<Check>
    requires Enabled(s, step)
  {
    if step.Add? then round + step.checks else if WaitResult(s, step).Some? then [] else round
  }

  // ---------------------------------------------------------------- counting

  function InFlight(threads: seq<Thread>): nat {
    if threads == [] then 0 else InFlight(threads[..|threads| - 1]) + |threads[|threads| - 1].Batch()|
  }

  function CountInside(threads: seq<Thread>): nat {
    if threads == [] then 0
    else CountInside(threads[..|threads| - 1]) + if threads[|threads| - 1].Outside? then 0 else 1
  }

  function CountWaiting(threads: seq<Thread>): nat {
    if threads == [] then 0
    else CountWaiting(threads[..|threads| - 1]) + if threads[|threads| - 1].Waiting? then 1 else 0
  }

  lemma {:induction false} CountsAfter(threads: seq<Thread>, t: nat, th: Thread)
    requires t < |threads|
    ensures var u := threads[t := th];
      && InFlight(u) == InFlight(threads) - |threads[t].Batch()| + |th.Batch()|
      && CountInside(u) == CountInside(threads)
           - (if threads[t].Outside? then 0 else 1) + (if th.Outside? then 0 else 1)
      && CountWaiting(u) == CountWaiting(threads)
           - (if threads[t].Waiting? then 1 else 0) + (if th.Waiting? then 1 else 0)
  {
    var last := |threads| - 1;
    if t < last {
      CountsAfter(threads[..last], t, th);
      assert threads[t := th][..last] == threads[..last][t := th];
    } else {
      assert threads[t := th][..last] == threads[..last];
    }
  }

  /** Threads that differ only in whether they have been notified count the same. */
  ghost predicate SameButNotified(a: seq<Thread>, b: seq<Thread>) {
    |a| == |b| && forall i :: 0 <= i < |a| ==> a[i] == b[i] || (a[i].Waiting? && b[i].Waiting?)
  }

  lemma {:induction false} CountsSame(a: seq<Thread>, b: seq<Thread>)
    requires SameButNotified(a, b)
    ensures InFlight(a) == InFlight(b) && CountInside(a) == CountInside(b) && CountWaiting(a) == CountWaiting(b)
  {
    if a != [] { CountsSame(a[..|a| - 1], b[..|b| - 1]); }
  }

  // --------------------------------------------------------------- invariant

  ghost predicate Within(checks: seq<Check>, round: seq<Check>) {
    forall i :: 0 <= i < |checks| ==> checks[i] in round
  }

  /** What a thread knows about the checks of the round. */
  ghost predicate ThreadOk(th: Thread, round: seq<Check>) {
    && Within(th.Batch(), round)
    && (th.Working? || th.Finished? ==> |th.batch| > 0 && (!th.ok ==> !AllPass(round)))
    && (th.Finished? && th.ok ==> AllPass(th.batch))
  }

  /** Nothing that could still fail is out of sight: everything not in the queue or in a batch has passed. */
  ghost predicate RestPasses(s: State, round: seq<Check>) {
    s.allOk && AllPass(s.queue) && (forall t :: 0 <= t < |s.threads| ==> AllPass(s.threads[t].Batch())) ==>
      AllPass(round)
  }

  ghost predicate Counted(s: State) {
    && s.total == CountInside(s.threads) && s.idle == CountWaiting(s.threads)
    && s.todo == |s.queue| + InFlight(s.threads)
  }

  /** If the master waits without a notification, what it waits for is not there yet. */
  ghost predicate MasterOk(s: State) {
    |s.threads| > 0 && (s.threads[0] == Waiting(false) ==> !Ready(s, 0))
  }

  ghost predicate ResultsOk(s: State, round: seq<Check>) {
    && Within(s.queue, round)
    && (forall t :: 0 <= t < |s.threads| ==> ThreadOk(s.threads[t], round))
    && (!s.allOk ==> !AllPass(round))
    && RestPasses(s, round)
  }

  ghost predicate Inv(s: State, round: seq<Check>) {
    Counted(s) && MasterOk(s) && ResultsOk(s, round)
  }

  // ------------------------------------------------------ each part keeps it

  lemma {:induction false} BatchInFlight(threads: seq<Thread>, t: nat)
    requires t < |threads|
    ensures |threads[t].Batch()| <= InFlight(threads)
  {
    if t < |threads| - 1 { BatchInFlight(threads[..|threads| - 1], t); }
  }

  lemma NotifySame(threads: seq<Thread>, t: nat)
    ensures SameButNotified(threads, NotifyOne(threads, t)) && SameButNotified(threads, NotifyWorkers(threads))
  {
  }

  /** Notifying anyone changes nothing but flags. */
  lemma NotifiedKeeps(s: State, u: seq<Thread>, round: seq<Check>)
    requires Inv(s, round) && SameButNotified(s.threads, u)
    requires u[0] == s.threads[0] || u[0] == Waiting(true)
    ensures Inv(s.(threads := u), round)
  {
    CountsSame(s.threads, u);
    var m := s.(threads := u);
    forall t | 0 <= t < |u| ensures ThreadOk(u[t], round) && u[t].Batch() == s.threads[t].Batch() {
      assert ThreadOk(s.threads[t], round);
    }
  }

  lemma PassConcat(a: seq<Check>, b: seq<Check>)
    ensures AllPass(a + b) <==> AllPass(a) && AllPass(b)
  {
    if AllPass(a + b) {
      forall i | 0 <= i < |a| ensures a[i].passes { assert (a + b)[i].passes; }
      forall i | 0 <= i < |b| ensures b[i].passes { assert (a + b)[|a| + i].passes; }
    }
  }

  lemma WithinMore(checks: seq<Check>, round: seq<Check>, more: seq<Check>)
    requires Within(checks, round)
    ensures Within(checks, round + more) && Within(checks + more, round + more)
  {
    forall i | 0 <= i < |checks + more| ensures (checks + more)[i] in round + more {}
  }

  lemma ThreadOkMore(th: Thread, round: seq<Check>, more: seq<Check>)
    requires ThreadOk(th, round)
    ensures ThreadOk(th, round + more)
  {
    hide AllPass, Within;
    WithinMore(th.Batch(), round, more);
    PassConcat(round, more);
  }

  lemma AddKeeps(s: State, round: seq<Check>, checks: seq<Check>)
    requires Inv(s, round) && s.threads[0].Outside?
    ensures Inv(s.(queue := s.queue + checks, todo := s.todo + |checks|), round + checks)
  {
    hide AllPass, Within, ThreadOk, InFlight, CountInside, CountWaiting;
    var m := s.(queue := s.queue + checks, todo := s.todo + |checks|);
    PassConcat(round, checks);
    PassConcat(s.queue, checks);
    WithinMore(s.queue, round, checks);
    forall t | 0 <= t < |m.threads| ensures ThreadOk(m.threads[t], round + checks) {
      ThreadOkMore(s.threads[t], round, checks);
    }
  }

  /** A thread may change to any state that knows no more than it should and hides no failure. */
  lemma ThreadChanges(s: State, m: State, round: seq<Check>, t: nat, th: Thread)
    requires ResultsOk(s, round) && t < |s.threads| && m.queue == s.queue && m.threads == s.threads[t := th]
    requires ThreadOk(th, round) && (!m.allOk ==> !AllPass(round)) && (m.allOk ==> s.allOk)
    requires m.allOk && AllPass(th.Batch()) ==> AllPass(s.threads[t].Batch())
    ensures ResultsOk(m, round)
  {
    hide AllPass, Within, ThreadOk;
    if m.allOk && AllPass(m.queue) && (forall x :: 0 <= x < |m.threads| ==> AllPass(m.threads[x].Batch())) {
      assert AllPass(m.threads[t].Batch());
      forall x | 0 <= x < |s.threads| ensures AllPass(s.threads[x].Batch()) {
        if x != t { assert AllPass(m.threads[x].Batch()); }
      }
    }
  }

  lemma ExecuteKeeps(s: State, round: seq<Check>, t: nat)
    requires Inv(s, round) && Enabled(s, Execute(t))
    ensures var th := s.threads[t];
      Inv(s.(threads := s.threads[t := Finished(th.batch, th.ok && AllPass(th.batch))]), round)
  {
    hide AllPass, Within, InFlight, CountInside, CountWaiting, RestPasses;
    var th := s.threads[t];
    var u := Finished(th.batch, th.ok && AllPass(th.batch));
    CountsAfter(s.threads, t, u);
    assert ThreadOk(th, round);
    if !AllPass(th.batch) { FailureShows(th.batch, round); }
    ThreadChanges(s, s.(threads := s.threads[t := u]), round, t, u);
  }

  lemma FailureShows(batch: seq<Check>, round: seq<Check>)
    requires Within(batch, round) && !AllPass(batch)
    ensures !AllPass(round)
  {
    var i :| 0 <= i < |batch| && !batch[i].passes;
    var j :| 0 <= j < |round| && round[j] == batch[i];
  }

  /** Entering the section, with the report if there is one. */
  lemma BeforeKeeps(s: State, round: seq<Check>, step: Step)
    requires Inv(s, round) && Enabled(s, step) && (step.Enter? || step.Wake? || step.Report?)
    ensures Inv(Before(s, step), round) && Before(s, step).threads[step.t].InSection?
    ensures |Before(s, step).threads| == |s.threads|
  {
    hide AllPass, Within, InFlight, CountInside, CountWaiting, RestPasses, ResultsOk;
    var t := step.t;
    var th := s.threads[t];
    var threads := s.threads[t := InSection];
    CountsAfter(s.threads, t, InSection);
    assert ThreadOk(th, round) && ThreadOk(InSection, round) && (!s.allOk ==> !AllPass(round)) by {
      Knows(s, round, t);
    }
    assert AllPass([]) by { NonePass(); }
    var m :=
      if step.Enter? then s.(total := s.total + 1, threads := threads)
      else if step.Wake? then s.(idle := s.idle - 1, threads := threads)
      else s.(allOk := s.allOk && th.ok, todo := s.todo - |th.batch|, threads := threads);
    assert m.allOk ==> AllPass(th.Batch());
    ThreadChanges(s, m, round, t, InSection);
    if step.Report? && m.todo == 0 && t != 0 {
      ReportedKeeps(m, round);
    }
  }

  lemma NonePass()
    ensures AllPass([])
  {
  }

  lemma Knows(s: State, round: seq<Check>, t: nat)
    requires ResultsOk(s, round) && t < |s.threads|
    ensures ThreadOk(s.threads[t], round) && ThreadOk(InSection, round) && ThreadOk(Outside, round)
    ensures ThreadOk(Waiting(false), round) && (!s.allOk ==> !AllPass(round))
  {
  }

  /** The last report may make what the master waits for true, and notifies it. */
  lemma ReportedKeeps(m: State, round: seq<Check>)
    requires Counted(m) && |m.threads| > 0 && ResultsOk(m, round)
    ensures Inv(m.(threads := NotifyOne(m.threads, 0)), round)
  {
    hide AllPass, Within, InFlight, CountInside, CountWaiting;
    var u := NotifyOne(m.threads, 0);
    NotifySame(m.threads, 0);
    CountsSame(m.threads, u);
    forall t | 0 <= t < |u| ensures ThreadOk(u[t], round) && u[t].Batch() == m.threads[t].Batch() {
      assert ThreadOk(m.threads[t], round);
    }
  }

  lemma {:induction false} PoppedPasses(queue: seq<Check>, n: nat, round: seq<Check>)
    requires n <= |queue|
    ensures |Popped(queue, n)| == n
    ensures AllPass(queue) <==> AllPass(queue[..|queue| - n]) && AllPass(Popped(queue, n))
    ensures Within(queue, round) ==> Within(queue[..|queue| - n], round) && Within(Popped(queue, n), round)
  {
    if n > 0 {
      var last := |queue| - 1;
      var front := queue[..last];
      PoppedPasses(front, n - 1, round);
      assert queue == front + [queue[last]] && front[..|front| - (n - 1)] == queue[..|queue| - n];
      PassConcat(front, [queue[last]]);
      PassConcat([queue[last]], Popped(front, n - 1));
    } else {
      assert queue[..|queue|] == queue;
    }
  }

  /** The three ways out of the section. */
  lemma ContinueKeeps(s: State, round: seq<Check>, t: nat)
    requires Inv(s, round) && t < |s.threads| && s.threads[t].InSection?
    ensures s.total + s.idle + 1 > 0
    ensures Inv(Continue(s, t), if t == 0 && Returns(s, t) then [] else round)
  {
    hide AllPass, Within, InFlight, CountInside, CountWaiting, RestPasses, ResultsOk;
    Knows(s, round, t);
    if s.queue != [] {
      TakeKeeps(s, round, t);
    } else if Returns(s, t) {
      CountsAfter(s.threads, t, Outside);
      var m := s.(total := s.total - 1, threads := s.threads[t := Outside]);
      ThreadChanges(s, m, round, t, Outside);
      if t == 0 { NewRound(m, round); }
    } else {
      CountsAfter(s.threads, t, Waiting(false));
      ThreadChanges(s, s.(idle := s.idle + 1, threads := s.threads[t := Waiting(false)]), round, t, Waiting(false));
    }
  }

  lemma TakeKeeps(s: State, round: seq<Check>, t: nat)
    requires Inv(s, round) && t < |s.threads| && s.threads[t].InSection? && s.queue != []
    requires s.total + s.idle + 1 > 0
    ensures Inv(Continue(s, t), round)
  {
    hide AllPass, Within, InFlight, CountInside, CountWaiting, Popped;
    var n := BatchSize(s);
    var th := Working(Popped(s.queue, n), s.allOk);
    PoppedPasses(s.queue, n, round);
    CountsAfter(s.threads, t, th);
    var m := Continue(s, t);
    assert m.queue == s.queue[..|s.queue| - n] && m.threads == s.threads[t := th];
    forall x | 0 <= x < |m.threads| ensures ThreadOk(m.threads[x], round) { assert ThreadOk(s.threads[x], round); }
    if m.allOk && AllPass(m.queue) && (forall x :: 0 <= x < |m.threads| ==> AllPass(m.threads[x].Batch())) {
      assert AllPass(m.threads[t].Batch());
      NonePass();
      forall x | 0 <= x < |s.threads| ensures AllPass(s.threads[x].Batch()) {
        if x != t { assert AllPass(m.threads[x].Batch()); }
      }
    }
  }

  lemma {:induction false} NothingInFlight(threads: seq<Thread>, t: nat)
    requires InFlight(threads) == 0 && t < |threads|
    ensures threads[t].Batch() == []
  {
    BatchInFlight(threads, t);
  }

  /** When the master returns nothing of the round is left anywhere, so the next one starts clean. */
  lemma NewRound(s: State, round: seq<Check>)
    requires Counted(s) && s.todo == 0 && s.threads != [] && s.threads[0].Outside? && ResultsOk(s, round)
    ensures Inv(s.(allOk := true), [])
  {
    forall t | 0 <= t < |s.threads| ensures ThreadOk(s.threads[t], []) {
      NothingInFlight(s.threads, t);
      assert ThreadOk(s.threads[t], round);
    }
  }

  // -------------------------------------------------------------- every run

  lemma {:induction false} WaitingCounted(threads: seq<Thread>, t: nat)
    requires t < |threads| && threads[t].Waiting?
    ensures CountWaiting(threads) > 0
  {
    if t < |threads| - 1 { WaitingCounted(threads[..|threads| - 1], t); }
  }

  /** The counters never stand in the way of a step. */
  lemma AlwaysSane(s: State, round: seq<Check>, step: Step)
    requires Inv(s, round) && Enabled(s, step)
    ensures Sane(s, step)
  {
    if step.Wake? { WaitingCounted(s.threads, step.t); }
    if step.Report? { BatchInFlight(s.threads, step.t); }
  }

  lemma NextKeeps(s: State, round: seq<Check>, step: Step)
    requires Inv(s, round) && Enabled(s, step) && Sane(s, step)
    ensures Inv(Next(s, step), NextRound(s, step, round))
  {
    hide Inv, Continue, AllPass, NotifyWorkers, NotifyOne, Returns;
    match step
    case Add(checks, who) =>
      MasterThere(s, round);
      AddKeeps(s, round, checks);
      var m := s.(queue := s.queue + checks, todo := s.todo + |checks|);
      NotifySame(m.threads, who);
      var u := Next(s, step).threads;
      assert u == m.threads || u == NotifyOne(m.threads, who) || u == NotifyWorkers(m.threads);
      assert u[0] == m.threads[0] by { MasterAside(m.threads, who); }
      if u != m.threads { NotifiedKeeps(m, u, round + checks); }
    case WakeInVain(t) =>
      WakeInVainKeeps(s, round, t);
    case Execute(t) => ExecuteKeeps(s, round, t);
    case Interrupt =>
      QuitKeeps(s, round);
    case _ =>
      BeforeKeeps(s, round, step);
      ContinueKeeps(Before(s, step), round, step.t);
  }

  lemma MasterThere(s: State, round: seq<Check>)
    requires Inv(s, round)
    ensures |s.threads| > 0
  {
  }

  lemma MasterAside(threads: seq<Thread>, who: nat)
    requires |threads| > 0
    ensures NotifyWorkers(threads)[0] == threads[0]
    ensures who != 0 ==> NotifyOne(threads, who)[0] == threads[0]
    ensures NotifyOne(NotifyWorkers(threads), 0)[0] == Notified(threads[0])
  {
  }

  lemma WakeInVainKeeps(s: State, round: seq<Check>, t: nat)
    requires Inv(s, round) && Enabled(s, WakeInVain(t))
    ensures Inv(s.(threads := s.threads[t := Waiting(false)]), round)
  {
    hide AllPass, InFlight, CountInside, CountWaiting, RestPasses, ResultsOk;
    Knows(s, round, t);
    CountsAfter(s.threads, t, Waiting(false));
    ThreadChanges(s, s.(threads := s.threads[t := Waiting(false)]), round, t, Waiting(false));
  }

  lemma QuitKeeps(s: State, round: seq<Check>)
    requires Inv(s, round)
    ensures Inv(s.(quit := true, threads := NotifyOne(NotifyWorkers(s.threads), 0)), round)
  {
    hide AllPass, InFlight, CountInside, CountWaiting;
    var m := s.(quit := true);
    var u := NotifyOne(NotifyWorkers(s.threads), 0);
    assert Inv(m, round);
    MasterAside(s.threads, 0);
    assert SameButNotified(s.threads, u);
    NotifiedKeeps(m, u, round);
  }

  ghost predicate IsRun(states: seq<State>, steps: seq<Step>) {
    && |states| == |steps| + 1
    && (forall i :: 0 <= i < |steps| ==>
          Enabled(states[i], steps[i]) && (Sane(states[i], steps[i]) ==> states[i + 1] == Next(states[i], steps[i])))
  }

  /** A queue that has just been created, with its threads outside. */
  function Start(batchSize: nat, n: nat): State {
    State([], 0, 0, true, 0, false, batchSize, seq(n + 1, _ => Outside))
  }

  /** The checks of the current round before step n. */
  ghost function RoundAt(states: seq<State>, steps: seq<Step>, n: nat): seq<Check>
    requires IsRun(states, steps) && n <= |steps|
  {
    if n == 0 then [] else NextRound(states[n - 1], steps[n - 1], RoundAt(states, steps, n - 1))
  }

  lemma {:induction false} OutsideCounts(threads: seq<Thread>)
    requires forall i :: 0 <= i < |threads| ==> threads[i].Outside?
    ensures InFlight(threads) == 0 && CountInside(threads) == 0 && CountWaiting(threads) == 0
  {
    if threads != [] { OutsideCounts(threads[..|threads| - 1]); }
  }

  /** Every state of every interleaving satisfies the invariant. */
  lemma {:induction false} RunKeeps(states: seq<State>, steps: seq<Step>, batchSize: nat, workers: nat, n: nat)
    requires IsRun(states, steps) && states[0] == Start(batchSize, workers) && n <= |steps|
    ensures Inv(states[n], RoundAt(states, steps, n)) && Settled(states[n])
  {
    if n == 0 {
      OutsideCounts(states[0].threads);
    } else {
      hide Inv, Next, NextRound, Settled;
      RunKeeps(states, steps, batchSize, workers, n - 1);
      AlwaysSane(states[n - 1], RoundAt(states, steps, n - 1), steps[n - 1]);
      NextKeeps(states[n - 1], RoundAt(states, steps, n - 1), steps[n - 1]);
      NextSettled(states[n - 1], RoundAt(states, steps, n - 1), steps[n - 1]);
    }
  }

  /** Wait returns true exactly when every check added in its round passes, whichever thread evaluated it and even
      when a failure made some of them be skipped. */
  lemma WaitIsRight(states: seq<State>, steps: seq<Step>, batchSize: nat, workers: nat, n: nat)
    requires IsRun(states, steps) && states[0] == Start(batchSize, workers) && n < |steps|
    requires WaitResult(states[n], steps[n]).Some?
    ensures WaitResult(states[n], steps[n]).value <==> AllPass(RoundAt(states, steps, n))
  {
    hide AllPass, Before;
    RunKeeps(states, steps, batchSize, workers, n);
    var round := RoundAt(states, steps, n);
    BeforeKeeps(states[n], round, steps[n]);
    ResultIsRight(Before(states[n], steps[n]), round);
  }

  lemma ResultIsRight(s: State, round: seq<Check>)
    requires Inv(s, round) && s.queue == [] && s.todo == 0
    ensures s.allOk <==> AllPass(round)
  {
    forall t | 0 <= t < |s.threads| ensures AllPass(s.threads[t].Batch()) { NothingInFlight(s.threads, t); }
  }

  // -------------------------------------------------- between rounds, progress

  predicate IsIdle(s: State) {
    s.total == s.idle && s.todo == 0 && s.allOk
  }

  lemma {:induction false} AllWait(threads: seq<Thread>)
    requires InFlight(threads) == 0
    requires forall i :: 0 <= i < |threads| ==>
      && !threads[i].InSection?
      && (threads[i].Working? || threads[i].Finished? ==> |threads[i].batch| > 0)
    ensures CountInside(threads) == CountWaiting(threads)
  {
    if threads != [] {
      var last := threads[|threads| - 1];
      assert |last.Batch()| == 0;
      AllWait(threads[..|threads| - 1]);
    }
  }

  ghost predicate Settled(s: State) {
    forall t :: 0 <= t < |s.threads| ==> !s.threads[t].InSection?
  }

  /** Between rounds the queue is idle, which is what CCheckQueueControl asserts when it is created: Wait leaves
      nothing behind, and workers that come or go change nothing. */
  lemma IdleBetweenRounds(s: State)
    requires Inv(s, []) && Settled(s)
    ensures IsIdle(s)
  {
    if s.queue != [] { NotWithin(s.queue); }
    forall t | 0 <= t < |s.threads| ensures s.threads[t].Batch() == [] {
      assert ThreadOk(s.threads[t], []);
      if s.threads[t].Batch() != [] { NotWithin(s.threads[t].Batch()); }
    }
    NoneInFlight(s.threads);
    forall t | 0 <= t < |s.threads|
      ensures s.threads[t].Working? || s.threads[t].Finished? ==> |s.threads[t].batch| > 0
    {
      assert ThreadOk(s.threads[t], []);
    }
    AllWait(s.threads);
  }

  lemma NotWithin(checks: seq<Check>)
    requires checks != []
    ensures !Within(checks, [])
  {
    var none: seq<Check> := [];
    assert checks[0] !in none;
  }

  lemma {:induction false} NoneInFlight(threads: seq<Thread>)
    requires forall t :: 0 <= t < |threads| ==> threads[t].Batch() == []
    ensures InFlight(threads) == 0
  {
    if threads != [] { NoneInFlight(threads[..|threads| - 1]); }
  }

  lemma {:induction false} SomeBatch(threads: seq<Thread>) returns (t: nat)
    requires InFlight(threads) > 0
    ensures t < |threads| && threads[t].Batch() != []
  {
    var last := |threads| - 1;
    if threads[last].Batch() != [] { t := last; } else { t := SomeBatch(threads[..last]); }
  }

  /** A Wait that has not returned is never stuck: the master can go on, or it waits while another thread holds a
      batch, or it has been notified. */
  lemma NeverStuck(s: State, round: seq<Check>)
    requires Inv(s, round) && Settled(s) && !s.threads[0].Outside?
    ensures || s.threads[0] == Waiting(true)
            || exists t :: 0 <= t < |s.threads| && (s.threads[t].Working? || s.threads[t].Finished?)
  {
    if s.threads[0] == Waiting(false) {
      assert !Ready(s, 0);
      var t := SomeBatch(s.threads);
      assert s.threads[t].Working? || s.threads[t].Finished?;
    } else if !s.threads[0].Waiting? {
      assert s.threads[0].Working? || s.threads[0].Finished?;
    }
  }

  lemma NextSettled(s: State, round: seq<Check>, step: Step)
    requires Inv(s, round) && Settled(s) && Enabled(s, step) && Sane(s, step)
    ensures Settled(Next(s, step))
  {
    hide Inv, AllPass, Popped;
  }

  /** So in every run the queue is idle whenever nothing has been added since Wait last returned. */
  lemma IdleInRuns(states: seq<State>, steps: seq<Step>, batchSize: nat, workers: nat, n: nat)
    requires IsRun(states, steps) && states[0] == Start(batchSize, workers) && n <= |steps|
    requires RoundAt(states, steps, n) == []
    ensures IsIdle(states[n])
  {
    hide Inv, Settled, RoundAt;
    RunKeeps(states, steps, batchSize, workers, n);
    IdleBetweenRounds(states[n]);
  }

  // ----------------------------------------------- the loops inside the steps

  /** Evaluating a batch stops calling checks at the first failure, or never starts if one is known already. */
  method EvaluateBatch(batch: seq<Check>, known: bool) returns (ok: bool)
    ensures ok <==> known && AllPass(batch)
  {
    ok := known;
    for i := 0 to |batch|
      invariant ok <==> known && AllPass(batch[..i])
    {
      PassConcat(batch[..i], [batch[i]]);
      assert batch[..i + 1] == batch[..i] + [batch[i]];
      if ok {
        ok := batch[i].passes;
      }
    }
    assert batch[..|batch|] == batch;
  }

  /** Swapping checks off the end of the queue into the batch. */
  method TakeBatch(queue: seq<Check>, n: nat) returns (batch: seq<Check>, rest: seq<Check>)
    requires n <= |queue|
    ensures batch == Popped(queue, n) && rest == queue[..|queue| - n]
  {
    batch, rest := [], queue;
    for i := 0 to n
      invariant rest == queue[..|queue| - i] && batch + Popped(rest, n - i) == Popped(queue, n)
    {
      var last := rest[|rest| - 1];
      assert Popped(rest, n - i) == [last] + Popped(rest[..|rest| - 1], n - i - 1);
      batch, rest := batch + [last], rest[..|rest| - 1];
    }
  }
}
