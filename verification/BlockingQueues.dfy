/**
  `BlockingQueue`: a bounded queue that can be closed, guarded by one mutex and two condition
  variables.  A step is what one thread does while it holds the mutex: from its call, or from
  waking up, to the next wait or to the return.  Between steps a sleeping thread may also wake up
  spuriously.
 */
module BlockingQueues {
  import opened Basics

  type ThreadId = nat

  /**
    `pushSleep`, `popSleep` and `closeSleep` hold the threads asleep in `wait`; the `Awake` fields
    hold those that have woken up and wait for the mutex.  Consumers wait on `m_haveData`,
    producers and closers on `m_haveSpace`.  `accepted` and `taken` record the values pushed and
    popped so far; no step reads them.
   */
  datatype State<T> = State(
    cap: nat,
    queue: seq<T>,
    closed: bool,
    pushSleep: map<ThreadId, T>,
    pushAwake: map<ThreadId, T>,
    popSleep: set<ThreadId>,
    popAwake: set<ThreadId>,
    closeSleep: set<ThreadId>,
    closeAwake: set<ThreadId>,
    accepted: seq<T>,
    taken: seq<T>)

  datatype Step<T> =
    | Push(t: ThreadId, v: T, wake: Option<ThreadId>)
    | PushResumes(t: ThreadId, wake: Option<ThreadId>)
    | Pop(t: ThreadId, wake: Option<ThreadId>)
    | PopResumes(t: ThreadId, wake: Option<ThreadId>)
    | Close(t: ThreadId, wait: bool)
    | CloseResumes(t: ThreadId)
    | Spurious(t: ThreadId)

  /** How a step ends: in `wait`, or by returning. */
  datatype Outcome<T> = Waits | Pushed | Refused | Popped(v: T) | Drained | Closed | WokeUp

  function Waiting<T>(s: State<T>): set<ThreadId> {
    s.pushSleep.Keys + s.pushAwake.Keys + s.popSleep + s.popAwake + s.closeSleep + s.closeAwake
  }

  /** `notify_one` wakes some sleeper if there is one. */
  predicate Wakes(sleepers: set<ThreadId>, wake: Option<ThreadId>) {
    if wake.None? then sleepers == {} else wake.value in sleepers
  }

  function WakeData<T>(s: State<T>, wake: Option<ThreadId>): State<T> {
    if wake.None? then s
    else s.(popSleep := s.popSleep - {wake.value}, popAwake := s.popAwake + {wake.value})
  }

  function WakeSpace<T>(s: State<T>, wake: Option<ThreadId>): State<T> {
    if wake.None? then s
    else if wake.value in s.pushSleep then
      s.(pushSleep := s.pushSleep - {wake.value},
         pushAwake := s.pushAwake[wake.value := s.pushSleep[wake.value]])
    else
      s.(closeSleep := s.closeSleep - {wake.value}, closeAwake := s.closeAwake + {wake.value})
  }

  function WakeAllData<T>(s: State<T>): State<T> {
    s.(popSleep := {}, popAwake := s.popAwake + s.popSleep)
  }

  function WakeAllSpace<T>(s: State<T>): State<T> {
    s.(pushSleep := map[], pushAwake := s.pushAwake + s.pushSleep,
       closeSleep := {}, closeAwake := s.closeAwake + s.closeSleep)
  }

  // A thread that got the mutex back is no longer waiting.

  function PushResumed<T>(s: State<T>, t: ThreadId): State<T> {
    s.(pushAwake := s.pushAwake - {t})
  }

  function PopResumed<T>(s: State<T>, t: ThreadId): State<T> {
    s.(popAwake := s.popAwake - {t})
  }

  function CloseResumed<T>(s: State<T>, t: ThreadId): State<T> {
    s.(closeAwake := s.closeAwake - {t})
  }

  predicate Full<T>(s: State<T>) {
    |s.queue| >= s.cap
  }

  function PushHeld<T>(s: State<T>, t: ThreadId, v: T, wake: Option<ThreadId>): (State<T>, Outcome<T>) {
    if !s.closed && Full(s) then (s.(pushSleep := s.pushSleep[t := v]), Waits)
    else if s.closed then (s, Refused)
    else (WakeData(s.(queue := s.queue + [v], accepted := s.accepted + [v]), wake), Pushed)
  }

  function PopHeld<T>(s: State<T>, t: ThreadId, wake: Option<ThreadId>): (State<T>, Outcome<T>) {
    if s.queue == [] then
      (if s.closed then (s, Drained) else (s.(popSleep := s.popSleep + {t}), Waits))
    else
      var s1 := s.(queue := s.queue[1..], taken := s.taken + [s.queue[0]]);
      (if s1.closed && s1.queue == [] then WakeAllSpace(s1) else WakeSpace(s1, wake), Popped(s.queue[0]))
  }

  /** The wait loop of `close(true)`. */
  function CloseLoop<T>(s: State<T>, t: ThreadId): (State<T>, Outcome<T>) {
    if s.queue != [] then (s.(closeSleep := s.closeSleep + {t}), Waits) else (s, Closed)
  }

  function CloseHeld<T>(s: State<T>, t: ThreadId, wait: bool): (State<T>, Outcome<T>) {
    var s1 := WakeAllSpace(WakeAllData(s.(closed := true)));
    if wait then CloseLoop(s1, t) else (s1, Closed)
  }

  predicate Enabled<T>(s: State<T>, step: Step<T>) {
    match step
    case Push(t, _, wake) => t !in Waiting(s) && Wakes(s.popSleep, wake)
    case PushResumes(t, wake) => t in s.pushAwake && Wakes(s.popSleep, wake)
    case Pop(t, wake) => t !in Waiting(s) && Wakes(s.pushSleep.Keys + s.closeSleep, wake)
    case PopResumes(t, wake) => t in s.popAwake && Wakes(s.pushSleep.Keys + s.closeSleep, wake)
    case Close(t, _) => t !in Waiting(s)
    case CloseResumes(t) => t in s.closeAwake
    case Spurious(t) => t in s.popSleep || t in s.pushSleep || t in s.closeSleep
  }

  function Apply<T>(s: State<T>, step: Step<T>): (State<T>, Outcome<T>)
    requires Enabled(s, step)
  {
    match step
    case Push(t, v, wake) => PushHeld(s, t, v, wake)
    case PushResumes(t, wake) => PushHeld(PushResumed(s, t), t, s.pushAwake[t], wake)
    case Pop(t, wake) => PopHeld(s, t, wake)
    case PopResumes(t, wake) => PopHeld(PopResumed(s, t), t, wake)
    case Close(t, wait) => CloseHeld(s, t, wait)
    case CloseResumes(t) => CloseLoop(CloseResumed(s, t), t)
    case Spurious(t) =>
      (if t in s.popSleep then WakeData(s, Some(t)) else WakeSpace(s, Some(t)), WokeUp)
  }

  // ----- invariants -----

  /** No thread is both asleep and awake in the same call. */
  ghost predicate Separate<T>(s: State<T>) {
    s.pushSleep.Keys !! s.pushAwake.Keys && s.popSleep !! s.popAwake && s.closeSleep !! s.closeAwake
  }

  /** First in, first out, within capacity. */
  ghost predicate Ordered<T>(s: State<T>) {
    s.taken + s.queue == s.accepted && |s.queue| <= s.cap
  }

  /** Enough consumers are awake for the data and enough producers for the space, up to the given slack. */
  ghost predicate AwakeEnough<T>(s: State<T>, consumers: nat, producers: nat) {
    && (s.popSleep != {} ==> |s.queue| <= |s.popAwake| + consumers)
    && (!s.closed && s.pushSleep != map[] ==> s.cap - |s.queue| <= |s.pushAwake| + producers)
  }

  /** Only closers wait on a closed queue, and only while it holds data. */
  ghost predicate CloseWakes<T>(s: State<T>) {
    && (s.closed ==> s.popSleep == {} && s.pushSleep == map[])
    && (s.closeSleep != {} ==> s.closed && s.queue != [])
    && (s.closeAwake != {} ==> s.closed)
  }

  ghost predicate Inv<T>(s: State<T>) {
    Separate(s) && Ordered(s) && AwakeEnough(s, 0, 0) && CloseWakes(s)
  }

  lemma PushKeepsInv<T>(s: State<T>, t: ThreadId, v: T, wake: Option<ThreadId>)
    requires Separate(s) && Ordered(s) && CloseWakes(s) && AwakeEnough(s, 0, 1)
    requires t !in s.pushAwake && Wakes(s.popSleep, wake)
    ensures Inv(PushHeld(s, t, v, wake).0)
  {
    if !s.closed && !Full(s) {
      assert s.taken + (s.queue + [v]) == s.accepted + [v];
    }
  }

  lemma WakeSpaceKeepsInv<T>(s: State<T>, wake: Option<ThreadId>)
    requires Separate(s) && Ordered(s) && CloseWakes(s) && AwakeEnough(s, 0, 1)
    requires Wakes(s.pushSleep.Keys + s.closeSleep, wake)
    ensures Inv(WakeSpace(s, wake))
  {
    if wake.Some? && wake.value in s.pushSleep {
      var s' := WakeSpace(s, wake);
      assert s'.pushSleep.Keys == s.pushSleep.Keys - {wake.value};
      assert s'.pushAwake.Keys == s.pushAwake.Keys + {wake.value};
    } else {
      assert s.pushSleep != map[] ==> wake.Some?;
    }
  }

  lemma WakeAllSpaceKeepsInv<T>(s: State<T>)
    requires Separate(s) && Ordered(s) && AwakeEnough(s, 0, 1)
    requires s.closed && s.popSleep == {}
    ensures Inv(WakeAllSpace(s))
  {
    var s' := WakeAllSpace(s);
    assert s'.pushAwake.Keys == s.pushAwake.Keys + s.pushSleep.Keys;
  }

  lemma TakeKeeps<T>(s: State<T>)
    requires Ordered(s) && AwakeEnough(s, 1, 0) && s.queue != []
    ensures var s1 := s.(queue := s.queue[1..], taken := s.taken + [s.queue[0]]);
            Ordered(s1) && AwakeEnough(s1, 0, 1)
  {
    assert s.taken + [s.queue[0]] + s.queue[1..] == s.taken + s.queue;
  }

  lemma PopKeepsInv<T>(s: State<T>, t: ThreadId, wake: Option<ThreadId>)
    requires Separate(s) && Ordered(s) && CloseWakes(s) && AwakeEnough(s, 1, 0)
    requires t !in s.popAwake && Wakes(s.pushSleep.Keys + s.closeSleep, wake)
    ensures Inv(PopHeld(s, t, wake).0)
  {
    if s.queue != [] {
      TakeKeeps(s);
      var s1 := s.(queue := s.queue[1..], taken := s.taken + [s.queue[0]]);
      if s1.closed && s1.queue == [] {
        WakeAllSpaceKeepsInv(s1);
      } else {
        WakeSpaceKeepsInv(s1, wake);
      }
    }
  }

  lemma CloseKeepsInv<T>(s: State<T>, t: ThreadId, wait: bool)
    requires Inv(s) && t !in Waiting(s)
    ensures Inv(CloseHeld(s, t, wait).0)
  {
    var s1 := WakeAllData(s.(closed := true));
    WakeAllSpaceKeepsInv(s1);
  }

  lemma SpuriousKeepsInv<T>(s: State<T>, t: ThreadId)
    requires Inv(s) && Enabled(s, Spurious(t))
    ensures Inv(Apply(s, Spurious(t)).0)
  {
    if t !in s.popSleep {
      WakeSpaceKeepsInv(s, Some(t));
    }
  }

  lemma CallKeepsInv<T>(s: State<T>, step: Step<T>)
    requires Enabled(s, step) && Inv(s) && (step.Push? || step.Pop? || step.Close?)
    ensures Inv(Apply(s, step).0)
  {
    if step.Push? {
      PushKeepsInv(s, step.t, step.v, step.wake);
    } else if step.Pop? {
      PopKeepsInv(s, step.t, step.wake);
    } else {
      CloseKeepsInv(s, step.t, step.wait);
    }
  }

  lemma PushResumesKeepsInv<T>(s: State<T>, t: ThreadId, wake: Option<ThreadId>)
    requires Enabled(s, PushResumes(t, wake)) && Inv(s)
    ensures Inv(Apply(s, PushResumes(t, wake)).0)
  {
    var r := PushResumed(s, t);
    assert r.pushAwake.Keys == s.pushAwake.Keys - {t};
    assert |s.pushAwake.Keys| == |r.pushAwake.Keys| + 1;
    PushKeepsInv(r, t, s.pushAwake[t], wake);
  }

  lemma PopResumesKeepsInv<T>(s: State<T>, t: ThreadId, wake: Option<ThreadId>)
    requires Enabled(s, PopResumes(t, wake)) && Inv(s)
    ensures Inv(Apply(s, PopResumes(t, wake)).0)
  {
    PopKeepsInv(PopResumed(s, t), t, wake);
  }

  lemma StepKeepsInv<T>(s: State<T>, step: Step<T>)
    requires Enabled(s, step) && Inv(s)
    ensures Inv(Apply(s, step).0)
  {
    match step
    case PushResumes(t, wake) => PushResumesKeepsInv(s, t, wake);
    case PopResumes(t, wake) => PopResumesKeepsInv(s, t, wake);
    case CloseResumes(t) =>
    case Spurious(t) => SpuriousKeepsInv(s, t);
    case _ => CallKeepsInv(s, step);
  }

  lemma StepKeepsCap<T>(s: State<T>, step: Step<T>)
    requires Enabled(s, step)
    ensures Apply(s, step).0.cap == s.cap
  {
  }

  // ----- whole runs -----

  predicate Next<T(==)>(s: State<T>, step: Step<T>, s': State<T>) {
    Enabled(s, step) && s' == Apply(s, step).0
  }

  datatype Run<T> = Run(states: seq<State<T>>, steps: seq<Step<T>>)

  predicate Init<T>(s: State<T>) {
    s == State(s.cap, [], false, map[], map[], {}, {}, {}, {}, [], [])
  }

  ghost predicate IsRun<T>(run: Run<T>) {
    && |run.states| == |run.steps| + 1
    && Init(run.states[0])
    && forall i :: 0 <= i < |run.steps| ==> Next(run.states[i], run.steps[i], run.states[i + 1])
  }

  lemma {:induction false} RunKeepsInv<T>(run: Run<T>, n: nat)
    requires IsRun(run) && n < |run.states|
    ensures Inv(run.states[n]) && run.states[n].cap == run.states[0].cap
  {
    if n > 0 {
      RunKeepsInv(run, n - 1);
      var s, step, s' := run.states[n - 1], run.steps[n - 1], run.states[n];
      assert Next(s, step, s');
      StepKeepsInv(s, step);
      StepKeepsCap(s, step);
    }
  }

  /** In every run values come out in the order they went in, and the queue never exceeds its capacity. */
  lemma FirstInFirstOut<T>(run: Run<T>, n: nat)
    requires IsRun(run) && n < |run.states|
    ensures run.states[n].taken + run.states[n].queue == run.states[n].accepted
    ensures |run.states[n].queue| <= run.states[0].cap
  {
    RunKeepsInv(run, n);
  }

  /** Nobody holds the mutex or is about to take it back. */
  predicate AllAsleep<T>(s: State<T>) {
    s.pushAwake == map[] && s.popAwake == {} && s.closeAwake == {}
  }

  /**
    If every thread inside the queue is asleep, then what it waits for is truly absent: on an open
    queue producers wait only for a full queue and consumers only for an empty one, never both
    unless the capacity is zero; on a closed queue only closers wait, for data not yet popped.
   */
  lemma SleepIsJustified<T>(run: Run<T>, n: nat)
    requires IsRun(run) && n < |run.states| && AllAsleep(run.states[n])
    ensures var s := run.states[n];
            && (s.pushSleep != map[] ==> !s.closed && |s.queue| == s.cap)
            && (s.popSleep != {} ==> !s.closed && s.queue == [])
            && (s.pushSleep != map[] && s.popSleep != {} ==> s.cap == 0)
            && (s.closeSleep != {} ==> s.closed && s.queue != [] && s.popSleep == {} && s.pushSleep == map[])
  {
    RunKeepsInv(run, n);
  }

  /** The wake-up counts that hold in every reachable state. */
  lemma NoLostWakeUp<T>(run: Run<T>, n: nat)
    requires IsRun(run) && n < |run.states|
    ensures var s := run.states[n];
            && (s.popSleep != {} ==> |s.queue| <= |s.popAwake|)
            && (!s.closed && s.pushSleep != map[] ==> s.cap - |s.queue| <= |s.pushAwake|)
            && (s.closed ==> s.popSleep == {} && s.pushSleep == map[])
            && (s.closeSleep != {} ==> s.closed && s.queue != [])
  {
    RunKeepsInv(run, n);
  }

  lemma StepKeepsClosed<T>(s: State<T>, step: Step<T>)
    requires Enabled(s, step) && s.closed
    ensures Apply(s, step).0.closed && Apply(s, step).0.accepted == s.accepted
  {
  }

  lemma NextKeepsClosed<T>(s: State<T>, step: Step<T>, s': State<T>)
    requires Next(s, step, s') && s.closed
    ensures s'.closed && s'.accepted == s.accepted
  {
    StepKeepsClosed(s, step);
  }

  lemma StaysClosed<T>(run: Run<T>, n: nat)
    requires IsRun(run) && n < |run.steps| && run.states[n].closed
    ensures run.states[n + 1].closed && run.states[n + 1].accepted == run.states[n].accepted
  {
    NextKeepsClosed(run.states[n], run.steps[n], run.states[n + 1]);
  }

  /** Closed states stay closed and accept nothing more. */
  ghost predicate Persist<T>(states: seq<State<T>>) {
    forall k :: 0 <= k < |states| - 1 && states[k].closed ==>
      states[k + 1].closed && states[k + 1].accepted == states[k].accepted
  }

  lemma ClosedPersists<T>(run: Run<T>)
    requires IsRun(run)
    ensures Persist(run.states)
  {
    forall k | 0 <= k < |run.states| - 1 && run.states[k].closed
      ensures run.states[k + 1].closed && run.states[k + 1].accepted == run.states[k].accepted
    {
      StaysClosed(run, k);
    }
  }

  lemma {:induction false} PersistsTo<T>(states: seq<State<T>>, i: nat, n: nat)
    requires Persist(states) && i <= n < |states| && states[i].closed
    ensures states[n].closed && states[n].accepted == states[i].accepted
    decreases n
  {
    if i < n {
      PersistsTo(states, i, n - 1);
    }
  }

  lemma ClosedForGood<T>(run: Run<T>, i: nat, n: nat)
    requires IsRun(run) && i <= n < |run.states| && run.states[i].closed
    ensures run.states[n].closed && run.states[n].accepted == run.states[i].accepted
  {
    ClosedPersists(run);
    PersistsTo(run.states, i, n);
  }

  /** How the n-th step of a run ended. */
  function Result<T>(s: State<T>, step: Step<T>): Outcome<T> {
    if Enabled(s, step) then Apply(s, step).1 else Waits
  }

  /** The value a push step carries. */
  function Carried<T>(s: State<T>, step: Step<T>): Option<T> {
    if step.Push? then Some(step.v)
    else if step.PushResumes? && step.t in s.pushAwake then Some(s.pushAwake[step.t])
    else None
  }

  /** `push` returns true exactly when its value joined the queue, and never after a `close`. */
  lemma PushReturns<T>(run: Run<T>, n: nat)
    requires IsRun(run) && n < |run.steps| && (run.steps[n].Push? || run.steps[n].PushResumes?)
    ensures var s, s', r := run.states[n], run.states[n + 1], Result(run.states[n], run.steps[n]);
            && (r.Pushed? ==>
                  Carried(s, run.steps[n]).Some? && s'.accepted == s.accepted + [Carried(s, run.steps[n]).value])
            && (!r.Pushed? ==> s'.accepted == s.accepted)
            && (r.Refused? ==> s.closed)
            && (r.Pushed? ==> forall i :: 0 <= i < n ==> !run.steps[i].Close?)
  {
    assert Next(run.states[n], run.steps[n], run.states[n + 1]);
    forall i | 0 <= i < n && run.steps[i].Close?
      ensures run.states[n].closed
    {
      assert Next(run.states[i], run.steps[i], run.states[i + 1]);
      ClosedForGood(run, i + 1, n);
    }
  }

  lemma PopHeldTakes<T>(s: State<T>, t: ThreadId, wake: Option<ThreadId>)
    requires s.taken + s.queue == s.accepted
    ensures var (s', r) := PopHeld(s, t, wake);
            && (r.Popped? ==> s'.taken == s.taken + [r.v] && s'.taken <= s.accepted)
            && (r.Drained? ==> s.closed && s.taken == s.accepted)
            && (!r.Popped? ==> s'.taken == s.taken)
  {
    if s.queue != [] {
      assert s.taken + s.queue == s.taken + [s.queue[0]] + s.queue[1..];
    }
  }

  /** `pop` returns the oldest value not yet taken, and returns false only when closed and drained. */
  lemma PopReturns<T>(run: Run<T>, n: nat)
    requires IsRun(run) && n < |run.steps| && (run.steps[n].Pop? || run.steps[n].PopResumes?)
    ensures var s, s', r := run.states[n], run.states[n + 1], Result(run.states[n], run.steps[n]);
            && (r.Popped? ==> s'.taken == s.taken + [r.v] && s'.taken <= s.accepted)
            && (r.Drained? ==> s.closed && s.taken == s.accepted)
            && (!r.Popped? ==> s'.taken == s.taken)
  {
    RunKeepsInv(run, n);
    var s, step := run.states[n], run.steps[n];
    assert Next(s, step, run.states[n + 1]);
    PopHeldTakes(if step.Pop? then s else PopResumed(s, step.t), step.t, step.wake);
  }

  /** `close(true)` returns only when everything pushed has been popped. */
  lemma CloseReturns<T>(run: Run<T>, n: nat)
    requires IsRun(run) && n < |run.steps|
    requires run.steps[n].CloseResumes? || (run.steps[n].Close? && run.steps[n].wait)
    requires Result(run.states[n], run.steps[n]).Closed?
    ensures run.states[n + 1].closed && run.states[n + 1].taken == run.states[n + 1].accepted
  {
    RunKeepsInv(run, n);
    assert Next(run.states[n], run.steps[n], run.states[n + 1]);
    assert run.states[n].queue == [];
    assert run.states[n].closeAwake != {} ==> run.states[n].closed;
  }

  // ----- how every call ends -----

  ghost predicate ClosedBefore<T>(run: Run<T>, n: nat) {
    exists i :: 0 <= i < n && i < |run.steps| && run.steps[i].Close?
  }

  lemma NextCloses<T>(s: State<T>, step: Step<T>, s': State<T>)
    requires Next(s, step, s')
    ensures s'.closed <==> s.closed || step.Close?
  {
  }

  /** Nothing but a call of `close` closes the queue. */
  lemma {:induction false} ClosedIff<T>(run: Run<T>, n: nat)
    requires IsRun(run) && n < |run.states|
    ensures run.states[n].closed <==> ClosedBefore(run, n)
  {
    if n > 0 {
      ClosedIff(run, n - 1);
      NextCloses(run.states[n - 1], run.steps[n - 1], run.states[n]);
    }
  }

  /**
    How a step has to end, told by the history alone: the values accepted and taken so far, and whether `close` was
    called.  A thread waits only for space, for data, or in `close(true)` for the last value to be taken.
   */
  function Due<T(==)>(cap: nat, closed: bool, accepted: seq<T>, taken: seq<T>, step: Step<T>): Outcome<T> {
    match step
    case Push(_, _, _) => DuePush(cap, closed, accepted, taken)
    case PushResumes(_, _) => DuePush(cap, closed, accepted, taken)
    case Pop(_, _) => DuePop(closed, accepted, taken)
    case PopResumes(_, _) => DuePop(closed, accepted, taken)
    case Close(_, wait) => if wait && taken != accepted then Waits else Closed
    case CloseResumes(_) => if taken != accepted then Waits else Closed
    case Spurious(_) => WokeUp
  }

  function DuePush<T>(cap: nat, closed: bool, accepted: seq<T>, taken: seq<T>): Outcome<T> {
    if closed then Refused else if |accepted| == |taken| + cap then Waits else Pushed
  }

  function DuePop<T>(closed: bool, accepted: seq<T>, taken: seq<T>): Outcome<T> {
    if |taken| < |accepted| then Popped(accepted[|taken|]) else if closed then Drained else Waits
  }

  lemma StepIsDue<T>(s: State<T>, step: Step<T>)
    requires Enabled(s, step) && Ordered(s)
    ensures Apply(s, step).1 == Due(s.cap, s.closed, s.accepted, s.taken, step)
  {
    assert s.queue == s.accepted[|s.taken|..];
    assert s.taken == s.accepted <==> s.queue == [];
  }

  /** Every step of every run ends as its history says. */
  lemma EveryStepIsDue<T>(run: Run<T>, n: nat)
    requires IsRun(run) && n < |run.steps|
    ensures var s := run.states[n];
            Result(s, run.steps[n]) == Due(run.states[0].cap, ClosedBefore(run, n), s.accepted, s.taken, run.steps[n])
  {
    RunKeepsInv(run, n);
    ClosedIff(run, n);
    assert Next(run.states[n], run.steps[n], run.states[n + 1]);
    StepIsDue(run.states[n], run.steps[n]);
  }

  /** A call that does not wait leaves its thread outside the queue; `close(false)` never waits. */
  lemma CallLeaves<T>(run: Run<T>, n: nat)
    requires IsRun(run) && n < |run.steps| && (run.steps[n].Push? || run.steps[n].Pop? || run.steps[n].Close?)
    ensures run.steps[n].t in Waiting(run.states[n + 1]) <==> Result(run.states[n], run.steps[n]).Waits?
    ensures run.steps[n].Close? && !run.steps[n].wait ==> run.steps[n].t !in Waiting(run.states[n + 1])
  {
    assert Next(run.states[n], run.steps[n], run.states[n + 1]);
  }

  // ----- a run that comes to rest -----

  function Last<T>(run: Run<T>): State<T>
    requires run.states != []
  {
    run.states[|run.states| - 1]
  }

  lemma Extend<T>(run: Run<T>, step: Step<T>) returns (longer: Run<T>)
    requires IsRun(run) && Enabled(Last(run), step)
    ensures IsRun(longer) && Last(longer) == Apply(Last(run), step).0
  {
    var s' := Apply(Last(run), step).0;
    longer := Run(run.states + [s'], run.steps + [step]);
    assert Next(Last(run), step, s');
  }

  /** A consumer sleeps, a producer wakes it, and a closer waits until the value is taken. */
  lemma ValuePassesThrough<T>(v: T) returns (run: Run<T>)
    ensures IsRun(run) && AllAsleep(Last(run)) && Waiting(Last(run)) == {}
    ensures Last(run).closed && Last(run).accepted == [v] == Last(run).taken
  {
    var waiting := SleeperRun<T>();
    run := Extend(waiting, Push(2, v, Some(1)));
    run := Extend(run, Close(3, true));
    assert Last(run) == State(1, [v], true, map[], map[], {}, {1}, {3}, {}, [v], []);
    run := DrainedRun(run, v);
  }

  lemma SleeperRun<T>() returns (run: Run<T>)
    ensures IsRun(run) && Last(run) == State(1, [], false, map[], map[], {1}, {}, {}, {}, [], [])
  {
    run := Run([State(1, [], false, map[], map[], {}, {}, {}, {}, [], [])], []);
    run := Extend(run, Pop(1, None));
  }

  lemma DrainedRun<T>(start: Run<T>, v: T) returns (run: Run<T>)
    requires IsRun(start) && Last(start) == State(1, [v], true, map[], map[], {}, {1}, {3}, {}, [v], [])
    ensures IsRun(run) && Last(run) == State(1, [], true, map[], map[], {}, {}, {}, {}, [v], [v])
  {
    run := Extend(start, PopResumes(1, Some(3)));
    assert Last(run) == State(1, [], true, map[], map[], {}, {}, {}, {3}, [v], [v]);
    run := Extend(run, CloseResumes(3));
  }

  // ----- the object -----

  lemma NotAwake<T>(s: State<T>, t: ThreadId)
    ensures t !in s.pushAwake ==> PushResumed(s, t) == s
    ensures t !in s.popAwake ==> PopResumed(s, t) == s
  {
    assert t !in s.pushAwake ==> s.pushAwake - {t} == s.pushAwake;
    assert t !in s.popAwake ==> s.popAwake - {t} == s.popAwake;
  }

  /** The queue object with the wait sets of its condition variables; each method is one step. */
  class BlockingQueue<T> {
    const maxSize: nat
    var queue: seq<T>
    var closed: bool
    var pushSleep: map<ThreadId, T>
    var pushAwake: map<ThreadId, T>
    var popSleep: set<ThreadId>
    var popAwake: set<ThreadId>
    var closeSleep: set<ThreadId>
    var closeAwake: set<ThreadId>
    ghost var accepted: seq<T>
    ghost var taken: seq<T>

    ghost function View(): State<T>
      reads this
    {
      State(maxSize, queue, closed, pushSleep, pushAwake, popSleep, popAwake, closeSleep, closeAwake, accepted, taken)
    }

    constructor (maxSize: nat)
      ensures Init(View()) && View().cap == maxSize
    {
      this.maxSize := maxSize;
      queue, closed := [], false;
      pushSleep, pushAwake, popSleep, popAwake, closeSleep, closeAwake := map[], map[], {}, {}, {}, {};
      accepted, taken := [], [];
    }

    /** A call of `push`, or a resumed one that goes on with its value. */
    method PushStep(t: ThreadId, v: T, wake: Option<ThreadId>) returns (r: Outcome<T>)
      requires Inv(View()) && Wakes(popSleep, wake)
      requires t !in Waiting(View()) || (t in pushAwake && pushAwake[t] == v)
      modifies this
      ensures var step := if t in old(pushAwake) then PushResumes(t, wake) else Push(t, v, wake);
              (View(), r) == Apply(old(View()), step)
      ensures Inv(View())
    {
      ghost var before := View();
      ghost var step := if t in pushAwake then PushResumes(t, wake) else Push(t, v, wake);
      r := PushHolding(t, v, wake);
      NotAwake(before, t);
      StepKeepsInv(before, step);
    }

    method PushHolding(t: ThreadId, v: T, wake: Option<ThreadId>) returns (r: Outcome<T>)
      modifies this
      ensures (View(), r) == PushHeld(PushResumed(old(View()), t), t, v, wake)
    {
      pushAwake := pushAwake - {t};
      if !closed && |queue| >= maxSize {
        pushSleep := pushSleep[t := v];
        return Waits;
      }
      if closed {
        return Refused;
      }
      queue, accepted := queue + [v], accepted + [v];
      if wake.Some? {
        popSleep, popAwake := popSleep - {wake.value}, popAwake + {wake.value};
      }
      return Pushed;
    }

    method NotifySpace(all: bool, wake: Option<ThreadId>)
      modifies this`pushSleep, this`pushAwake, this`closeSleep, this`closeAwake
      ensures View() == if all then WakeAllSpace(old(View())) else WakeSpace(old(View()), wake)
    {
      if all {
        pushSleep, pushAwake := map[], pushAwake + pushSleep;
        closeSleep, closeAwake := {}, closeAwake + closeSleep;
      } else if wake.Some? {
        if wake.value in pushSleep {
          pushSleep, pushAwake := pushSleep - {wake.value}, pushAwake[wake.value := pushSleep[wake.value]];
        } else {
          closeSleep, closeAwake := closeSleep - {wake.value}, closeAwake + {wake.value};
        }
      }
    }

    /** A call of `pop`, or a resumed one. */
    method PopStep(t: ThreadId, wake: Option<ThreadId>) returns (r: Outcome<T>)
      requires Inv(View()) && Wakes(pushSleep.Keys + closeSleep, wake) && (t !in Waiting(View()) || t in popAwake)
      modifies this
      ensures (View(), r) == Apply(old(View()), if t in old(popAwake) then PopResumes(t, wake) else Pop(t, wake))
      ensures Inv(View())
    {
      ghost var before := View();
      ghost var step := if t in popAwake then PopResumes(t, wake) else Pop(t, wake);
      r := PopHolding(t, wake);
      NotAwake(before, t);
      StepKeepsInv(before, step);
    }

    method PopHolding(t: ThreadId, wake: Option<ThreadId>) returns (r: Outcome<T>)
      modifies this
      ensures (View(), r) == PopHeld(PopResumed(old(View()), t), t, wake)
    {
      popAwake := popAwake - {t};
      if queue == [] {
        if closed {
          return Drained;
        }
        popSleep := popSleep + {t};
        return Waits;
      }
      r := Popped(queue[0]);
      taken := taken + [queue[0]];
      queue := queue[1..];
      NotifySpace(closed && queue == [], wake);
    }

    /** A call of `close`. */
    method CloseStep(t: ThreadId, wait: bool) returns (r: Outcome<T>)
      requires Inv(View()) && t !in Waiting(View())
      modifies this
      ensures (View(), r) == Apply(old(View()), Close(t, wait)) && Inv(View())
    {
      ghost var before := View();
      r := CloseHolding(t, wait);
      StepKeepsInv(before, Close(t, wait));
    }

    method CloseHolding(t: ThreadId, wait: bool) returns (r: Outcome<T>)
      modifies this
      ensures (View(), r) == CloseHeld(old(View()), t, wait)
    {
      closed := true;
      popSleep, popAwake := {}, popAwake + popSleep;
      NotifySpace(true, None);
      r := Closed;
      if wait {
        r := CloseWaits(t);
      }
    }

    /** The wait loop of `close(true)`: back to sleep while the queue holds data. */
    method CloseWaits(t: ThreadId) returns (r: Outcome<T>)
      modifies this`closeSleep
      ensures (View(), r) == CloseLoop(old(View()), t)
    {
      if queue != [] {
        closeSleep := closeSleep + {t};
        return Waits;
      }
      return Closed;
    }

    /** A resumed `close(true)`. */
    method CloseResumesStep(t: ThreadId) returns (r: Outcome<T>)
      requires Inv(View()) && t in closeAwake
      modifies this
      ensures (View(), r) == Apply(old(View()), CloseResumes(t)) && Inv(View())
    {
      ghost var before := View();
      closeAwake := closeAwake - {t};
      r := CloseWaits(t);
      StepKeepsInv(before, CloseResumes(t));
    }
  }
}
