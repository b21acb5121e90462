/**
  The pool-tracking protocol of `BlockchainExplorer`: the three-state update guard, the
  asynchronous chain started by `poolChanged`, and the notices delivered to observers.

  Every shared-memory access of the source is one step.  Threads interleave arbitrarily, node
  requests complete on threads of their own, and a weak compare-and-swap may fail spuriously.
 */
module PoolUpdates {

  type Hash = nat
  type ThreadId = nat
  type RequestId = nat

  /** The states of `PoolUpdateGuard`. */
  datatype Guard = None | Updating | UpdateRequired

  /** What one `poolUpdated` call tells an observer. */
  datatype Notice = Notice(arrived: seq<Hash>, gone: seq<Hash>)

  /** A request issued to the node and not completed yet. */
  datatype Request =
    | PoolDifference(sent: set<Hash>)
    | Details(note: Notice)

  /** Where a thread stands.  A thread that leaves the explorer disappears. */
  datatype Pc =
    | Entered                    // poolChanged called, `synchronized` not read yet
    | SawSynchronized            // about to read `observersCounter`
    | BeginLoad                  // beginUpdate, before the first load
    | BeginCas(seen: Guard)      // beginUpdate, deciding on `seen`
    | AwaitLock                  // beginUpdate returned true
    | PoolLocked                 // mutex held, request not issued
    | PoolSent                   // request issued, mutex still held
    | FirstDone(ok: bool, sent: set<Hash>, added: seq<Hash>, removed: seq<Hash>, asOf: set<Hash>)
    | FirstLocked(sent: set<Hash>, added: seq<Hash>, removed: seq<Hash>, asOf: set<Hash>)
    | SecondSent                 // details requested, mutex still held
    | SecondDone(ok: bool, details: seq<Hash>, note: Notice)
    | EndLoad                    // poolUpdateEndHandler, endUpdate before its first load
    | EndCas(seen: Guard)

  datatype Lock = Free | HeldBy(t: ThreadId) | HeldByOther

  /**
    `pool` is the node's, and `asOf` in a program counter is its value when the node answered; no
    explorer step reads them.
   */
  datatype State = State(
    guard: Guard,
    synchronized: bool,
    observers: nat,
    known: set<Hash>,
    pool: set<Hash>,
    lock: Lock,
    threads: map<ThreadId, Pc>,
    requests: map<RequestId, Request>,
    notices: seq<Notice>)

  datatype Step =
    | Call(t: ThreadId)
    | ReadFlag(t: ThreadId)
    | Load(t: ThreadId)
    | Cas(t: ThreadId, spurious: bool)
    | Acquire(t: ThreadId)
    | SendPool(t: ThreadId, r: RequestId)
    | Leave(t: ThreadId)
    | AnswerPool(r: RequestId, t: ThreadId, ok: bool, added: seq<Hash>, removed: seq<Hash>)
    | FirstFails(t: ThreadId)
    | Fold(t: ThreadId, r: RequestId)
    | AnswerDetails(r: RequestId, t: ThreadId, ok: bool, details: seq<Hash>)
    | Deliver(t: ThreadId)
    | SetSynchronized(b: bool)
    | SetObservers(n: nat)
    | SetPool(p: set<Hash>)
    | OtherLocks
    | OtherUnlocks

  function ToSet(s: seq<Hash>): set<Hash> {
    set h | h in s
  }

  // ----- folding a node answer into knownPoolState -----

  /** The hashes that `emplace` really inserts, in order. */
  function Fresh(known: set<Hash>, added: seq<Hash>): seq<Hash> {
    if added == [] then [] else
      var rest, h := added[..|added| - 1], added[|added| - 1];
      Fresh(known, rest) + (if h in known || h in rest then [] else [h])
  }

  /** The hashes that are found and erased, in order. */
  function Gone(known: set<Hash>, removed: seq<Hash>): seq<Hash> {
    if removed == [] then [] else
      var rest, h := removed[..|removed| - 1], removed[|removed| - 1];
      Gone(known, rest) + (if h in known && h !in rest then [h] else [])
  }

  function NoticeFor(known: set<Hash>, added: seq<Hash>, removed: seq<Hash>): Notice {
    Notice(Fresh(known, added), Gone(known + ToSet(added), removed))
  }

  function Folded(known: set<Hash>, added: seq<Hash>, removed: seq<Hash>): set<Hash> {
    known + ToSet(added) - ToSet(removed)
  }

  /** How an observer applies one notice to its own picture of the pool. */
  function Replay(view: set<Hash>, n: Notice): set<Hash> {
    view + ToSet(n.arrived) - ToSet(n.gone)
  }

  function ReplayAll(notices: seq<Notice>): set<Hash> {
    if notices == [] then {} else Replay(ReplayAll(notices[..|notices| - 1]), notices[|notices| - 1])
  }

  /** The two loops of the first completion, on the set they update in place. */
  class PoolView {
    var known: set<Hash>

    constructor ()
      ensures known == {}
    {
      known := {};
    }

    method AddAll(added: seq<Hash>) returns (arrived: seq<Hash>)
      modifies this
      ensures known == old(known) + ToSet(added) && arrived == Fresh(old(known), added)
    {
      arrived := [];
      for i := 0 to |added|
        invariant known == old(known) + ToSet(added[..i])
        invariant arrived == Fresh(old(known), added[..i])
      {
        assert added[..i + 1][..i] == added[..i];
        if added[i] !in known {
          known := known + {added[i]};
          arrived := arrived + [added[i]];
        }
      }
      assert added[..|added|] == added;
    }

    method RemoveAll(removed: seq<Hash>) returns (gone: seq<Hash>)
      modifies this
      ensures known == old(known) - ToSet(removed) && gone == Gone(old(known), removed)
    {
      gone := [];
      for i := 0 to |removed|
        invariant known == old(known) - ToSet(removed[..i])
        invariant gone == Gone(old(known), removed[..i])
      {
        assert removed[..i + 1][..i] == removed[..i];
        if removed[i] in known {
          gone := gone + [removed[i]];
          known := known - {removed[i]};
        }
      }
      assert removed[..|removed|] == removed;
    }

    method FoldDifference(added: seq<Hash>, removed: seq<Hash>) returns (arrived: seq<Hash>, gone: seq<Hash>)
      modifies this
      ensures known == Folded(old(known), added, removed)
      ensures Notice(arrived, gone) == NoticeFor(old(known), added, removed)
    {
      arrived := AddAll(added);
      gone := RemoveAll(removed);
    }
  }

  lemma {:induction false} FreshIsNew(known: set<Hash>, added: seq<Hash>, h: Hash)
    ensures h in Fresh(known, added) <==> h in added && h !in known
  {
    if added != [] {
      var rest := added[..|added| - 1];
      FreshIsNew(known, rest, h);
      assert added == rest + [added[|added| - 1]];
    }
  }

  lemma {:induction false} GoneWasKnown(known: set<Hash>, removed: seq<Hash>, h: Hash)
    ensures h in Gone(known, removed) <==> h in removed && h in known
  {
    if removed != [] {
      var rest := removed[..|removed| - 1];
      GoneWasKnown(known, rest, h);
      assert removed == rest + [removed[|removed| - 1]];
    }
  }

  /** Where `h` first stands in `s`. */
  function FirstAt(s: seq<Hash>, h: Hash): nat {
    if s == [] || s[0] == h then 0 else 1 + FirstAt(s[1..], h)
  }

  /** Without repetition, in the order of their first places in `s`. */
  ghost predicate InOrderOf(hs: seq<Hash>, s: seq<Hash>) {
    forall i, j :: 0 <= i < j < |hs| ==> FirstAt(s, hs[i]) < FirstAt(s, hs[j])
  }

  lemma {:induction false} FirstAtSnoc(s: seq<Hash>, last: Hash, h: Hash)
    ensures h in s ==> FirstAt(s + [last], h) == FirstAt(s, h) < |s|
    ensures h !in s ==> FirstAt(s + [last], h) == if h == last then |s| else |s| + 1
    decreases |s|
  {
    if s != [] {
      assert (s + [last])[1..] == s[1..] + [last];
      FirstAtSnoc(s[1..], last, h);
      assert h in s <==> h == s[0] || h in s[1..];
    }
  }

  lemma OrderSnoc(hs: seq<Hash>, s: seq<Hash>, last: Hash)
    requires InOrderOf(hs, s) && (forall i :: 0 <= i < |hs| ==> hs[i] in s)
    ensures InOrderOf(hs, s + [last]) && (last !in s ==> InOrderOf(hs + [last], s + [last]))
  {
    forall h | h in hs || h == last ensures h in s ==> FirstAt(s + [last], h) == FirstAt(s, h) < |s| {
      FirstAtSnoc(s, last, h);
    }
    FirstAtSnoc(s, last, last);
  }

  /** Each hash is reported once, in the order in which the node lists them. */
  lemma {:induction false} FreshInOrder(known: set<Hash>, added: seq<Hash>)
    ensures InOrderOf(Fresh(known, added), added)
  {
    if added != [] {
      var rest, h := added[..|added| - 1], added[|added| - 1];
      FreshInOrder(known, rest);
      forall g | g in Fresh(known, rest) ensures g in rest {
        FreshIsNew(known, rest, g);
      }
      OrderSnoc(Fresh(known, rest), rest, h);
      assert added == rest + [h];
    }
  }

  lemma {:induction false} GoneInOrder(known: set<Hash>, removed: seq<Hash>)
    ensures InOrderOf(Gone(known, removed), removed)
  {
    if removed != [] {
      var rest, h := removed[..|removed| - 1], removed[|removed| - 1];
      GoneInOrder(known, rest);
      forall g | g in Gone(known, rest) ensures g in rest {
        GoneWasKnown(known, rest, g);
      }
      OrderSnoc(Gone(known, rest), rest, h);
      assert removed == rest + [h];
    }
  }

  /** Whatever the node answers, the notice carries an observer from the old set to the new one. */
  lemma NoticeReplaysFold(known: set<Hash>, added: seq<Hash>, removed: seq<Hash>)
    ensures Replay(known, NoticeFor(known, added, removed)) == Folded(known, added, removed)
  {
    forall h: Hash
      ensures h in Replay(known, NoticeFor(known, added, removed)) <==> h in Folded(known, added, removed)
    {
      FreshIsNew(known, added, h);
      GoneWasKnown(known + ToSet(added), removed, h);
    }
  }

  ghost predicate ExactDifference(sent: set<Hash>, pool: set<Hash>, added: seq<Hash>, removed: seq<Hash>) {
    ToSet(added) == pool - sent && ToSet(removed) == sent - pool
  }

  // ----- the transition system -----

  predicate Enabled(s: State, step: Step) {
    match step
    case Call(t) => t !in s.threads
    case ReadFlag(t) => t in s.threads && (s.threads[t].Entered? || s.threads[t].SawSynchronized?)
    case Load(t) => t in s.threads && (s.threads[t].BeginLoad? || s.threads[t].EndLoad?)
    case Cas(t, _) => t in s.threads && (s.threads[t].BeginCas? || s.threads[t].EndCas?)
    case Acquire(t) => t in s.threads && s.lock.Free? &&
      (s.threads[t].AwaitLock? || (s.threads[t].FirstDone? && s.threads[t].ok))
    case SendPool(t, r) => t in s.threads && s.threads[t].PoolLocked? && r !in s.requests
    case Leave(t) => t in s.threads && (s.threads[t].PoolSent? || s.threads[t].SecondSent?)
    case AnswerPool(r, t, _, _, _) => r in s.requests && s.requests[r].PoolDifference? && t !in s.threads
    case FirstFails(t) => t in s.threads && s.threads[t].FirstDone? && !s.threads[t].ok
    case Fold(t, r) => t in s.threads && s.threads[t].FirstLocked? && r !in s.requests
    case AnswerDetails(r, t, _, _) => r in s.requests && s.requests[r].Details? && t !in s.threads
    case Deliver(t) => t in s.threads && s.threads[t].SecondDone?
    case SetSynchronized(_) => true
    case SetObservers(_) => true
    case SetPool(_) => true
    case OtherLocks => s.lock.Free?
    case OtherUnlocks => s.lock.HeldByOther?
  }

  function Goto(s: State, t: ThreadId, pc: Pc): State {
    s.(threads := s.threads[t := pc])
  }

  function Exit(s: State, t: ThreadId): State {
    s.(threads := s.threads - {t})
  }

  /** One iteration of the loop of `beginUpdate`. */
  function BeginIteration(s: State, t: ThreadId, seen: Guard, spurious: bool): State {
    if seen.UpdateRequired? then Exit(s, t)
    else if s.guard != seen || spurious then Goto(s, t, BeginCas(s.guard))
    else if seen.None? then Goto(s.(guard := Updating), t, AwaitLock)
    else Exit(s.(guard := UpdateRequired), t)
  }

  /** One iteration of the loop of `endUpdate`, with the call it may lead to. */
  function EndIteration(s: State, t: ThreadId, seen: Guard, spurious: bool): State {
    if s.guard != seen || spurious then Goto(s, t, EndCas(s.guard))
    else if seen.UpdateRequired? then Goto(s.(guard := None), t, Entered)
    else Exit(s.(guard := None), t)
  }

  function Apply(s: State, step: Step): State
    requires Enabled(s, step)
  {
    match step
    case Call(t) => Goto(s, t, Entered)
    case ReadFlag(t) =>
      if s.threads[t].Entered? then
        (if s.synchronized then Goto(s, t, SawSynchronized) else Exit(s, t))
      else
        (if s.observers != 0 then Goto(s, t, BeginLoad) else Exit(s, t))
    case Load(t) =>
      Goto(s, t, if s.threads[t].BeginLoad? then BeginCas(s.guard) else EndCas(s.guard))
    case Cas(t, spurious) =>
      if s.threads[t].BeginCas? then BeginIteration(s, t, s.threads[t].seen, spurious)
      else EndIteration(s, t, s.threads[t].seen, spurious)
    case Acquire(t) =>
      var pc := s.threads[t];
      Goto(s.(lock := HeldBy(t)), t,
           if pc.AwaitLock? then PoolLocked else FirstLocked(pc.sent, pc.added, pc.removed, pc.asOf))
    case SendPool(t, r) => Goto(s.(requests := s.requests[r := PoolDifference(s.known)]), t, PoolSent)
    case Leave(t) => Exit(s.(lock := Free), t)
    case AnswerPool(r, t, ok, added, removed) =>
      Goto(s.(requests := s.requests - {r}), t, FirstDone(ok, s.requests[r].sent, added, removed, s.pool))
    case FirstFails(t) => Goto(s, t, EndLoad)
    case Fold(t, r) =>
      var pc := s.threads[t];
      Goto(s.(known := Folded(s.known, pc.added, pc.removed),
              requests := s.requests[r := Details(NoticeFor(s.known, pc.added, pc.removed))]), t, SecondSent)
    case AnswerDetails(r, t, ok, details) =>
      Goto(s.(requests := s.requests - {r}), t, SecondDone(ok, details, s.requests[r].note))
    case Deliver(t) =>
      var pc := s.threads[t];
      var told := if pc.ok && (pc.details != [] || pc.note.gone != [])
                  then s.notices + [Notice(pc.details, pc.note.gone)] else s.notices;
      Goto(s.(notices := told), t, EndLoad)
    case SetSynchronized(b) => s.(synchronized := b)
    case SetObservers(n) => s.(observers := n)
    case SetPool(p) => s.(pool := p)
    case OtherLocks => s.(lock := HeldByOther)
    case OtherUnlocks => s.(lock := Free)
  }

  /** The step is taken by thread `t`, or starts it. */
  predicate ActsOn(step: Step, t: ThreadId) {
    match step
    case Call(u) => u == t
    case ReadFlag(u) => u == t
    case Load(u) => u == t
    case Cas(u, _) => u == t
    case Acquire(u) => u == t
    case SendPool(u, _) => u == t
    case Leave(u) => u == t
    case AnswerPool(_, u, _, _, _) => u == t
    case FirstFails(u) => u == t
    case Fold(u, _) => u == t
    case AnswerDetails(_, u, _, _) => u == t
    case Deliver(u) => u == t
    case _ => false
  }

  /** A step leaves the other threads where they are. */
  lemma OthersStay(s: State, step: Step, t: ThreadId)
    requires Enabled(s, step) && !ActsOn(step, t)
    ensures t in Apply(s, step).threads <==> t in s.threads
    ensures t in s.threads ==> Apply(s, step).threads[t] == s.threads[t]
  {
  }

  predicate Init(s: State) {
    s.guard.None? && s.known == {} && s.lock.Free? && s.threads == map[] && s.requests == map[] && s.notices == []
  }

  datatype Run = Run(states: seq<State>, steps: seq<Step>)

  ghost predicate IsRun(run: Run) {
    && |run.states| == |run.steps| + 1
    && Init(run.states[0])
    && forall i :: 0 <= i < |run.steps| ==>
         Enabled(run.states[i], run.steps[i]) && run.states[i + 1] == Apply(run.states[i], run.steps[i])
  }

  // ----- the obligation to end the update -----

  /** Threads that still have to call `endUpdate`, or to hand that duty to a request. */
  predicate Carries(pc: Pc) {
    pc.AwaitLock? || pc.PoolLocked? || pc.FirstDone? || pc.FirstLocked? || pc.SecondDone? || pc.EndLoad? || pc.EndCas?
  }

  predicate UnderLock(pc: Pc) {
    pc.PoolLocked? || pc.PoolSent? || pc.FirstLocked? || pc.SecondSent?
  }

  /** Who carries the obligation. */
  datatype Owner = Nobody | ByThread(t: ThreadId) | ByRequest(r: RequestId)

  ghost predicate Owned(s: State, o: Owner) {
    && (s.guard.None? <==> o.Nobody?)
    && (forall t :: t in s.threads && Carries(s.threads[t]) ==> o == ByThread(t))
    && (forall r :: r in s.requests ==> o == ByRequest(r))
    && (o.ByThread? ==> o.t in s.threads && Carries(s.threads[o.t]))
    && (o.ByRequest? ==> o.r in s.requests)
  }

  ghost predicate LockHeld(s: State) {
    && (forall t :: t in s.threads && UnderLock(s.threads[t]) ==> s.lock == HeldBy(t))
    && (s.lock.HeldBy? ==> s.lock.t in s.threads && UnderLock(s.threads[s.lock.t]))
  }

  /** No thread is about to fail the assertion in `endUpdate`. */
  ghost predicate EndAssertions(s: State) {
    forall t :: t in s.threads && s.threads[t].EndCas? ==> !s.threads[t].seen.None?
  }

  /** The set sent with an outstanding difference request is still the known set. */
  ghost predicate SentIsKnown(s: State) {
    && (forall r :: r in s.requests && s.requests[r].PoolDifference? ==> s.requests[r].sent == s.known)
    && (forall t :: t in s.threads && Unfolded(s.threads[t]) ==> s.threads[t].sent == s.known)
  }

  ghost predicate Inv(s: State, o: Owner) {
    Owned(s, o) && LockHeld(s) && EndAssertions(s) && SentIsKnown(s)
  }

  /** How the obligation moves in one step. */
  ghost function OwnerAfter(s: State, step: Step, o: Owner): Owner
    requires Enabled(s, step)
  {
    match step
    case Cas(t, _) =>
      var s' := Apply(s, step);
      if s'.guard.None? then Nobody else if s.guard.None? then ByThread(t) else o
    case SendPool(_, r) => ByRequest(r)
    case Fold(_, r) => ByRequest(r)
    case AnswerPool(_, t, _, _, _) => ByThread(t)
    case AnswerDetails(_, t, _, _) => ByThread(t)
    case _ => o
  }

  lemma BeginKeepsOwned(s: State, t: ThreadId, spurious: bool, o: Owner)
    requires Enabled(s, Cas(t, spurious)) && Inv(s, o) && s.threads[t].BeginCas?
    ensures Owned(Apply(s, Cas(t, spurious)), OwnerAfter(s, Cas(t, spurious), o))
  {
    assert o != ByThread(t);
  }

  lemma EndKeepsOwned(s: State, t: ThreadId, spurious: bool, o: Owner)
    requires Enabled(s, Cas(t, spurious)) && Inv(s, o) && s.threads[t].EndCas?
    ensures Owned(Apply(s, Cas(t, spurious)), OwnerAfter(s, Cas(t, spurious), o))
  {
    assert o == ByThread(t) && s.requests == map[];
  }

  lemma CasKeepsOwned(s: State, t: ThreadId, spurious: bool, o: Owner)
    requires Enabled(s, Cas(t, spurious)) && Inv(s, o)
    ensures Owned(Apply(s, Cas(t, spurious)), OwnerAfter(s, Cas(t, spurious), o))
  {
    if s.threads[t].BeginCas? {
      BeginKeepsOwned(s, t, spurious, o);
    } else {
      EndKeepsOwned(s, t, spurious, o);
    }
  }

  lemma ThreadKeepsOwned(s: State, step: Step, o: Owner)
    requires Enabled(s, step) && Inv(s, o)
    requires step.Call? || step.ReadFlag? || step.Load? || step.Acquire? || step.Leave? || step.FirstFails?
             || step.Deliver?
    ensures Owned(Apply(s, step), o)
  {
  }

  /** The obligation passes from a thread to the request it issues, and back when the node answers. */
  lemma HandoverKeepsOwned(s: State, step: Step, o: Owner)
    requires Enabled(s, step) && Inv(s, o)
    requires step.SendPool? || step.Fold? || step.AnswerPool? || step.AnswerDetails?
    ensures Owned(Apply(s, step), OwnerAfter(s, step, o))
  {
    if step.SendPool? || step.Fold? {
      assert o == ByThread(step.t) && s.requests == map[];
    } else {
      assert o == ByRequest(step.r);
    }
  }

  lemma StepKeepsOwned(s: State, step: Step, o: Owner)
    requires Enabled(s, step) && Inv(s, o)
    ensures Owned(Apply(s, step), OwnerAfter(s, step, o))
  {
    match step
    case Cas(t, spurious) => CasKeepsOwned(s, t, spurious, o);
    case SetSynchronized(_) =>
    case SetObservers(_) =>
    case SetPool(_) =>
    case OtherLocks =>
    case OtherUnlocks =>
    case SendPool(_, _) => HandoverKeepsOwned(s, step, o);
    case Fold(_, _) => HandoverKeepsOwned(s, step, o);
    case AnswerPool(_, _, _, _, _) => HandoverKeepsOwned(s, step, o);
    case AnswerDetails(_, _, _, _) => HandoverKeepsOwned(s, step, o);
    case _ => ThreadKeepsOwned(s, step, o);
  }

  lemma LockOfThread(s: State, step: Step, t: ThreadId)
    requires Enabled(s, step) && LockHeld(s)
    requires t in Apply(s, step).threads && UnderLock(Apply(s, step).threads[t])
    ensures Apply(s, step).lock == HeldBy(t)
  {
    if !ActsOn(step, t) {
      OthersStay(s, step, t);
    }
  }

  lemma LockHolder(s: State, step: Step, t: ThreadId)
    requires Enabled(s, step) && LockHeld(s) && Apply(s, step).lock == HeldBy(t)
    ensures t in Apply(s, step).threads && UnderLock(Apply(s, step).threads[t])
  {
    if !ActsOn(step, t) {
      OthersStay(s, step, t);
    }
  }

  lemma StepKeepsLock(s: State, step: Step)
    requires Enabled(s, step) && LockHeld(s)
    ensures LockHeld(Apply(s, step))
  {
    var s' := Apply(s, step);
    forall t | t in s'.threads && UnderLock(s'.threads[t]) ensures s'.lock == HeldBy(t) {
      LockOfThread(s, step, t);
    }
    if s'.lock.HeldBy? {
      LockHolder(s, step, s'.lock.t);
    }
  }

  /** What a thread in the loop of `endUpdate` has seen is the present guard, or was seen before. */
  lemma SeenComesFrom(s: State, step: Step, t: ThreadId)
    requires Enabled(s, step) && t in Apply(s, step).threads && Apply(s, step).threads[t].EndCas?
    ensures t in s.threads
    ensures || s.threads[t] == Apply(s, step).threads[t]
            || (Apply(s, step).threads[t].seen == s.guard && (s.threads[t].EndLoad? || s.threads[t].EndCas?))
  {
    if !ActsOn(step, t) {
      OthersStay(s, step, t);
    }
  }

  lemma EndAssertionOf(s: State, step: Step, o: Owner, t: ThreadId)
    requires Enabled(s, step) && Inv(s, o) && t in Apply(s, step).threads && Apply(s, step).threads[t].EndCas?
    ensures !Apply(s, step).threads[t].seen.None?
  {
    SeenComesFrom(s, step, t);
    assert s.threads[t].EndLoad? ==> o == ByThread(t);
  }

  lemma StepKeepsEndAssertions(s: State, step: Step, o: Owner)
    requires Enabled(s, step) && Inv(s, o)
    ensures EndAssertions(Apply(s, step))
  {
    var s' := Apply(s, step);
    forall t | t in s'.threads && s'.threads[t].EndCas? ensures !s'.threads[t].seen.None? {
      EndAssertionOf(s, step, o, t);
    }
  }

  predicate Unfolded(pc: Pc) {
    pc.FirstDone? || pc.FirstLocked?
  }

  /** A difference that still has to be folded in has just arrived, or was there before. */
  lemma UnfoldedComesFrom(s: State, step: Step, t: ThreadId)
    requires Enabled(s, step) && t in Apply(s, step).threads && Unfolded(Apply(s, step).threads[t])
    ensures var pc := Apply(s, step).threads[t];
            || (step.AnswerPool? && step.t == t
                && pc == FirstDone(step.ok, s.requests[step.r].sent, step.added, step.removed, s.pool))
            || (t in s.threads && SameAnswer(s.threads[t], pc))
  {
    if !ActsOn(step, t) {
      OthersStay(s, step, t);
    }
  }

  /** `pc'` is `pc`, perhaps with the mutex taken. */
  predicate SameAnswer(pc: Pc, pc': Pc) {
    && Unfolded(pc) && Unfolded(pc')
    && pc.sent == pc'.sent && pc.added == pc'.added && pc.removed == pc'.removed && pc.asOf == pc'.asOf
    && (pc == pc' || (pc.FirstDone? && pc.ok && pc'.FirstLocked?))
  }

  /** Only the fold changes the known set, and then nothing else is on its way. */
  lemma KnownStays(s: State, step: Step, o: Owner)
    requires Enabled(s, step) && Inv(s, o)
    ensures !step.Fold? ==> Apply(s, step).known == s.known
    ensures step.Fold? ==> o == ByThread(step.t) && s.requests == map[]
  {
  }

  lemma SentOfRequest(s: State, step: Step, o: Owner, r: RequestId)
    requires Enabled(s, step) && Inv(s, o) && r in Apply(s, step).requests && Apply(s, step).requests[r].PoolDifference?
    ensures Apply(s, step).requests[r].sent == Apply(s, step).known
  {
    KnownStays(s, step, o);
  }

  lemma SentOfThread(s: State, step: Step, o: Owner, t: ThreadId)
    requires Enabled(s, step) && Inv(s, o) && !step.Fold?
    requires t in Apply(s, step).threads && Unfolded(Apply(s, step).threads[t])
    ensures Apply(s, step).threads[t].sent == Apply(s, step).known
  {
    KnownStays(s, step, o);
    UnfoldedComesFrom(s, step, t);
  }

  /** Behind a fold no difference is waiting. */
  lemma FoldLeavesNone(s: State, t: ThreadId, r: RequestId, o: Owner, u: ThreadId)
    requires Enabled(s, Fold(t, r)) && Inv(s, o)
    ensures u in Apply(s, Fold(t, r)).threads ==> !Unfolded(Apply(s, Fold(t, r)).threads[u])
  {
    assert o == ByThread(t);
  }

  lemma StepKeepsSent(s: State, step: Step, o: Owner)
    requires Enabled(s, step) && Inv(s, o)
    ensures SentIsKnown(Apply(s, step))
  {
    var s' := Apply(s, step);
    forall r | r in s'.requests && s'.requests[r].PoolDifference? ensures s'.requests[r].sent == s'.known {
      SentOfRequest(s, step, o, r);
    }
    forall t | t in s'.threads && Unfolded(s'.threads[t]) ensures s'.threads[t].sent == s'.known {
      if step.Fold? {
        FoldLeavesNone(s, step.t, step.r, o, t);
      } else {
        SentOfThread(s, step, o, t);
      }
    }
  }

  lemma StepKeepsInv(s: State, step: Step, o: Owner)
    requires Enabled(s, step) && Inv(s, o)
    ensures Inv(Apply(s, step), OwnerAfter(s, step, o))
  {
    StepKeepsOwned(s, step, o);
    StepKeepsLock(s, step);
    StepKeepsEndAssertions(s, step, o);
    StepKeepsSent(s, step, o);
  }

  lemma {:induction false} RunKeepsInv(run: Run, n: nat) returns (o: Owner)
    requires IsRun(run) && n < |run.states|
    ensures Inv(run.states[n], o)
  {
    if n == 0 {
      o := Nobody;
    } else {
      var before := RunKeepsInv(run, n - 1);
      StepKeepsInv(run.states[n - 1], run.steps[n - 1], before);
      o := OwnerAfter(run.states[n - 1], run.steps[n - 1], before);
    }
  }

  /** The guard is engaged exactly while one thread or one request owes an `endUpdate`. */
  ghost predicate OneObligation(s: State) {
    && (s.guard.None? <==> s.requests == map[] && forall t :: t in s.threads ==> !Carries(s.threads[t]))
    && (forall t, u :: t in s.threads && u in s.threads && Carries(s.threads[t]) && Carries(s.threads[u]) ==> t == u)
    && (forall q, r :: q in s.requests && r in s.requests ==> q == r)
    && (s.requests != map[] ==> forall t :: t in s.threads ==> !Carries(s.threads[t]))
  }

  /** The assertion in `endUpdate` holds at its first load and after every failed swap. */
  ghost predicate EndUpdateIsSafe(s: State) {
    && EndAssertions(s)
    && (forall t :: t in s.threads && s.threads[t].EndLoad? ==> !s.guard.None?)
  }

  lemma AtMostOneChain(run: Run, n: nat)
    requires IsRun(run) && n < |run.states|
    ensures OneObligation(run.states[n])
    ensures EndUpdateIsSafe(run.states[n])
    ensures SentIsKnown(run.states[n])
  {
    var o := RunKeepsInv(run, n);
    var s := run.states[n];
    assert o.ByThread? ==> Carries(s.threads[o.t]);
  }

  // ----- no pool notification is lost -----

  predicate Watched(s: State) {
    s.synchronized && s.observers != 0
  }

  /** Threads that will issue a pool request, or leave the guard in `UpdateRequired`. */
  predicate WillRequest(pc: Pc) {
    || pc.Entered? || pc.SawSynchronized? || pc.BeginLoad? || (pc.BeginCas? && !pc.seen.UpdateRequired?)
    || pc.AwaitLock? || pc.PoolLocked?
  }

  ghost predicate Covered(s: State) {
    s.guard.UpdateRequired? || exists t :: t in s.threads && WillRequest(s.threads[t])
  }

  lemma StepKeepsCovered(s: State, step: Step)
    requires Enabled(s, step) && Covered(s) && Watched(s) && !step.SendPool?
    ensures Covered(Apply(s, step))
  {
    var s' := Apply(s, step);
    if !s'.guard.UpdateRequired? {
      if s.guard.UpdateRequired? {
        assert WillRequest(s'.threads[step.t]);
      } else {
        var t :| t in s.threads && WillRequest(s.threads[t]);
        assert t in s'.threads && WillRequest(s'.threads[t]);
      }
    }
  }

  ghost predicate WatchedFrom(run: Run, i: nat, n: nat) {
    forall k :: i <= k < n && k < |run.states| ==> Watched(run.states[k])
  }

  ghost predicate RequestedAfter(run: Run, i: nat, n: nat) {
    exists j :: i < j < n && j < |run.steps| && run.steps[j].SendPool?
  }

  lemma {:induction false} NoPoolChangeLost(run: Run, i: nat, n: nat)
    requires IsRun(run) && i < n <= |run.steps|
    requires run.steps[i].Call? && WatchedFrom(run, i, n)
    ensures RequestedAfter(run, i, n) || Covered(run.states[n])
    decreases n
  {
    if n == i + 1 {
      assert WillRequest(run.states[n].threads[run.steps[i].t]);
    } else {
      NoPoolChangeLost(run, i, n - 1);
      if !RequestedAfter(run, i, n - 1) && !run.steps[n - 1].SendPool? {
        StepKeepsCovered(run.states[n - 1], run.steps[n - 1]);
      }
    }
  }

  predicate Quiescent(s: State) {
    s.threads == map[] && s.requests == map[]
  }

  /** Once everything has settled, every pool change was followed by a request issued after it. */
  lemma SettledMeansRequested(run: Run, i: nat, n: nat)
    requires IsRun(run) && i < n <= |run.steps|
    requires run.steps[i].Call? && WatchedFrom(run, i, n)
    requires Quiescent(run.states[n])
    ensures RequestedAfter(run, i, n)
  {
    NoPoolChangeLost(run, i, n);
    AtMostOneChain(run, n);
  }

  // ----- observers can rebuild the known pool -----

  /** The second request succeeds and returns the details that were asked for. */
  ghost predicate HonestDetails(s: State, step: Step)
    requires Enabled(s, step)
  {
    step.AnswerDetails? ==> step.ok && ToSet(step.details) == ToSet(s.requests[step.r].note.arrived)
  }

  ghost predicate AllDetailsHonest(run: Run)
    requires IsRun(run)
  {
    forall i :: 0 <= i < |run.steps| ==> HonestDetails(run.states[i], run.steps[i])
  }

  /** The view of an observer that has also been told the notice still on its way. */
  ghost function PendingView(s: State, o: Owner): set<Hash> {
    var told := ReplayAll(s.notices);
    if o.ByRequest? && o.r in s.requests && s.requests[o.r].Details? then Replay(told, s.requests[o.r].note)
    else if o.ByThread? && o.t in s.threads && s.threads[o.t].SecondDone? then Replay(told, s.threads[o.t].note)
    else told
  }

  ghost predicate Replayable(s: State, o: Owner) {
    && PendingView(s, o) == s.known
    && (forall t :: t in s.threads && s.threads[t].SecondDone? ==>
          s.threads[t].ok && ToSet(s.threads[t].details) == ToSet(s.threads[t].note.arrived))
  }

  lemma DeliverKeepsReplayable(s: State, t: ThreadId, o: Owner)
    requires Enabled(s, Deliver(t)) && Inv(s, o) && Replayable(s, o)
    ensures Replayable(Apply(s, Deliver(t)), o)
  {
    var s' := Apply(s, Deliver(t));
    var pc := s.threads[t];
    assert o == ByThread(t);
    if s'.notices != s.notices {
      assert s'.notices[..|s.notices|] == s.notices;
    } else {
      assert ToSet(pc.details) == {} && ToSet(pc.note.gone) == {};
    }
  }

  lemma FoldKeepsReplayable(s: State, t: ThreadId, r: RequestId, o: Owner)
    requires Enabled(s, Fold(t, r)) && Inv(s, o) && Replayable(s, o)
    ensures Replayable(Apply(s, Fold(t, r)), ByRequest(r))
  {
    assert o == ByThread(t);
    NoticeReplaysFold(s.known, s.threads[t].added, s.threads[t].removed);
  }

  predicate Quiet(step: Step) {
    !step.Deliver? && !step.Fold? && !step.AnswerDetails? && !step.AnswerPool? && !step.SendPool?
  }

  lemma QuietKeepsRest(s: State, step: Step)
    requires Enabled(s, step) && Quiet(step)
    ensures Apply(s, step).known == s.known && Apply(s, step).notices == s.notices
    ensures Apply(s, step).requests == s.requests
    ensures !step.SetPool? ==> Apply(s, step).pool == s.pool
  {
  }

  /** A notice being delivered is left alone by quiet steps, and none is added. */
  lemma QuietKeepsDelivery(s: State, step: Step, t: ThreadId)
    requires Enabled(s, step) && Quiet(step)
    ensures t in s.threads && s.threads[t].SecondDone? ==>
              t in Apply(s, step).threads && Apply(s, step).threads[t] == s.threads[t]
    ensures t in Apply(s, step).threads && Apply(s, step).threads[t].SecondDone? ==>
              t in s.threads && Apply(s, step).threads[t] == s.threads[t]
  {
    if !ActsOn(step, t) {
      OthersStay(s, step, t);
    }
  }

  /** Steps that move neither a notice nor the known set. */
  lemma QuietKeepsView(s: State, step: Step)
    requires Enabled(s, step) && Quiet(step)
    ensures Apply(s, step).known == s.known && Apply(s, step).notices == s.notices
    ensures Apply(s, step).requests == s.requests
    ensures forall t :: t in s.threads && s.threads[t].SecondDone? ==>
              t in Apply(s, step).threads && Apply(s, step).threads[t] == s.threads[t]
    ensures forall t :: t in Apply(s, step).threads && Apply(s, step).threads[t].SecondDone? ==>
              t in s.threads && Apply(s, step).threads[t] == s.threads[t]
  {
    QuietKeepsRest(s, step);
    var s' := Apply(s, step);
    forall t | t in s.threads && s.threads[t].SecondDone? ensures t in s'.threads && s'.threads[t] == s.threads[t] {
      QuietKeepsDelivery(s, step, t);
    }
    forall t | t in s'.threads && s'.threads[t].SecondDone? ensures t in s.threads && s'.threads[t] == s.threads[t] {
      QuietKeepsDelivery(s, step, t);
    }
  }

  lemma QuietKeepsReplayable(s: State, step: Step, o: Owner)
    requires Enabled(s, step) && Inv(s, o) && Replayable(s, o)
    requires Quiet(step)
    ensures Replayable(Apply(s, step), OwnerAfter(s, step, o))
  {
    var s' := Apply(s, step);
    QuietKeepsView(s, step);
    assert PendingView(s', o) == PendingView(s, o);
    if step.Cas? {
      assert o == ByThread(step.t) ==> s.threads[step.t].EndCas?;
    }
  }

  lemma StepKeepsReplayable(s: State, step: Step, o: Owner)
    requires Enabled(s, step) && Inv(s, o) && Replayable(s, o) && HonestDetails(s, step)
    ensures Replayable(Apply(s, step), OwnerAfter(s, step, o))
  {
    if step.Deliver? {
      DeliverKeepsReplayable(s, step.t, o);
    } else if step.Fold? {
      FoldKeepsReplayable(s, step.t, step.r, o);
    } else if step.AnswerDetails? || step.AnswerPool? {
      assert o == ByRequest(step.r);
    } else if step.SendPool? {
      assert o == ByThread(step.t);
    } else {
      QuietKeepsReplayable(s, step, o);
    }
  }

  lemma {:induction false} RunKeepsReplayable(run: Run, n: nat) returns (o: Owner)
    requires IsRun(run) && n < |run.states| && AllDetailsHonest(run)
    ensures Inv(run.states[n], o) && Replayable(run.states[n], o)
  {
    if n == 0 {
      o := Nobody;
    } else {
      var before := RunKeepsReplayable(run, n - 1);
      StepKeepsInv(run.states[n - 1], run.steps[n - 1], before);
      StepKeepsReplayable(run.states[n - 1], run.steps[n - 1], before);
      o := OwnerAfter(run.states[n - 1], run.steps[n - 1], before);
    }
  }

  /** No notice is on its way: no details request is outstanding and none is being delivered. */
  ghost predicate NothingToDeliver(s: State) {
    && (forall r :: r in s.requests ==> !s.requests[r].Details?)
    && (forall t :: t in s.threads ==> !s.threads[t].SecondDone?)
  }

  lemma NoticesRebuildKnownPool(run: Run, n: nat)
    requires IsRun(run) && n < |run.states| && AllDetailsHonest(run)
    requires NothingToDeliver(run.states[n])
    ensures ReplayAll(run.states[n].notices) == run.states[n].known
  {
    var o := RunKeepsReplayable(run, n);
  }

  // ----- convergence to the node's pool -----

  ghost predicate ExactAnswer(s: State, step: Step)
    requires Enabled(s, step)
  {
    step.AnswerPool? ==> step.ok && ExactDifference(s.requests[step.r].sent, s.pool, step.added, step.removed)
  }

  /** Every difference still to be folded in is exact for the present pool. */
  ghost predicate AllExact(s: State) {
    forall t :: t in s.threads && Unfolded(s.threads[t]) ==>
      && (s.threads[t].FirstDone? ==> s.threads[t].ok)
      && ExactDifference(s.threads[t].sent, s.pool, s.threads[t].added, s.threads[t].removed)
  }

  /** The known set is the node's pool, or a difference is still to come or to be folded in. */
  ghost predicate UpdateDue(s: State) {
    || s.known == s.pool
    || (exists r :: r in s.requests && s.requests[r].PoolDifference?)
    || (exists t :: t in s.threads && Unfolded(s.threads[t]))
  }

  /** A successful answer is the exact difference to the pool at that moment. */
  ghost predicate ExactIfOk(s: State, step: Step)
    requires Enabled(s, step)
  {
    step.AnswerPool? && step.ok ==> ExactDifference(s.requests[step.r].sent, s.pool, step.added, step.removed)
  }

  predicate Waiting(pc: Pc) {
    pc.FirstLocked? || (pc.FirstDone? && pc.ok)
  }

  /** The answer in `pc` is the exact difference to the pool `asOf`. */
  ghost predicate Fits(pc: Pc) {
    Waiting(pc) && ExactDifference(pc.sent, pc.asOf, pc.added, pc.removed)
  }

  /** An answer waiting to be folded in has just come and fits the present pool, or was there before. */
  lemma WaitingHasAnswer(s: State, step: Step, s': State, t: ThreadId)
    requires Enabled(s, step) && s' == Apply(s, step) && t in s'.threads && Waiting(s'.threads[t]) && ExactIfOk(s, step)
    ensures (step.AnswerPool? && s'.threads[t].asOf == s.pool && Fits(s'.threads[t]))
         || (t in s.threads && Waiting(s.threads[t]) && SameAnswer(s.threads[t], s'.threads[t]))
  {
    UnfoldedComesFrom(s, step, t);
  }

  lemma WaitingInRun(run: Run, n: nat, t: ThreadId, s: State, step: Step, s': State)
    requires IsRun(run) && n < |run.steps| && s == run.states[n] && step == run.steps[n] && s' == run.states[n + 1]
    requires t in s'.threads && Waiting(s'.threads[t]) && Enabled(s, step) && ExactIfOk(s, step)
    ensures (step.AnswerPool? && s'.threads[t].asOf == s.pool && Fits(s'.threads[t]))
         || (t in s.threads && Waiting(s.threads[t]) && SameAnswer(s.threads[t], s'.threads[t]))
  {
    WaitingHasAnswer(s, step, s', t);
  }

  lemma SameAnswerFits(pc: Pc, pc': Pc)
    requires SameAnswer(pc, pc') && Waiting(pc') && Fits(pc)
    ensures Fits(pc') && pc'.asOf == pc.asOf
  {
  }

  /** The answer a thread is about to fold in is exact for the pool the node had when it answered. */
  lemma {:induction false} AnswerFits(run: Run, n: nat, t: ThreadId) returns (k: nat)
    requires IsRun(run) && n < |run.states| && t in run.states[n].threads && Waiting(run.states[n].threads[t])
    requires forall i :: 0 <= i < n ==> ExactIfOk(run.states[i], run.steps[i])
    ensures k < n && run.steps[k].AnswerPool? && run.states[k].pool == run.states[n].threads[t].asOf
    ensures Fits(run.states[n].threads[t])
  {
    if n > 0 {
      var s, step, s' := run.states[n - 1], run.steps[n - 1], run.states[n];
      WaitingInRun(run, n - 1, t, s, step, s');
      if step.AnswerPool? && s'.threads[t].asOf == s.pool && Fits(s'.threads[t]) {
        k := n - 1;
      } else {
        k := AnswerFits(run, n - 1, t);
        SameAnswerFits(s.threads[t], s'.threads[t]);
      }
    }
  }

  /** Folding in an exact answer makes the known set the pool the node had when it answered. */
  lemma FoldReachesNodePool(run: Run, n: nat) returns (k: nat)
    requires IsRun(run) && n < |run.steps| && run.steps[n].Fold?
    requires forall i :: 0 <= i < n ==> ExactIfOk(run.states[i], run.steps[i])
    ensures k < n && run.steps[k].AnswerPool? && run.states[n + 1].known == run.states[k].pool
  {
    var t := run.steps[n].t;
    AtMostOneChain(run, n);
    k := AnswerFits(run, n, t);
  }

  lemma PoolStays(s: State, step: Step)
    requires Enabled(s, step) && !step.SetPool?
    ensures Apply(s, step).pool == s.pool
  {
  }

  lemma StepKeepsAllExact(s: State, step: Step)
    requires Enabled(s, step) && AllExact(s)
    requires ExactAnswer(s, step) && !step.SetPool?
    ensures AllExact(Apply(s, step))
  {
    var s' := Apply(s, step);
    PoolStays(s, step);
    forall t | t in s'.threads && Unfolded(s'.threads[t])
      ensures (s'.threads[t].FirstDone? ==> s'.threads[t].ok)
           && ExactDifference(s'.threads[t].sent, s'.pool, s'.threads[t].added, s'.threads[t].removed)
    {
      UnfoldedComesFrom(s, step, t);
    }
  }

  lemma UnfoldedStays(s: State, step: Step, t: ThreadId)
    requires Enabled(s, step) && AllExact(s) && !step.Fold? && t in s.threads && Unfolded(s.threads[t])
    ensures t in Apply(s, step).threads && Unfolded(Apply(s, step).threads[t])
  {
    if !ActsOn(step, t) {
      OthersStay(s, step, t);
    }
  }

  lemma QuietKeepsUpdateDue(s: State, step: Step)
    requires Enabled(s, step) && AllExact(s) && UpdateDue(s) && Quiet(step) && !step.SetPool?
    ensures UpdateDue(Apply(s, step))
  {
    var s' := Apply(s, step);
    QuietKeepsRest(s, step);
    if t :| t in s.threads && Unfolded(s.threads[t]) {
      UnfoldedStays(s, step, t);
    }
  }

  lemma DeliverKeepsUpdateDue(s: State, t: ThreadId)
    requires Enabled(s, Deliver(t)) && AllExact(s) && UpdateDue(s)
    ensures UpdateDue(Apply(s, Deliver(t)))
  {
    var s' := Apply(s, Deliver(t));
    if u :| u in s.threads && Unfolded(s.threads[u]) {
      UnfoldedStays(s, Deliver(t), u);
    }
  }

  lemma StepKeepsUpdateDue(s: State, step: Step, o: Owner)
    requires Enabled(s, step) && Inv(s, o) && AllExact(s) && UpdateDue(s) && !step.SetPool?
    ensures UpdateDue(Apply(s, step))
  {
    var s' := Apply(s, step);
    if step.SendPool? {
      assert s'.requests[step.r].PoolDifference?;
    } else if step.AnswerPool? {
      assert Unfolded(s'.threads[step.t]);
    } else if step.Fold? || step.AnswerDetails? {
      assert step.AnswerDetails? ==> o == ByRequest(step.r);
      assert s'.known == s'.pool;
    } else if step.Deliver? {
      DeliverKeepsUpdateDue(s, step.t);
    } else {
      QuietKeepsUpdateDue(s, step);
    }
  }

  lemma {:induction false} RunKeepsUpdateDue(run: Run, j: nat, n: nat)
    requires IsRun(run) && j < n <= |run.steps|
    requires run.steps[j].SendPool?
    requires forall k :: j <= k < n ==> ExactAnswer(run.states[k], run.steps[k]) && !run.steps[k].SetPool?
    ensures AllExact(run.states[n]) && UpdateDue(run.states[n])
    decreases n
  {
    var o := RunKeepsInv(run, n - 1);
    if n == j + 1 {
      var s := run.states[j];
      assert o == ByThread(run.steps[j].t);
      assert run.states[n].requests[run.steps[j].r].PoolDifference?;
    } else {
      RunKeepsUpdateDue(run, j, n - 1);
      StepKeepsAllExact(run.states[n - 1], run.steps[n - 1]);
      StepKeepsUpdateDue(run.states[n - 1], run.steps[n - 1], o);
    }
  }

  /**
    End to end: if the node's last pool change is announced by a `poolChanged` call while observers
    are present, and the node answers exactly, then once everything has settled the explorer knows
    exactly the node's pool and its observers can rebuild exactly that set.
   */
  lemma ObserversSeeNodePool(run: Run, i: nat)
    requires IsRun(run) && i < |run.steps|
    requires run.steps[i].Call? && WatchedFrom(run, i, |run.steps|)
    requires AllDetailsHonest(run)
    requires forall k :: i <= k < |run.steps| ==> ExactAnswer(run.states[k], run.steps[k]) && !run.steps[k].SetPool?
    requires Quiescent(run.states[|run.steps|])
    ensures run.states[|run.steps|].known == run.states[|run.steps|].pool
    ensures ReplayAll(run.states[|run.steps|].notices) == run.states[|run.steps|].pool
  {
    var n := |run.steps|;
    SettledMeansRequested(run, i, n);
    var j :| i < j < n && j < |run.steps| && run.steps[j].SendPool?;
    RunKeepsUpdateDue(run, j, n);
    NoticesRebuildKnownPool(run, n);
  }

  // ----- nothing happens unwatched -----

  /** No call has got past the flags. */
  ghost predicate Untouched(s: State) {
    && s.guard.None? && s.known == {} && s.requests == map[] && s.notices == []
    && (forall t :: t in s.threads ==> s.threads[t].Entered? || s.threads[t].SawSynchronized?)
  }

  ghost predicate NobodySynchronized(s: State) {
    forall t :: t in s.threads ==> s.threads[t].Entered?
  }

  lemma StepStaysUntouched(s: State, step: Step)
    requires Enabled(s, step) && Untouched(s) && s.observers == 0
    ensures Untouched(Apply(s, step)) && !step.SendPool?
  {
  }

  lemma StepStaysUnsynchronized(s: State, step: Step)
    requires Enabled(s, step) && Untouched(s) && NobodySynchronized(s) && !s.synchronized
    ensures Untouched(Apply(s, step)) && NobodySynchronized(Apply(s, step)) && !step.SendPool?
  {
  }

  lemma {:induction false} UnobservedUntouched(run: Run, n: nat)
    requires IsRun(run) && n < |run.states| && forall i :: 0 <= i < n ==> run.states[i].observers == 0
    ensures Untouched(run.states[n])
  {
    if n > 0 {
      UnobservedUntouched(run, n - 1);
      StepStaysUntouched(run.states[n - 1], run.steps[n - 1]);
    }
  }

  lemma {:induction false} UnsynchronizedUntouched(run: Run, n: nat)
    requires IsRun(run) && n < |run.states| && forall i :: 0 <= i < n ==> !run.states[i].synchronized
    ensures Untouched(run.states[n]) && NobodySynchronized(run.states[n])
  {
    if n > 0 {
      UnsynchronizedUntouched(run, n - 1);
      StepStaysUnsynchronized(run.states[n - 1], run.steps[n - 1]);
    }
  }

  /** Without observers, or while the node is not synchronized, nothing is requested, known or told. */
  lemma UnwatchedDoesNothing(run: Run, n: nat)
    requires IsRun(run) && n < |run.states|
    requires || (forall i :: 0 <= i < n ==> run.states[i].observers == 0)
             || (forall i :: 0 <= i < n ==> !run.states[i].synchronized)
    ensures var s := run.states[n]; s.guard.None? && s.known == {} && s.requests == map[] && s.notices == []
    ensures forall i :: 0 <= i < n ==> !run.steps[i].SendPool?
  {
    if forall i :: 0 <= i < n ==> run.states[i].observers == 0 {
      UnobservedUntouched(run, n);
      forall i | 0 <= i < n ensures !run.steps[i].SendPool? {
        UnobservedUntouched(run, i);
        StepStaysUntouched(run.states[i], run.steps[i]);
      }
    } else {
      UnsynchronizedUntouched(run, n);
      forall i | 0 <= i < n ensures !run.steps[i].SendPool? {
        UnsynchronizedUntouched(run, i);
        StepStaysUnsynchronized(run.states[i], run.steps[i]);
      }
    }
  }

  /** A thread between the flags and the request. */
  predicate PassedFlags(pc: Pc) {
    pc.BeginLoad? || pc.BeginCas? || pc.AwaitLock? || pc.PoolLocked?
  }

  /** Thread `t` is inside, past its entry, in all states after `k` up to `n`. */
  ghost predicate InsideSince(run: Run, t: ThreadId, k: nat, n: nat) {
    forall m :: k < m <= n && m < |run.states| ==> t in run.states[m].threads && !run.states[m].threads[t].Entered?
  }

  /** At `k` the thread, just entered, reads that the node is synchronized. */
  ghost predicate ReadsSynchronized(run: Run, t: ThreadId, k: nat) {
    && k < |run.steps| && k < |run.states| && run.steps[k] == ReadFlag(t) && run.states[k].synchronized
    && t in run.states[k].threads && run.states[k].threads[t].Entered?
  }

  /** At `l` it reads that there are observers. */
  ghost predicate ReadsObservers(run: Run, t: ThreadId, l: nat) {
    && l < |run.steps| && l < |run.states| && run.steps[l] == ReadFlag(t) && run.states[l].observers != 0
    && t in run.states[l].threads && run.states[l].threads[t].SawSynchronized?
  }

  /** Where a thread past the first flag comes from. */
  lemma SawSynchronizedFrom(s: State, step: Step, t: ThreadId)
    requires Enabled(s, step) && t in Apply(s, step).threads && Apply(s, step).threads[t].SawSynchronized?
    ensures t in s.threads
    ensures || s.threads[t].SawSynchronized?
            || (step == ReadFlag(t) && s.synchronized && s.threads[t].Entered?)
  {
    if !ActsOn(step, t) {
      OthersStay(s, step, t);
    }
  }

  lemma PassedFlagsFrom(s: State, step: Step, t: ThreadId)
    requires Enabled(s, step) && t in Apply(s, step).threads && PassedFlags(Apply(s, step).threads[t])
    ensures t in s.threads
    ensures || PassedFlags(s.threads[t])
            || (step == ReadFlag(t) && s.observers != 0 && s.threads[t].SawSynchronized?)
  {
    if !ActsOn(step, t) {
      OthersStay(s, step, t);
    }
  }

  lemma {:induction false} SynchronizedWasRead(run: Run, n: nat, t: ThreadId) returns (k: nat)
    requires IsRun(run) && n < |run.states| && t in run.states[n].threads && run.states[n].threads[t].SawSynchronized?
    ensures k < n && ReadsSynchronized(run, t, k) && InsideSince(run, t, k, n)
  {
    if n > 0 {
      var s, step := run.states[n - 1], run.steps[n - 1];
      SawSynchronizedFrom(s, step, t);
      if s.threads[t].SawSynchronized? {
        k := SynchronizedWasRead(run, n - 1, t);
      } else {
        k := n - 1;
      }
    }
  }

  lemma {:induction false} FlagsWereRead(run: Run, n: nat, t: ThreadId) returns (k: nat, l: nat)
    requires IsRun(run) && n < |run.states| && t in run.states[n].threads && PassedFlags(run.states[n].threads[t])
    ensures k < l < n && ReadsSynchronized(run, t, k) && ReadsObservers(run, t, l) && InsideSince(run, t, k, n)
  {
    if n > 0 {
      var s, step := run.states[n - 1], run.steps[n - 1];
      PassedFlagsFrom(s, step, t);
      if PassedFlags(s.threads[t]) {
        k, l := FlagsWereRead(run, n - 1, t);
      } else {
        k := SynchronizedWasRead(run, n - 1, t);
        l := n - 1;
      }
    }
  }

  /** Before every pool request its thread, since it last entered, has seen the node synchronized and then observers. */
  lemma RequestWasWatched(run: Run, j: nat, t: ThreadId, r: RequestId) returns (k: nat, l: nat)
    requires IsRun(run) && j < |run.steps| && run.steps[j] == SendPool(t, r)
    ensures k < l < j && ReadsSynchronized(run, t, k) && ReadsObservers(run, t, l) && InsideSince(run, t, k, j)
  {
    k, l := FlagsWereRead(run, j, t);
  }

  // ----- only notices with something in them are told -----

  lemma ToldAfter(s: State, step: Step)
    requires Enabled(s, step)
    ensures || Apply(s, step).notices == s.notices
            || (step.Deliver? && s.threads[step.t].ok
                && var told := Notice(s.threads[step.t].details, s.threads[step.t].note.gone);
                (told.arrived != [] || told.gone != []) && Apply(s, step).notices == s.notices + [told])
  {
  }

  /** A notice is told exactly by a delivery whose details were had, with details or something gone. */
  lemma {:induction false} EveryNoticeTells(run: Run, n: nat, i: nat)
    requires IsRun(run) && n < |run.states| && i < |run.states[n].notices|
    ensures run.states[n].notices[i].arrived != [] || run.states[n].notices[i].gone != []
  {
    if n > 0 {
      ToldAfter(run.states[n - 1], run.steps[n - 1]);
      if i < |run.states[n - 1].notices| {
        EveryNoticeTells(run, n - 1, i);
      }
    }
  }

  // ----- what observers miss when details cannot be had -----

  /** The hashes in exactly one of the two sets. */
  function Xor(a: set<Hash>, b: set<Hash>): set<Hash> {
    (a - b) + (b - a)
  }

  /** The hashes a notice mentions. */
  function Named(note: Notice): set<Hash> {
    ToSet(note.arrived) + ToSet(note.gone)
  }

  /** The hashes it takes into the pool or out of it; one that comes and goes at once stays out. */
  function Changed(note: Notice): set<Hash> {
    Xor(ToSet(note.arrived), ToSet(note.gone))
  }

  /** A step that disposes of a notice: told to the observers if `ok`, lost otherwise. */
  predicate Disposes(s: State, step: Step) {
    step.Deliver? && step.t in s.threads && s.threads[step.t].SecondDone?
  }

  function OffAfter(off: set<Hash>, s: State, step: Step): set<Hash> {
    if !Disposes(s, step) then off
    else if s.threads[step.t].ok then off - Named(s.threads[step.t].note)
    else Xor(off, Changed(s.threads[step.t].note))
  }

  /** The hashes that lost notices have changed an odd number of times since the last told one that names them. */
  function Off(run: Run, n: nat): set<Hash>
    requires n <= |run.steps| < |run.states|
  {
    if n == 0 then {} else OffAfter(Off(run, n - 1), run.states[n - 1], run.steps[n - 1])
  }

  /** Details that arrive are those that were asked for; the request may fail. */
  ghost predicate HonestIfOk(s: State, step: Step)
    requires Enabled(s, step)
  {
    step.AnswerDetails? && step.ok ==> ToSet(step.details) == ToSet(s.requests[step.r].note.arrived)
  }

  ghost predicate AllHonestIfOk(run: Run)
    requires IsRun(run)
  {
    forall i :: 0 <= i < |run.steps| ==> HonestIfOk(run.states[i], run.steps[i])
  }

  /** The notice has been folded into the known set. */
  ghost predicate Folds(known: set<Hash>, note: Notice) {
    ToSet(note.gone) !! known && ToSet(note.arrived) - ToSet(note.gone) <= known
  }

  /** The change still on its way to the observers. */
  ghost function PendingChange(s: State, o: Owner): set<Hash> {
    if o.ByRequest? && o.r in s.requests && s.requests[o.r].Details? then Changed(s.requests[o.r].note)
    else if o.ByThread? && o.t in s.threads && s.threads[o.t].SecondDone? then Changed(s.threads[o.t].note)
    else {}
  }

  ghost predicate NotesFold(s: State) {
    && (forall r :: r in s.requests && s.requests[r].Details? ==> Folds(s.known, s.requests[r].note))
    && (forall t :: t in s.threads && s.threads[t].SecondDone? ==>
          && Folds(s.known, s.threads[t].note)
          && (s.threads[t].ok ==> ToSet(s.threads[t].details) == ToSet(s.threads[t].note.arrived)))
  }

  ghost predicate Drifted(s: State, o: Owner, off: set<Hash>) {
    off == Xor(Xor(ReplayAll(s.notices), s.known), PendingChange(s, o)) && NotesFold(s)
  }

  lemma FoldIsChange(known: set<Hash>, added: seq<Hash>, removed: seq<Hash>)
    ensures var note := NoticeFor(known, added, removed); var known' := Folded(known, added, removed);
            Xor(known', Changed(note)) == known && Folds(known', note)
  {
    var note := NoticeFor(known, added, removed);
    forall h: Hash
      ensures (h in note.arrived <==> h in added && h !in known)
           && (h in note.gone <==> h in removed && (h in known || h in added))
    {
      FreshIsNew(known, added, h);
      GoneWasKnown(known + ToSet(added), removed, h);
    }
  }

  /** A told notice brings the observers up to date on the hashes it names. */
  lemma ToldOff(view: set<Hash>, known: set<Hash>, note: Notice, off: set<Hash>)
    requires Folds(known, note) && off == Xor(Xor(view, known), Changed(note))
    ensures off - Named(note) == Xor(Replay(view, note), known)
  {
  }

  lemma LostOff(view: set<Hash>, known: set<Hash>, note: Notice, off: set<Hash>)
    requires off == Xor(Xor(view, known), Changed(note))
    ensures Xor(off, Changed(note)) == Xor(view, known)
  {
  }

  lemma XorNothing(a: set<Hash>)
    ensures Xor(a, {}) == a
  {
  }

  lemma XorMoves(a: set<Hash>, b: set<Hash>, c: set<Hash>)
    ensures Xor(Xor(a, b), c) == Xor(a, Xor(b, c))
  {
  }

  /** What is told when a notice whose details have arrived is delivered. */
  lemma ToldView(s: State, t: ThreadId, pc: Pc)
    requires Enabled(s, Deliver(t)) && pc == s.threads[t] && (pc.ok ==> ToSet(pc.details) == ToSet(pc.note.arrived))
    ensures ReplayAll(Apply(s, Deliver(t)).notices)
         == if pc.ok then Replay(ReplayAll(s.notices), pc.note) else ReplayAll(s.notices)
  {
    var s' := Apply(s, Deliver(t));
    if s'.notices != s.notices {
      assert s'.notices[..|s.notices|] == s.notices;
    } else if pc.ok {
      assert ToSet(pc.details) == {} && ToSet(pc.note.gone) == {};
    }
  }

  lemma DeliverKeepsDrifted(s: State, t: ThreadId, o: Owner, off: set<Hash>)
    requires Enabled(s, Deliver(t)) && Inv(s, o) && Drifted(s, o, off)
    ensures Drifted(Apply(s, Deliver(t)), o, OffAfter(off, s, Deliver(t)))
  {
    var pc, s' := s.threads[t], Apply(s, Deliver(t));
    var view := ReplayAll(s.notices);
    assert o == ByThread(t);
    ToldView(s, t, pc);
    if pc.ok {
      ToldOff(view, s.known, pc.note, off);
    } else {
      LostOff(view, s.known, pc.note, off);
    }
    XorNothing(Xor(ReplayAll(s'.notices), s.known));
    assert PendingChange(s', o) == {};
  }

  lemma FoldKeepsDrifted(s: State, t: ThreadId, r: RequestId, o: Owner, off: set<Hash>)
    requires Enabled(s, Fold(t, r)) && Inv(s, o) && Drifted(s, o, off)
    ensures Drifted(Apply(s, Fold(t, r)), ByRequest(r), off)
  {
    var pc, s', view := s.threads[t], Apply(s, Fold(t, r)), ReplayAll(s.notices);
    assert o == ByThread(t) && s.requests == map[];
    FoldIsChange(s.known, pc.added, pc.removed);
    XorNothing(Xor(view, s.known));
    XorMoves(view, s'.known, Changed(s'.requests[r].note));
  }

  lemma HandoverKeepsDrifted(s: State, step: Step, o: Owner, off: set<Hash>)
    requires Enabled(s, step) && Inv(s, o) && Drifted(s, o, off) && HonestIfOk(s, step)
    requires step.AnswerDetails? || step.AnswerPool? || step.SendPool?
    ensures Drifted(Apply(s, step), OwnerAfter(s, step, o), off)
  {
    if step.SendPool? {
      assert o == ByThread(step.t);
    } else {
      assert o == ByRequest(step.r);
    }
  }

  lemma QuietKeepsDrifted(s: State, step: Step, o: Owner, off: set<Hash>)
    requires Enabled(s, step) && Inv(s, o) && Drifted(s, o, off) && Quiet(step)
    ensures Drifted(Apply(s, step), OwnerAfter(s, step, o), off)
  {
    var s' := Apply(s, step);
    QuietKeepsView(s, step);
    assert PendingChange(s', o) == PendingChange(s, o);
    if step.Cas? {
      assert o == ByThread(step.t) ==> s.threads[step.t].EndCas?;
    }
  }

  lemma StepKeepsDrifted(s: State, step: Step, o: Owner, off: set<Hash>)
    requires Enabled(s, step) && Inv(s, o) && Drifted(s, o, off) && HonestIfOk(s, step)
    ensures Drifted(Apply(s, step), OwnerAfter(s, step, o), OffAfter(off, s, step))
  {
    if step.Deliver? {
      DeliverKeepsDrifted(s, step.t, o, off);
    } else if step.Fold? {
      FoldKeepsDrifted(s, step.t, step.r, o, off);
    } else if Quiet(step) {
      QuietKeepsDrifted(s, step, o, off);
    } else {
      HandoverKeepsDrifted(s, step, o, off);
    }
  }

  lemma {:induction false} RunKeepsDrifted(run: Run, n: nat) returns (o: Owner)
    requires IsRun(run) && n < |run.states| && AllHonestIfOk(run)
    ensures Inv(run.states[n], o) && Drifted(run.states[n], o, Off(run, n))
  {
    if n == 0 {
      o := Nobody;
    } else {
      var before := RunKeepsDrifted(run, n - 1);
      StepKeepsInv(run.states[n - 1], run.steps[n - 1], before);
      StepKeepsDrifted(run.states[n - 1], run.steps[n - 1], before, Off(run, n - 1));
      o := OwnerAfter(run.states[n - 1], run.steps[n - 1], before);
    }
  }

  /** With detail requests that may fail: the set observers rebuild differs from the known set exactly in `Off`. */
  lemma RebuiltDiffersBy(run: Run, n: nat)
    requires IsRun(run) && n < |run.states| && AllHonestIfOk(run) && NothingToDeliver(run.states[n])
    ensures Xor(ReplayAll(run.states[n].notices), run.states[n].known) == Off(run, n)
  {
    var o := RunKeepsDrifted(run, n);
    XorNothing(Xor(ReplayAll(run.states[n].notices), run.states[n].known));
  }

  /** The notice disposed of by step `i` names `h`. */
  predicate NamedAt(run: Run, i: nat, h: Hash) {
    i < |run.steps| && i < |run.states| && Disposes(run.states[i], run.steps[i])
    && h in Named(run.states[i].threads[run.steps[i].t].note)
  }

  predicate LostAt(run: Run, i: nat, h: Hash) {
    NamedAt(run, i, h) && !run.states[i].threads[run.steps[i].t].ok
  }

  /** For such a hash the last notice that names it was lost. */
  lemma {:induction false} LastNoticeLost(run: Run, n: nat, h: Hash) returns (i: nat)
    requires n <= |run.steps| < |run.states| && h in Off(run, n)
    ensures i < n && LostAt(run, i, h) && forall j :: i < j < n ==> !NamedAt(run, j, h)
  {
    if NamedAt(run, n - 1, h) {
      i := n - 1;
    } else {
      i := LastNoticeLost(run, n - 1, h);
    }
  }

  /** Not the other way round: a lost arrival and a lost removal of one hash cancel. */
  lemma TwoLossesCancel(s1: State, t1: ThreadId, s2: State, t2: ThreadId, h: Hash, off: set<Hash>)
    requires Disposes(s1, Deliver(t1)) && !s1.threads[t1].ok && s1.threads[t1].note == Notice([h], [])
    requires Disposes(s2, Deliver(t2)) && !s2.threads[t2].ok && s2.threads[t2].note == Notice([], [h])
    ensures OffAfter(OffAfter(off, s1, Deliver(t1)), s2, Deliver(t2)) == off
  {
    assert Changed(Notice([h], [])) == {h} && Changed(Notice([], [h])) == {h};
  }

  /** End to end with details that may fail: the pool is known, and observers are off by exactly those hashes. */
  lemma ObserversOffBy(run: Run, i: nat)
    requires IsRun(run) && i < |run.steps|
    requires run.steps[i].Call? && WatchedFrom(run, i, |run.steps|)
    requires AllHonestIfOk(run)
    requires forall k :: i <= k < |run.steps| ==> ExactAnswer(run.states[k], run.steps[k]) && !run.steps[k].SetPool?
    requires Quiescent(run.states[|run.steps|])
    ensures run.states[|run.steps|].known == run.states[|run.steps|].pool
    ensures Xor(ReplayAll(run.states[|run.steps|].notices), run.states[|run.steps|].pool) == Off(run, |run.steps|)
  {
    var n := |run.steps|;
    SettledMeansRequested(run, i, n);
    var j :| i < j < n && j < |run.steps| && run.steps[j].SendPool?;
    RunKeepsUpdateDue(run, j, n);
    RebuiltDiffersBy(run, n);
  }

  // ----- a run that settles -----

  function Last(run: Run): State
    requires run.states != []
  {
    run.states[|run.states| - 1]
  }

  /** What the end-to-end theorem asks of a run whose last pool change is announced by step `i`. */
  ghost predicate Favourable(run: Run, i: nat) {
    && IsRun(run) && WatchedFrom(run, i, |run.steps|) && AllDetailsHonest(run)
    && (forall k :: i <= k < |run.steps| ==> ExactAnswer(run.states[k], run.steps[k]) && !run.steps[k].SetPool?)
  }

  lemma Extend(run: Run, i: nat, step: Step) returns (longer: Run)
    requires Favourable(run, i) && Enabled(Last(run), step) && HonestDetails(Last(run), step)
    requires i <= |run.steps| ==> Watched(Last(run)) && ExactAnswer(Last(run), step) && !step.SetPool?
    ensures Favourable(longer, i) && Last(longer) == Apply(Last(run), step) && |longer.steps| == |run.steps| + 1
    ensures longer.steps == run.steps + [step]
  {
    longer := Run(run.states + [Apply(Last(run), step)], run.steps + [step]);
    var n := |run.steps|;
    forall k | 0 <= k < n + 1
      ensures Enabled(longer.states[k], longer.steps[k])
           && longer.states[k + 1] == Apply(longer.states[k], longer.steps[k])
           && HonestDetails(longer.states[k], longer.steps[k])
           && (i <= k ==> ExactAnswer(longer.states[k], longer.steps[k]) && !longer.steps[k].SetPool?)
    {
      if k < n {
        assert longer.states[k] == run.states[k] && longer.steps[k] == run.steps[k];
      }
    }
  }

  /** A watched explorer with a free mutex, next to a node whose pool is `{h}`. */
  function At(h: Hash, guard: Guard, known: set<Hash>, threads: map<ThreadId, Pc>,
              requests: map<RequestId, Request>, notices: seq<Notice>): State
  {
    State(guard, true, 1, known, {h}, Free, threads, requests, notices)
  }

  lemma BeginsUpdate(h: Hash) returns (run: Run)
    ensures Favourable(run, 0) && run.steps != [] && run.steps[0] == Call(0)
    ensures Last(run) == At(h, Updating, {}, map[0 := AwaitLock], map[], [])
  {
    run := Run([At(h, None, {}, map[], map[], [])], []);
    run := Extend(run, 0, Call(0));
    run := Extend(run, 0, ReadFlag(0));
    run := Extend(run, 0, ReadFlag(0));
    run := Extend(run, 0, Load(0));
    run := Extend(run, 0, Cas(0, false));
  }

  lemma RequestsDifference(h: Hash, start: Run) returns (run: Run)
    requires Favourable(start, 0) && Last(start) == At(h, Updating, {}, map[0 := AwaitLock], map[], [])
    ensures Favourable(run, 0) && start.steps <= run.steps
    ensures Last(run) == At(h, Updating, {}, map[], map[0 := PoolDifference({})], [])
  {
    run := Extend(start, 0, Acquire(0));
    run := Extend(run, 0, SendPool(0, 0));
    run := Extend(run, 0, Leave(0));
  }

  lemma ReceivesDifference(h: Hash, start: Run) returns (run: Run)
    requires Favourable(start, 0) && Last(start) == At(h, Updating, {}, map[], map[0 := PoolDifference({})], [])
    ensures Favourable(run, 0) && start.steps <= run.steps
    ensures Last(run) == At(h, Updating, {}, map[1 := FirstLocked({}, [h], [], {h})], map[], []).(lock := HeldBy(1))
  {
    run := Extend(start, 0, AnswerPool(0, 1, true, [h], []));
    run := Extend(run, 0, Acquire(1));
  }

  lemma {:induction false} FoldOfOne(h: Hash)
    ensures NoticeFor({}, [h], []) == Notice([h], []) && Folded({}, [h], []) == {h}
  {
    assert [h][..0] == [] && Fresh({}, []) == [];
    assert Fresh({}, [h]) == Fresh({}, [h][..0]) + [h];
  }

  lemma FoldApplied(s: State, t: ThreadId, r: RequestId, pc: Pc, note: Notice, known': set<Hash>)
    requires Enabled(s, Fold(t, r)) && pc == s.threads[t]
    requires note == NoticeFor(s.known, pc.added, pc.removed) && known' == Folded(s.known, pc.added, pc.removed)
    ensures Apply(s, Fold(t, r))
         == s.(known := known', requests := s.requests[r := Details(note)], threads := s.threads[t := SecondSent])
  {
  }

  lemma FoldsDifference(h: Hash, added: seq<Hash>, removed: seq<Hash>, note: Notice, start: Run) returns (run: Run)
    requires Favourable(start, 0) && note == NoticeFor({}, added, removed) && {h} == Folded({}, added, removed)
    requires Last(start)
          == At(h, Updating, {}, map[1 := FirstLocked({}, added, removed, {h})], map[], []).(lock := HeldBy(1))
    ensures Favourable(run, 0) && start.steps <= run.steps
    ensures Last(run) == At(h, Updating, {h}, map[], map[0 := Details(note)], [])
  {
    FoldApplied(Last(start), 1, 0, FirstLocked({}, added, removed, {h}), note, {h});
    run := Extend(start, 0, Fold(1, 0));
    run := Extend(run, 0, Leave(1));
  }

  lemma DeliversNotice(h: Hash, start: Run) returns (run: Run)
    requires Favourable(start, 0) && Last(start) == At(h, Updating, {h}, map[], map[0 := Details(Notice([h], []))], [])
    ensures Favourable(run, 0) && start.steps <= run.steps
    ensures Last(run) == At(h, Updating, {h}, map[2 := EndLoad], map[], [Notice([h], [])])
  {
    run := Extend(start, 0, AnswerDetails(0, 2, true, [h]));
    run := Extend(run, 0, Deliver(2));
  }

  lemma EndsUpdate(h: Hash, start: Run) returns (run: Run)
    requires Favourable(start, 0) && Last(start) == At(h, Updating, {h}, map[2 := EndLoad], map[], [Notice([h], [])])
    ensures Favourable(run, 0) && start.steps <= run.steps
    ensures Last(run) == At(h, None, {h}, map[], map[], [Notice([h], [])])
  {
    run := Extend(start, 0, Load(2));
    run := Extend(run, 0, Cas(2, false));
  }

  /** A run that meets all conditions of the end-to-end theorem: one hash reaches the observers. */
  lemma HashReachesObservers(h: Hash) returns (run: Run)
    ensures Favourable(run, 0) && run.steps != [] && run.steps[0].Call? && Quiescent(Last(run))
    ensures Last(run).known == {h} && Last(run).notices == [Notice([h], [])]
  {
    run := BeginsUpdate(h);
    run := RequestsDifference(h, run);
    run := ReceivesDifference(h, run);
    FoldOfOne(h);
    run := FoldsDifference(h, [h], [], Notice([h], []), run);
    run := DeliversNotice(h, run);
    run := EndsUpdate(h, run);
  }

  // ----- a run whose details request fails -----

  ghost predicate HonestRun(run: Run) {
    IsRun(run) && AllHonestIfOk(run)
  }

  lemma FavourableIsHonest(run: Run, i: nat)
    requires Favourable(run, i)
    ensures HonestRun(run)
  {
    forall k | 0 <= k < |run.steps| ensures HonestIfOk(run.states[k], run.steps[k]) {
      assert HonestDetails(run.states[k], run.steps[k]);
    }
  }

  lemma ExtendHonest(run: Run, step: Step) returns (longer: Run)
    requires HonestRun(run) && Enabled(Last(run), step) && HonestIfOk(Last(run), step)
    ensures HonestRun(longer) && Last(longer) == Apply(Last(run), step)
  {
    longer := Run(run.states + [Apply(Last(run), step)], run.steps + [step]);
    forall k | 0 <= k < |longer.steps|
      ensures Enabled(longer.states[k], longer.steps[k])
           && longer.states[k + 1] == Apply(longer.states[k], longer.steps[k])
           && HonestIfOk(longer.states[k], longer.steps[k])
    {
      if k < |run.steps| {
        assert longer.states[k] == run.states[k] && longer.steps[k] == run.steps[k];
      }
    }
  }

  lemma RequestsDetails(h: Hash) returns (run: Run)
    ensures HonestRun(run) && Last(run) == At(h, Updating, {h}, map[], map[0 := Details(Notice([h], []))], [])
  {
    run := BeginsUpdate(h);
    run := RequestsDifference(h, run);
    run := ReceivesDifference(h, run);
    FoldOfOne(h);
    run := FoldsDifference(h, [h], [], Notice([h], []), run);
    FavourableIsHonest(run, 0);
  }

  /** The hash is known, and no observer hears of it. */
  lemma LostDetailsHideHash(h: Hash) returns (run: Run)
    ensures HonestRun(run) && Quiescent(Last(run)) && Last(run).known == {h} && Last(run).notices == []
  {
    run := RequestsDetails(h);
    run := ExtendHonest(run, AnswerDetails(0, 2, false, []));
    run := ExtendHonest(run, Deliver(2));
    run := ExtendHonest(run, Load(2));
    run := ExtendHonest(run, Cas(2, false));
  }

  // ----- the loops around the guard end -----

  /** Thread `t` is in the loop of `beginUpdate` or `endUpdate`. */
  predicate InLoop(s: State, t: ThreadId) {
    t in s.threads && (s.threads[t].BeginCas? || s.threads[t].EndCas?)
  }

  /** A failed exchange leaves the thread with the guard as it is, and the guard as it was. */
  lemma FailedExchange(s: State, t: ThreadId, spurious: bool)
    requires InLoop(s, t) && InLoop(Apply(s, Cas(t, spurious)), t)
    ensures var s' := Apply(s, Cas(t, spurious));
            && s'.guard == s.guard && s'.threads[t].seen == s.guard
            && (s'.threads[t].BeginCas? <==> s.threads[t].BeginCas?)
  {
  }

  lemma ExchangeEnds(s: State, t: ThreadId)
    requires InLoop(s, t) && s.threads[t].seen == s.guard
    ensures !InLoop(Apply(s, Cas(t, false)), t)
  {
  }

  /** A loop goes round again only if the guard was changed since it was read, or the exchange failed spuriously. */
  lemma LoopsAgainIff(s: State, t: ThreadId, spurious: bool)
    requires InLoop(s, t)
    ensures InLoop(Apply(s, Cas(t, spurious)), t)
       <==> (s.threads[t].seen != s.guard || spurious) && s.threads[t] != BeginCas(UpdateRequired)
  {
  }

  /** Undisturbed, two rounds are enough, unless the second fails spuriously. */
  lemma LoopEnds(s: State, t: ThreadId, spurious: bool)
    requires InLoop(s, t)
    ensures var s' := Apply(s, Cas(t, spurious)); InLoop(s', t) ==> !InLoop(Apply(s', Cas(t, false)), t)
  {
    var s' := Apply(s, Cas(t, spurious));
    if InLoop(s', t) {
      FailedExchange(s, t, spurious);
      ExchangeEnds(s', t);
    }
  }
}
