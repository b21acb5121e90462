/**
  The mining protocol: workers (`Worker::run`) that hash a local copy of the shared job with
  nonces drawn from one atomic counter, and the Stratum client that replaces the job, resets the
  counter and submits the shares the workers post.

  Worker and client steps interleave arbitrarily.  The hash is a parameter.
 */
module Mining {
  import opened Basics

  type Blob = seq<Byte>

  /** A hash, as eight 32-bit words. */
  type Digest = d: seq<nat> | |d| == 8 witness [0, 0, 0, 0, 0, 0, 0, 0]

  const NONCE_OFFSET := 39

  datatype Job = Job(id: string, target: nat, blob: Blob)

  const NO_JOB := Job("", 0, [])

  // ----- patching a nonce into a blob -----

  function LittleEndian32(n: nat): (b: Blob)
    ensures |b| == 4
  {
    [n % 256, n / 256 % 256, n / 65536 % 256, n / 16777216 % 256]
  }

  function Padded(blob: Blob, size: nat): (b: Blob)
    ensures |b| >= size && |b| >= |blob| && (|blob| >= size ==> b == blob)
    decreases size - |blob|
  {
    if |blob| >= size then blob else Padded(blob + [0x20], size)
  }

  /**
    `QByteArray::replace(39, 4, nonce)`: bytes 39 to 42 are overwritten.  A blob that is too short
    is cut at 39, filled up with blanks, and gets the nonce appended.
   */
  function Patch(blob: Blob, nonce: nat): (b: Blob)
    ensures |b| >= NONCE_OFFSET + 4
    ensures b[NONCE_OFFSET..NONCE_OFFSET + 4] == LittleEndian32(nonce)
    ensures |blob| >= NONCE_OFFSET + 4 ==>
              && |b| == |blob| && b[..NONCE_OFFSET] == blob[..NONCE_OFFSET]
              && b[NONCE_OFFSET + 4..] == blob[NONCE_OFFSET + 4..]
  {
    if |blob| >= NONCE_OFFSET + 4 then
      blob[..NONCE_OFFSET] + LittleEndian32(nonce) + blob[NONCE_OFFSET + 4..]
    else
      var head := Padded(if |blob| > NONCE_OFFSET then blob[..NONCE_OFFSET] else blob, NONCE_OFFSET);
      head[..NONCE_OFFSET] + LittleEndian32(nonce)
  }

  /** Patching again forgets the previous nonce, whatever the length of the blob. */
  lemma PatchOverwrites(blob: Blob, m: nat, n: nat)
    ensures Patch(Patch(blob, m), n) == Patch(blob, n)
  {
    var p := Patch(blob, m);
    if |blob| >= NONCE_OFFSET + 4 {
      assert p[..NONCE_OFFSET] == blob[..NONCE_OFFSET] && p[NONCE_OFFSET + 4..] == blob[NONCE_OFFSET + 4..];
    } else {
      var head := Padded(if |blob| > NONCE_OFFSET then blob[..NONCE_OFFSET] else blob, NONCE_OFFSET);
      assert p[..NONCE_OFFSET] == head[..NONCE_OFFSET] && p[NONCE_OFFSET + 4..] == [];
    }
  }

  // ----- the transition system -----

  datatype Phase = Idle | Ready | Drawn | Hashed

  /**
    The locals of one worker thread.  `origin`, `since` and `drawnIn` are history: the job as it
    was copied, the job period in which it was copied, and the period in which the nonce was drawn.
   */
  datatype Worker = Worker(phase: Phase, job: Job, nonce: nat, digest: Digest, origin: Job, since: nat, drawnIn: nat)

  /** A posted share, with the history of its worker. */
  datatype Share = Share(id: string, nonce: nat, digest: Digest, origin: Job, since: nat, drawnIn: nat)

  /**
    `writing` is the time between the assignment of the job and the reset of the counter, while
    the client holds the write lock.  `issued`, `period`, `draws` and `under` are history: the jobs
    received, the number of counter resets, the nonces drawn since the last one, and for each sent
    share the job that was current then.
   */
  datatype State = State(
    current: Job,
    nonce: nat,
    writing: bool,
    workers: map<nat, Worker>,
    posts: seq<Share>,
    sent: seq<Share>,
    under: seq<Job>,
    issued: seq<Job>,
    period: nat,
    draws: nat)

  datatype Step =
    | StartWorker(w: nat)
    | StopWorker(w: nat)
    | ReadJob(w: nat)
    | Draw(w: nat)
    | ComputeHash(w: nat)
    | Report(w: nat)
    | SetJob(job: Job)
    | ResetNonce
    | StopClient
    | Submit

  const FRESH_WORKER := Worker(Idle, NO_JOB, 0, [0, 0, 0, 0, 0, 0, 0, 0], NO_JOB, 0, 0)

  predicate In(s: State, w: nat, phase: Phase) {
    w in s.workers && s.workers[w].phase == phase
  }

  predicate Enabled(s: State, step: Step) {
    match step
    case StartWorker(w) => w !in s.workers
    case StopWorker(w) => In(s, w, Idle)
    case ReadJob(w) => In(s, w, Idle) && !s.writing
    case Draw(w) => In(s, w, Ready)
    case ComputeHash(w) => In(s, w, Drawn)
    case Report(w) => In(s, w, Hashed)
    case SetJob(job) => !s.writing && job.id != ""
    case ResetNonce => s.writing
    case StopClient => !s.writing
    case Submit => !s.writing && s.posts != []
  }

  function With(s: State, w: nat, k: Worker): State {
    s.(workers := s.workers[w := k])
  }

  function ShareOf(k: Worker): Share {
    Share(k.job.id, k.nonce, k.digest, k.origin, k.since, k.drawnIn)
  }

  function Apply(hash: Blob -> Digest, s: State, step: Step): State
    requires Enabled(s, step)
  {
    match step
    case StartWorker(w) => With(s, w, FRESH_WORKER)
    case StopWorker(w) => s.(workers := s.workers - {w})
    case ReadJob(w) =>
      var k := s.workers[w];
      if s.current.id == "" then s
      else if k.job.id != s.current.id then
        With(s, w, k.(phase := Ready, job := s.current, origin := s.current, since := s.period))
      else With(s, w, k.(phase := Ready))
    case Draw(w) =>
      var n := (s.nonce + 1) % TWO_TO_32;
      With(s.(nonce := n, draws := s.draws + 1), w, s.workers[w].(phase := Drawn, nonce := n, drawnIn := s.period))
    case ComputeHash(w) =>
      var k := s.workers[w];
      var blob := Patch(k.job.blob, k.nonce);
      With(s, w, k.(phase := Hashed, job := k.job.(blob := blob), digest := hash(blob)))
    case Report(w) =>
      var k := s.workers[w];
      var s1 := With(s, w, k.(phase := Idle));
      if k.digest[7] < k.job.target then s1.(posts := s.posts + [ShareOf(k)]) else s1
    case SetJob(job) => s.(current := job, writing := true, issued := s.issued + [job])
    case ResetNonce => s.(nonce := 0, writing := false, period := s.period + 1, draws := 0)
    case StopClient => s.(current := NO_JOB)
    case Submit =>
      var rest := s.(posts := s.posts[1..]);
      if s.current.id != s.posts[0].id then rest
      else rest.(sent := s.sent + [s.posts[0]], under := s.under + [s.current])
  }

  predicate Init(s: State) {
    s == State(NO_JOB, 0, false, map[], [], [], [], [], 0, 0)
  }

  datatype Run = Run(states: seq<State>, steps: seq<Step>)

  ghost predicate IsRun(hash: Blob -> Digest, run: Run) {
    && |run.states| == |run.steps| + 1
    && Init(run.states[0])
    && forall i :: 0 <= i < |run.steps| ==>
         Enabled(run.states[i], run.steps[i]) && run.states[i + 1] == Apply(hash, run.states[i], run.steps[i])
  }

  // ----- every share is a solution of a job with its id -----

  /** The local blob differs from the copied one at most by patched nonces. */
  ghost predicate PatchedFrom(blob: Blob, origin: Blob) {
    blob == origin || exists n: nat :: blob == Patch(origin, n)
  }

  ghost predicate WorkerSound(hash: Blob -> Digest, issued: seq<Job>, k: Worker) {
    && k.job.id == k.origin.id && k.job.target == k.origin.target && PatchedFrom(k.job.blob, k.origin.blob)
    && (k.job.id != "" ==> k.origin in issued)
    && (!k.phase.Idle? ==> k.job.id != "")
    && (k.phase.Hashed? ==> k.digest == hash(Patch(k.origin.blob, k.nonce)))
  }

  /** `share` solves the job it was computed from, and that job was issued under its id. */
  ghost predicate ShareSound(hash: Blob -> Digest, issued: seq<Job>, share: Share) {
    && share.id == share.origin.id && share.id != "" && share.origin in issued
    && share.digest == hash(Patch(share.origin.blob, share.nonce))
    && share.digest[7] < share.origin.target
  }

  ghost predicate Sound(hash: Blob -> Digest, s: State) {
    && (s.current.id != "" ==> s.current in s.issued)
    && (forall w :: w in s.workers ==> WorkerSound(hash, s.issued, s.workers[w]))
    && (forall i :: 0 <= i < |s.posts| ==> ShareSound(hash, s.issued, s.posts[i]))
    && (forall i :: 0 <= i < |s.sent| ==> ShareSound(hash, s.issued, s.sent[i]))
    && |s.under| == |s.sent|
    && (forall i :: 0 <= i < |s.sent| ==> s.under[i].id == s.sent[i].id && s.under[i] in s.issued)
  }

  lemma PatchOfPatched(blob: Blob, origin: Blob, nonce: nat)
    requires PatchedFrom(blob, origin)
    ensures Patch(blob, nonce) == Patch(origin, nonce)
  {
    if blob != origin {
      var n: nat :| blob == Patch(origin, n);
      PatchOverwrites(origin, n, nonce);
    }
  }

  lemma WorkerStepKeepsSound(hash: Blob -> Digest, s: State, w: nat, k: Worker)
    requires Sound(hash, s) && WorkerSound(hash, s.issued, k)
    ensures Sound(hash, With(s, w, k))
  {
  }

  lemma ReadJobKeepsSound(hash: Blob -> Digest, s: State, w: nat)
    requires Enabled(s, ReadJob(w)) && Sound(hash, s)
    ensures Sound(hash, Apply(hash, s, ReadJob(w)))
  {
    if s.current.id != "" {
      WorkerStepKeepsSound(hash, s, w, Apply(hash, s, ReadJob(w)).workers[w]);
    }
  }

  lemma DrawKeepsSound(hash: Blob -> Digest, s: State, w: nat)
    requires Enabled(s, Draw(w)) && Sound(hash, s)
    ensures Sound(hash, Apply(hash, s, Draw(w)))
  {
    var n := (s.nonce + 1) % TWO_TO_32;
    WorkerStepKeepsSound(hash, s.(nonce := n, draws := s.draws + 1), w,
                         s.workers[w].(phase := Drawn, nonce := n, drawnIn := s.period));
  }

  lemma ComputeHashKeepsSound(hash: Blob -> Digest, s: State, w: nat)
    requires Enabled(s, ComputeHash(w)) && Sound(hash, s)
    ensures Sound(hash, Apply(hash, s, ComputeHash(w)))
  {
    var k := s.workers[w];
    PatchOfPatched(k.job.blob, k.origin.blob, k.nonce);
    var blob := Patch(k.job.blob, k.nonce);
    assert PatchedFrom(blob, k.origin.blob);
    WorkerStepKeepsSound(hash, s, w, k.(phase := Hashed, job := k.job.(blob := blob), digest := hash(blob)));
  }

  lemma ReportKeepsSound(hash: Blob -> Digest, s: State, w: nat)
    requires Enabled(s, Report(w)) && Sound(hash, s)
    ensures Sound(hash, Apply(hash, s, Report(w)))
  {
    var k := s.workers[w];
    WorkerStepKeepsSound(hash, s, w, k.(phase := Idle));
    assert k.digest[7] < k.job.target ==> ShareSound(hash, s.issued, ShareOf(k));
  }

  lemma SetJobKeepsSound(hash: Blob -> Digest, s: State, job: Job)
    requires Enabled(s, SetJob(job)) && Sound(hash, s)
    ensures Sound(hash, Apply(hash, s, SetJob(job)))
  {
    var s' := Apply(hash, s, SetJob(job));
    assert forall j :: j in s.issued ==> j in s'.issued;
    assert job == s'.issued[|s.issued|];
  }

  lemma SubmitKeepsSound(hash: Blob -> Digest, s: State)
    requires Enabled(s, Submit) && Sound(hash, s)
    ensures Sound(hash, Apply(hash, s, Submit))
  {
  }

  lemma StepKeepsSound(hash: Blob -> Digest, s: State, step: Step)
    requires Enabled(s, step) && Sound(hash, s)
    ensures Sound(hash, Apply(hash, s, step))
  {
    match step
    case StartWorker(w) => WorkerStepKeepsSound(hash, s, w, FRESH_WORKER);
    case StopWorker(w) =>
    case ReadJob(w) => ReadJobKeepsSound(hash, s, w);
    case Draw(w) => DrawKeepsSound(hash, s, w);
    case ComputeHash(w) => ComputeHashKeepsSound(hash, s, w);
    case Report(w) => ReportKeepsSound(hash, s, w);
    case SetJob(job) => SetJobKeepsSound(hash, s, job);
    case ResetNonce =>
    case StopClient =>
    case Submit => SubmitKeepsSound(hash, s);
  }

  lemma {:induction false} RunKeepsSound(hash: Blob -> Digest, run: Run, n: nat)
    requires IsRun(hash, run) && n < |run.states|
    ensures Sound(hash, run.states[n])
  {
    if n > 0 {
      RunKeepsSound(hash, run, n - 1);
      StepKeepsSound(hash, run.states[n - 1], run.steps[n - 1]);
    }
  }

  /** Every share sent solves some job issued under its id, and names the job current at submission. */
  lemma SharesSolveIssuedJobs(hash: Blob -> Digest, run: Run, n: nat, k: nat)
    requires IsRun(hash, run) && n < |run.states| && k < |run.states[n].sent|
    ensures var s := run.states[n];
            && |s.under| == |s.sent| && s.under[k].id == s.sent[k].id != ""
            && exists job :: job in s.issued && job.id == s.sent[k].id
                 && s.sent[k].digest == hash(Patch(job.blob, s.sent[k].nonce)) && s.sent[k].digest[7] < job.target
  {
    RunKeepsSound(hash, run, n);
    assert ShareSound(hash, run.states[n].issued, run.states[n].sent[k]);
  }

  /** `share` solves `job`. */
  predicate Solves(hash: Blob -> Digest, share: Share, job: Job) {
    share.digest == hash(Patch(job.blob, share.nonce)) && share.digest[7] < job.target
  }

  /** What solves `a` solves `b`: `a` cannot be solved, or both differ at most in their nonces and `b` is no harder. */
  predicate SolvedBy(a: Job, b: Job) {
    a.target == 0 || (Patch(a.blob, 1) == Patch(b.blob, 1) && a.target <= b.target)
  }

  /** Jobs under the same id are solved by the same shares. */
  ghost predicate IdsDetermineWork(jobs: iset<Job>) {
    forall a, b :: a in jobs && b in jobs && a.id == b.id != "" ==> SolvedBy(a, b)
  }

  ghost predicate Issues(jobs: iset<Job>, issued: seq<Job>) {
    forall i :: 0 <= i < |issued| ==> issued[i] in jobs
  }

  lemma SolvedByCarries(hash: Blob -> Digest, share: Share, a: Job, b: Job)
    requires SolvedBy(a, b) && Solves(hash, share, a)
    ensures Solves(hash, share, b)
  {
    PatchOverwrites(a.blob, 1, share.nonce);
    PatchOverwrites(b.blob, 1, share.nonce);
  }

  /** If ids determine the work, every share sent solves the very job that was current when it was sent. */
  lemma SharesSolveCurrentJob(hash: Blob -> Digest, jobs: iset<Job>, run: Run, n: nat, k: nat)
    requires IsRun(hash, run) && n < |run.states| && k < |run.states[n].sent|
    requires IdsDetermineWork(jobs) && Issues(jobs, run.states[n].issued)
    ensures var s := run.states[n];
            |s.under| == |s.sent| && s.under[k].id == s.sent[k].id && Solves(hash, s.sent[k], s.under[k])
  {
    RunKeepsSound(hash, run, n);
    var s := run.states[n];
    assert ShareSound(hash, s.issued, s.sent[k]);
    SolvedByCarries(hash, s.sent[k], s.sent[k].origin, s.under[k]);
  }

  // ----- a reused job id spoils that -----

  function Last(run: Run): State
    requires run.states != []
  {
    run.states[|run.states| - 1]
  }

  /** Up to state `n`, at most `d` nonces are drawn between two resets of the counter. */
  ghost predicate DrawsAtMost(run: Run, n: nat, d: nat) {
    forall i :: 0 <= i <= n && i < |run.states| ==> run.states[i].draws <= d
  }

  /** A run that never draws more than `d` nonces between two resets. */
  ghost predicate BoundedRun(hash: Blob -> Digest, run: Run, d: nat) {
    IsRun(hash, run) && DrawsAtMost(run, |run.steps|, d)
  }

  lemma Extend(hash: Blob -> Digest, run: Run, step: Step, d: nat) returns (longer: Run)
    requires BoundedRun(hash, run, d) && Enabled(Last(run), step) && Apply(hash, Last(run), step).draws <= d
    ensures BoundedRun(hash, longer, d) && Last(longer) == Apply(hash, Last(run), step)
  {
    longer := Run(run.states + [Apply(hash, Last(run), step)], run.steps + [step]);
  }

  function Holder(job: Job, since: nat): Worker {
    FRESH_WORKER.(phase := Ready, job := job, origin := job, since := since)
  }

  /** Nothing received and nothing sent, and one worker waiting for a job. */
  const WAITING := State(NO_JOB, 0, false, map[0 := FRESH_WORKER], [], [], [], [], 0, 0)

  lemma WaitingRun(hash: Blob -> Digest, d: nat) returns (run: Run)
    ensures BoundedRun(hash, run, d) && Last(run) == WAITING
  {
    run := Run([State(NO_JOB, 0, false, map[], [], [], [], [], 0, 0)], []);
    run := Extend(hash, run, StartWorker(0), d);
  }

  /** The state after the pool has issued `job`. */
  function Received(s: State, job: Job): State {
    s.(current := job, nonce := 0, issued := s.issued + [job], period := s.period + 1, draws := 0)
  }

  lemma ReceivesJob(hash: Blob -> Digest, start: Run, job: Job, d: nat) returns (run: Run)
    requires BoundedRun(hash, start, d) && !Last(start).writing && job.id != ""
    ensures BoundedRun(hash, run, d)
    ensures Last(run) == Received(Last(start), job)
  {
    run := Extend(hash, start, SetJob(job), d);
    run := Extend(hash, run, ResetNonce, d);
  }

  /** The only worker copies the current job. */
  lemma CopiesJob(hash: Blob -> Digest, start: Run, d: nat) returns (run: Run)
    requires BoundedRun(hash, start, d) && !Last(start).writing && Last(start).workers == map[0 := FRESH_WORKER]
    requires Last(start).current.id != ""
    ensures BoundedRun(hash, run, d)
    ensures Last(run) == Last(start).(workers := map[0 := Holder(Last(start).current, Last(start).period)])
  {
    run := Extend(hash, start, ReadJob(0), d);
  }

  /** The worker after it has hashed its blob with nonce `n`, drawn in the given period. */
  function AfterHash(hash: Blob -> Digest, k: Worker, n: nat, period: nat): Worker {
    var blob := Patch(k.job.blob, n);
    k.(phase := Hashed, job := k.job.(blob := blob), nonce := n, digest := hash(blob), drawnIn := period)
  }

  lemma HashesOne(hash: Blob -> Digest, start: Run, k: Worker, d: nat) returns (run: Run)
    requires BoundedRun(hash, start, d) && Last(start).draws < d && Last(start).workers == map[0 := k] && k.phase.Ready?
    ensures BoundedRun(hash, run, d)
    ensures var s := Last(start); var n := (s.nonce + 1) % TWO_TO_32;
            Last(run) == s.(nonce := n, draws := s.draws + 1, workers := map[0 := AfterHash(hash, k, n, s.period)])
  {
    run := Extend(hash, start, Draw(0), d);
    run := Extend(hash, run, ComputeHash(0), d);
  }

  lemma SendsOne(hash: Blob -> Digest, start: Run, k: Worker, d: nat) returns (run: Run)
    requires BoundedRun(hash, start, d) && Last(start).workers == map[0 := k] && k.phase.Hashed?
    requires k.digest[7] < k.job.target && Last(start).current.id == k.job.id
    requires !Last(start).writing && Last(start).posts == []
    ensures BoundedRun(hash, run, d)
    ensures var s := Last(start);
            Last(run) == s.(workers := map[0 := k.(phase := Idle)], sent := s.sent + [ShareOf(k)],
                            under := s.under + [s.current])
  {
    run := Extend(hash, start, Report(0), d);
    run := Extend(hash, run, Submit, d);
  }

  /** The state after the only worker has sent a share for the job it holds. */
  function Sent(hash: Blob -> Digest, s: State, k: Worker): State {
    var n := (s.nonce + 1) % TWO_TO_32;
    var k' := AfterHash(hash, k, n, s.period);
    s.(nonce := n, draws := s.draws + 1, workers := map[0 := k'.(phase := Idle)],
       sent := s.sent + [ShareOf(k')], under := s.under + [s.current])
  }

  lemma SendsShare(hash: Blob -> Digest, start: Run, k: Worker, d: nat) returns (run: Run)
    requires BoundedRun(hash, start, d) && Last(start).draws < d && Last(start).workers == map[0 := k] && k.phase.Ready?
    requires !Last(start).writing && Last(start).posts == [] && Last(start).current.id == k.job.id
    requires hash(Patch(k.job.blob, (Last(start).nonce + 1) % TWO_TO_32))[7] < k.job.target
    ensures BoundedRun(hash, run, d) && Last(run) == Sent(hash, Last(start), k)
  {
    var s := Last(start);
    run := HashesOne(hash, start, k, d);
    run := SendsOne(hash, run, AfterHash(hash, k, (s.nonce + 1) % TWO_TO_32, s.period), d);
  }

  /** The worker holds a job when the pool issues another job under the same id. */
  lemma StaleWorkerRun(hash: Blob -> Digest, stale: Job, renewed: Job) returns (run: Run)
    requires stale.id == renewed.id != ""
    ensures BoundedRun(hash, run, 1)
    ensures Last(run) == State(renewed, 0, false, map[0 := Holder(stale, 1)], [], [], [], [stale, renewed], 2, 0)
  {
    run := WaitingRun(hash, 1);
    run := ReceivesJob(hash, run, stale, 1);
    run := CopiesJob(hash, run, 1);
    run := ReceivesJob(hash, run, renewed, 1);
  }

  /** The share then sent under the new job is a hash of the old job's blob. */
  lemma StaleShareRun(hash: Blob -> Digest, stale: Job, renewed: Job) returns (run: Run)
    requires stale.id == renewed.id != "" && hash(Patch(stale.blob, 1))[7] < stale.target
    ensures IsRun(hash, run) && Last(run).issued == [stale, renewed]
    ensures |Last(run).sent| == 1 && Last(run).under == [renewed]
    ensures Last(run).sent[0].nonce == 1 && Last(run).sent[0].digest == hash(Patch(stale.blob, 1))
  {
    run := StaleWorkerRun(hash, stale, renewed);
    run := SendsShare(hash, run, Holder(stale, 1), 1);
  }

  /** The digest with the given last word. */
  function DigestEnding(n: nat): (d: Digest)
    ensures d[7] == n
  {
    [0, 0, 0, 0, 0, 0, 0, n]
  }

  /** Unless what solves the old job solves the new one, some run sends a share that does not solve the current job. */
  lemma ReusedIdMislabels(stale: Job, renewed: Job) returns (hash: Blob -> Digest, run: Run)
    requires stale.id == renewed.id != "" && !SolvedBy(stale, renewed)
    ensures IsRun(hash, run) && Last(run).issued == [stale, renewed]
    ensures |Last(run).sent| == 1 && Last(run).under == [renewed]
    ensures !Solves(hash, Last(run).sent[0], renewed)
  {
    var blob := Patch(stale.blob, 1);
    if blob == Patch(renewed.blob, 1) {
      hash := b => DigestEnding(renewed.target);
    } else {
      hash := b => if b == blob then DigestEnding(0) else DigestEnding(1);
    }
    run := StaleShareRun(hash, stale, renewed);
  }

  ghost predicate SolvesCurrent(hash: Blob -> Digest, s: State, k: nat) {
    k < |s.sent| ==> k < |s.under| && Solves(hash, s.sent[k], s.under[k])
  }

  /** In every run that issues only these jobs, whatever the hash, every share solves the job it was sent under. */
  ghost predicate AlwaysSolvesCurrent(jobs: iset<Job>) {
    forall hash: Blob -> Digest, run: Run, n: nat, k: nat ::
      IsRun(hash, run) && n < |run.states| && Issues(jobs, run.states[n].issued) ==>
        SolvesCurrent(hash, run.states[n], k)
  }

  /** Shares always solve the current job if and only if the pool reuses ids for the same work only. */
  lemma SharesSolveCurrentIff(jobs: iset<Job>)
    ensures AlwaysSolvesCurrent(jobs) <==> IdsDetermineWork(jobs)
  {
    if IdsDetermineWork(jobs) {
      forall hash: Blob -> Digest, run: Run, n: nat, k: nat |
        IsRun(hash, run) && n < |run.states| && Issues(jobs, run.states[n].issued)
        ensures SolvesCurrent(hash, run.states[n], k)
      {
        if k < |run.states[n].sent| {
          SharesSolveCurrentJob(hash, jobs, run, n, k);
        }
      }
    } else {
      var a, b :| a in jobs && b in jobs && a.id == b.id != "" && !SolvedBy(a, b);
      var hash, run := ReusedIdMislabels(a, b);
      var n := |run.states| - 1;
      assert Issues(jobs, run.states[n].issued);
      assert !SolvesCurrent(hash, run.states[n], 0);
    }
  }

  // ----- no share is submitted twice -----

  predicate Holding(k: Worker) {
    k.phase.Drawn? || k.phase.Hashed?
  }

  /** Shares sent or about to be sent, in order. */
  function Pipeline(s: State): seq<Share> {
    s.sent + s.posts
  }

  predicate SameDraw(p: nat, n: nat, q: nat, m: nat) {
    p == q && n == m
  }

  /** A nonce drawn in period `p` that the counter has passed. */
  predicate Passed(s: State, p: nat, n: nat) {
    p < s.period || (p == s.period && if n == 0 then s.draws >= TWO_TO_32 else n <= s.draws)
  }

  /** The job a worker copied in period `since` is the one issued as number `since`. */
  predicate CopiedIn(s: State, origin: Job, since: nat) {
    1 <= since <= s.period && since <= |s.issued| && s.issued[since - 1] == origin
  }

  /** Period numbers follow the jobs issued, and the counter counts the draws. */
  ghost predicate Numbered(s: State) {
    && |s.issued| == s.period + (if s.writing then 1 else 0)
    && (s.draws < TWO_TO_32 ==> s.nonce == s.draws)
    && (s.current == NO_JOB || (|s.issued| > 0 && s.current == s.issued[|s.issued| - 1]))
    && (forall i :: 0 <= i < |s.issued| ==> s.issued[i].id != "")
  }

  ghost predicate WorkerTimely(s: State, k: Worker) {
    && (k.job.id != "" ==> CopiedIn(s, k.origin, k.since))
    && (Holding(k) ==> k.since <= k.drawnIn && Passed(s, k.drawnIn, k.nonce))
  }

  ghost predicate ShareTimely(s: State, share: Share) {
    CopiedIn(s, share.origin, share.since) && share.since <= share.drawnIn && Passed(s, share.drawnIn, share.nonce)
  }

  ghost predicate Timely(s: State) {
    && (forall w :: w in s.workers ==> WorkerTimely(s, s.workers[w]))
    && (forall i :: 0 <= i < |Pipeline(s)| ==> ShareTimely(s, Pipeline(s)[i]))
    && (forall i :: 0 <= i < |s.sent| ==> s.sent[i].drawnIn == s.sent[i].since)
  }

  /** No draw is carried twice: not by two shares, not by a share and a worker, not by two workers. */
  ghost predicate Differ(pipe: seq<Share>, workers: map<nat, Worker>) {
    && (forall i, j :: 0 <= i < j < |pipe| ==>
          !SameDraw(pipe[i].drawnIn, pipe[i].nonce, pipe[j].drawnIn, pipe[j].nonce))
    && (forall w, i :: w in workers && Holding(workers[w]) && 0 <= i < |pipe| ==>
          !SameDraw(workers[w].drawnIn, workers[w].nonce, pipe[i].drawnIn, pipe[i].nonce))
    && (forall v, w :: v in workers && w in workers && v != w && Holding(workers[v]) && Holding(workers[w]) ==>
          !SameDraw(workers[v].drawnIn, workers[v].nonce, workers[w].drawnIn, workers[w].nonce))
  }

  /** An id is used again only after jobs that cannot be solved. */
  ghost predicate NoReuse(issued: seq<Job>) {
    forall i, j :: 0 <= i < j < |issued| && issued[i].id == issued[j].id ==> issued[i].target == 0
  }

  /** `s'` is no earlier than `s`. */
  ghost predicate Later(s: State, s': State) {
    && s.issued <= s'.issued
    && (s.period < s'.period || (s.period == s'.period && s.draws <= s'.draws))
  }

  lemma WorkerStaysTimely(s: State, s': State, k: Worker)
    requires Later(s, s') && WorkerTimely(s, k)
    ensures WorkerTimely(s', k)
  {
  }

  lemma ShareStaysTimely(s: State, s': State, share: Share)
    requires Later(s, s') && ShareTimely(s, share)
    ensures ShareTimely(s', share)
  {
  }

  lemma StaysTimely(s: State, s': State)
    requires Later(s, s') && Timely(s)
    requires forall w :: w in s'.workers ==> w in s.workers && s'.workers[w] == s.workers[w]
    requires s'.posts == s.posts && s'.sent == s.sent
    ensures Timely(s')
  {
    forall w | w in s'.workers ensures WorkerTimely(s', s'.workers[w]) {
      WorkerStaysTimely(s, s', s.workers[w]);
    }
    forall i | 0 <= i < |Pipeline(s')| ensures ShareTimely(s', Pipeline(s')[i]) {
      ShareStaysTimely(s, s', Pipeline(s)[i]);
    }
  }

  lemma WithKeepsTimely(s: State, w: nat, k: Worker)
    requires Timely(s) && WorkerTimely(s, k)
    ensures Timely(With(s, w, k))
  {
    var s' := With(s, w, k);
    forall v | v in s'.workers ensures WorkerTimely(s', s'.workers[v]) {
      WorkerStaysTimely(s, s', s'.workers[v]);
    }
    forall i | 0 <= i < |Pipeline(s')| ensures ShareTimely(s', Pipeline(s')[i]) {
      ShareStaysTimely(s, s', Pipeline(s)[i]);
    }
  }

  ghost predicate Dated(s: State) {
    Numbered(s) && Timely(s) && Differ(Pipeline(s), s.workers)
  }

  ghost predicate Fresh(hash: Blob -> Digest, s: State) {
    Sound(hash, s) && Dated(s)
  }

  /** Steps that leave every draw where it is. */
  lemma QuietKeepsDated(hash: Blob -> Digest, s: State, step: Step)
    requires Enabled(s, step) && Dated(s)
    requires step.StopWorker? || step.SetJob? || step.ResetNonce? || step.StopClient?
    ensures Dated(Apply(hash, s, step))
  {
    var s' := Apply(hash, s, step);
    StaysTimely(s, s');
    assert Pipeline(s') == Pipeline(s);
  }

  /** A worker step that does not touch the worker's draw. */
  lemma WithKeepsDated(s: State, w: nat, k: Worker)
    requires Dated(s) && WorkerTimely(s, k)
    requires Holding(k) ==>
               && w in s.workers && Holding(s.workers[w])
               && s.workers[w].drawnIn == k.drawnIn && s.workers[w].nonce == k.nonce
    ensures Dated(With(s, w, k))
  {
    WithKeepsTimely(s, w, k);
    assert Pipeline(With(s, w, k)) == Pipeline(s);
  }

  lemma ReadJobKeepsDated(hash: Blob -> Digest, s: State, w: nat)
    requires Enabled(s, ReadJob(w)) && Dated(s)
    ensures Dated(Apply(hash, s, ReadJob(w)))
  {
    if s.current.id != "" {
      WithKeepsDated(s, w, Apply(hash, s, ReadJob(w)).workers[w]);
    }
  }

  /** A draw the counter has not passed is carried by nobody yet. */
  lemma NewDrawDiffers(s: State, w: nat, k: Worker)
    requires Timely(s) && Differ(Pipeline(s), s.workers) && !Passed(s, k.drawnIn, k.nonce)
    ensures Differ(Pipeline(s), s.workers[w := k])
  {
    forall i | 0 <= i < |Pipeline(s)|
      ensures !SameDraw(k.drawnIn, k.nonce, Pipeline(s)[i].drawnIn, Pipeline(s)[i].nonce)
    {
      assert ShareTimely(s, Pipeline(s)[i]);
    }
    forall v | v in s.workers && Holding(s.workers[v])
      ensures !SameDraw(s.workers[v].drawnIn, s.workers[v].nonce, k.drawnIn, k.nonce)
    {
      assert WorkerTimely(s, s.workers[v]);
    }
  }

  lemma DrawKeepsDated(hash: Blob -> Digest, s: State, w: nat)
    requires Enabled(s, Draw(w)) && Dated(s)
    requires s.draws < TWO_TO_32 && s.workers[w].job.id != ""
    ensures var s' := Apply(hash, s, Draw(w)); Dated(s')
  {
    var n := (s.nonce + 1) % TWO_TO_32;
    var k := s.workers[w].(phase := Drawn, nonce := n, drawnIn := s.period);
    var s1 := s.(nonce := n, draws := s.draws + 1);
    assert Apply(hash, s, Draw(w)) == With(s1, w, k);
    StaysTimely(s, s1);
    assert WorkerTimely(s1, s1.workers[w]);
    WithKeepsTimely(s1, w, k);
    NewDrawDiffers(s, w, k);
    assert Pipeline(With(s1, w, k)) == Pipeline(s);
  }

  lemma PostedDrawDiffers(pipe: seq<Share>, workers: map<nat, Worker>, w: nat, k: Worker)
    requires Differ(pipe, workers) && w in workers && Holding(workers[w]) && !Holding(k)
    ensures Differ(pipe + [ShareOf(workers[w])], workers[w := k])
  {
  }

  lemma PostKeepsTimely(s: State, share: Share)
    requires Timely(s) && ShareTimely(s, share)
    ensures Timely(s.(posts := s.posts + [share]))
  {
    var s' := s.(posts := s.posts + [share]);
    assert Pipeline(s') == Pipeline(s) + [share];
    forall i | 0 <= i < |Pipeline(s')| ensures ShareTimely(s', Pipeline(s')[i]) {
      ShareStaysTimely(s, s', Pipeline(s')[i]);
    }
    forall v | v in s'.workers ensures WorkerTimely(s', s'.workers[v]) {
      WorkerStaysTimely(s, s', s.workers[v]);
    }
  }

  lemma ReportKeepsDated(hash: Blob -> Digest, s: State, w: nat)
    requires Enabled(s, Report(w)) && Dated(s)
    requires s.workers[w].job.id != ""
    ensures var s' := Apply(hash, s, Report(w)); Dated(s')
  {
    var k := s.workers[w];
    var idle := k.(phase := Idle);
    var s1 := With(s, w, idle);
    assert WorkerTimely(s, k);
    WithKeepsDated(s, w, idle);
    if k.digest[7] < k.job.target {
      PostKeepsTimely(s1, ShareOf(k));
      PostedDrawDiffers(Pipeline(s), s.workers, w, idle);
      assert s.sent + (s.posts + [ShareOf(k)]) == Pipeline(s) + [ShareOf(k)];
    }
  }

  lemma DroppedDrawDiffers(pipe: seq<Share>, workers: map<nat, Worker>, k: nat)
    requires Differ(pipe, workers) && k < |pipe|
    ensures Differ(pipe[..k] + pipe[k + 1..], workers)
  {
  }

  lemma RejectKeepsDated(s: State)
    requires s.posts != [] && Dated(s)
    ensures var s' := s.(posts := s.posts[1..]); Dated(s')
  {
    var s' := s.(posts := s.posts[1..]);
    var n := |s.sent|;
    DroppedDrawDiffers(Pipeline(s), s.workers, n);
    assert Pipeline(s') == Pipeline(s)[..n] + Pipeline(s)[n + 1..];
    forall i | 0 <= i < |Pipeline(s')| ensures ShareTimely(s', Pipeline(s')[i]) {
      ShareStaysTimely(s, s', Pipeline(s)[if i < n then i else i + 1]);
    }
    forall v | v in s'.workers ensures WorkerTimely(s', s'.workers[v]) {
      WorkerStaysTimely(s, s', s.workers[v]);
    }
  }

  /** A share of the current job was drawn in the current period. */
  lemma AcceptedDrawIsCurrent(hash: Blob -> Digest, s: State)
    requires !s.writing && s.posts != [] && s.current.id == s.posts[0].id
    requires Numbered(s) && NoReuse(s.issued)
    requires ShareTimely(s, s.posts[0]) && ShareSound(hash, s.issued, s.posts[0])
    ensures s.posts[0].drawnIn == s.posts[0].since
  {
    assert s.issued[s.period - 1].id == s.issued[s.posts[0].since - 1].id;
  }

  lemma AcceptKeepsDated(s: State)
    requires s.posts != [] && Dated(s)
    requires s.posts[0].drawnIn == s.posts[0].since
    ensures var s' := s.(posts := s.posts[1..], sent := s.sent + [s.posts[0]], under := s.under + [s.current]);
            Dated(s')
  {
    var s' := s.(posts := s.posts[1..], sent := s.sent + [s.posts[0]], under := s.under + [s.current]);
    assert Pipeline(s') == Pipeline(s);
    forall i | 0 <= i < |Pipeline(s')| ensures ShareTimely(s', Pipeline(s')[i]) {
      ShareStaysTimely(s, s', Pipeline(s)[i]);
    }
    forall v | v in s'.workers ensures WorkerTimely(s', s'.workers[v]) {
      WorkerStaysTimely(s, s', s.workers[v]);
    }
  }

  lemma SubmitKeepsDated(hash: Blob -> Digest, s: State)
    requires Enabled(s, Submit) && Fresh(hash, s) && NoReuse(s.issued)
    ensures Dated(Apply(hash, s, Submit))
  {
    if s.current.id == s.posts[0].id {
      assert Pipeline(s)[|s.sent|] == s.posts[0];
      AcceptedDrawIsCurrent(hash, s);
      AcceptKeepsDated(s);
    } else {
      RejectKeepsDated(s);
    }
  }

  lemma ComputeHashKeepsDated(hash: Blob -> Digest, s: State, w: nat)
    requires Enabled(s, ComputeHash(w)) && Dated(s)
    ensures Dated(Apply(hash, s, ComputeHash(w)))
  {
    assert WorkerTimely(s, s.workers[w]);
    WithKeepsDated(s, w, Apply(hash, s, ComputeHash(w)).workers[w]);
  }

  lemma StepKeepsFresh(hash: Blob -> Digest, s: State, step: Step)
    requires Enabled(s, step) && Fresh(hash, s) && NoReuse(s.issued)
    requires Apply(hash, s, step).draws <= TWO_TO_32
    ensures Fresh(hash, Apply(hash, s, step))
  {
    StepKeepsSound(hash, s, step);
    match step
    case StartWorker(w) => WithKeepsDated(s, w, FRESH_WORKER);
    case ReadJob(w) => ReadJobKeepsDated(hash, s, w);
    case Draw(w) => DrawKeepsDated(hash, s, w);
    case ComputeHash(w) => ComputeHashKeepsDated(hash, s, w);
    case Report(w) => ReportKeepsDated(hash, s, w);
    case Submit => SubmitKeepsDated(hash, s);
    case _ => QuietKeepsDated(hash, s, step);
  }

  lemma {:induction false} IssuedGrows(hash: Blob -> Digest, run: Run, m: nat, n: nat)
    requires IsRun(hash, run) && m <= n < |run.states|
    ensures run.states[m].issued <= run.states[n].issued
    decreases n
  {
    if m < n {
      IssuedGrows(hash, run, m, n - 1);
    }
  }

  lemma NextIsFresh(hash: Blob -> Digest, run: Run, n: nat)
    requires IsRun(hash, run) && n < |run.steps| && Fresh(hash, run.states[n])
    requires NoReuse(run.states[n].issued) && run.states[n + 1].draws <= TWO_TO_32
    ensures Fresh(hash, run.states[n + 1])
  {
    StepKeepsFresh(hash, run.states[n], run.steps[n]);
  }

  lemma NoReuseBefore(issued: seq<Job>, more: seq<Job>)
    requires issued <= more && NoReuse(more)
    ensures NoReuse(issued)
  {
  }

  lemma {:induction false} RunKeepsFresh(hash: Blob -> Digest, run: Run, n: nat)
    requires IsRun(hash, run) && n < |run.states| && NoReuse(run.states[n].issued)
    requires DrawsAtMost(run, n, TWO_TO_32)
    ensures Fresh(hash, run.states[n])
  {
    if n > 0 {
      IssuedGrows(hash, run, n - 1, n);
      NoReuseBefore(run.states[n - 1].issued, run.states[n].issued);
      RunKeepsFresh(hash, run, n - 1);
      NextIsFresh(hash, run, n - 1);
    }
  }

  /** Two sent shares carry the same job id and nonce. */
  predicate SentTwice(s: State, j: nat, k: nat) {
    j < k < |s.sent| && s.sent[j].id == s.sent[k].id && s.sent[j].nonce == s.sent[k].nonce
  }

  /**
    If the pool reuses an id only after jobs that cannot be solved, and at most 2^32 nonces are drawn
    between two counter resets, no pair of job id and nonce is sent twice.
   */
  lemma NoShareSentTwice(hash: Blob -> Digest, run: Run, n: nat, j: nat, k: nat)
    requires IsRun(hash, run) && n < |run.states| && NoReuse(run.states[n].issued)
    requires DrawsAtMost(run, n, TWO_TO_32)
    ensures !SentTwice(run.states[n], j, k)
  {
    RunKeepsFresh(hash, run, n);
    var s := run.states[n];
    if j < k < |s.sent| {
      assert Pipeline(s)[j] == s.sent[j] && Pipeline(s)[k] == s.sent[k];
      assert ShareTimely(s, Pipeline(s)[j]) && ShareTimely(s, Pipeline(s)[k]);
      assert ShareSound(hash, s.issued, s.sent[j]) && ShareSound(hash, s.issued, s.sent[k]);
    }
  }

  // ----- and when they are -----

  ghost predicate HaveIds(jobs: seq<Job>) {
    forall i :: 0 <= i < |jobs| ==> jobs[i].id != ""
  }

  /** The pool issues a list of jobs while the workers stand still. */
  lemma {:induction false} ReceivesJobs(hash: Blob -> Digest, start: Run, jobs: seq<Job>, d: nat) returns (run: Run)
    requires BoundedRun(hash, start, d) && !Last(start).writing && HaveIds(jobs)
    ensures BoundedRun(hash, run, d)
    ensures var s, s' := Last(start), Last(run);
            && s'.issued == s.issued + jobs && s'.workers == s.workers && s'.posts == s.posts && s'.sent == s.sent
            && !s'.writing && (jobs != [] ==> s'.current == jobs[|jobs| - 1] && s'.nonce == 0 && s'.draws == 0)
    decreases |jobs|
  {
    if jobs == [] {
      run := start;
    } else {
      var n := |jobs| - 1;
      run := ReceivesJobs(hash, start, jobs[..n], d);
      run := ReceivesJob(hash, run, jobs[n], d);
      SeqAssoc(Last(start).issued, jobs[..n], [jobs[n]]);
      assert jobs == jobs[..n] + [jobs[n]];
    }
  }

  /** A worker that holds a job with the id of the current one goes on with it. */
  lemma KeepsJob(hash: Blob -> Digest, start: Run, k: Worker, d: nat) returns (run: Run)
    requires BoundedRun(hash, start, d) && !Last(start).writing && Last(start).workers == map[0 := k] && k.phase.Idle?
    requires Last(start).current.id == k.job.id != ""
    ensures BoundedRun(hash, run, d)
    ensures Last(run) == Last(start).(workers := map[0 := k.(phase := Ready)])
  {
    run := Extend(hash, start, ReadJob(0), d);
  }

  /** The jobs are issued, and a worker copies the last one. */
  lemma CopiesLast(hash: Blob -> Digest, jobs: seq<Job>, d: nat) returns (run: Run)
    requires jobs != [] && HaveIds(jobs)
    ensures BoundedRun(hash, run, d)
    ensures var s := Last(run); var job := jobs[|jobs| - 1];
            && s.issued == jobs && s.current == job && s.workers == map[0 := Holder(job, s.period)]
            && s.nonce == 0 && s.draws == 0 && !s.writing && s.posts == [] && s.sent == []
  {
    run := WaitingRun(hash, d);
    run := ReceivesJobs(hash, run, jobs, d);
    run := CopiesJob(hash, run, d);
  }

  /** A share for the last of the jobs issued so far. */
  lemma FirstShare(hash: Blob -> Digest, jobs: seq<Job>, d: nat) returns (run: Run, k: Worker)
    requires jobs != [] && HaveIds(jobs) && (forall b :: hash(b)[7] == 0) && jobs[|jobs| - 1].target > 0
    requires d > 0
    ensures BoundedRun(hash, run, d) && !Last(run).writing && Last(run).posts == [] && Last(run).draws == 1
    ensures Last(run).issued == jobs && Last(run).current == jobs[|jobs| - 1] && Last(run).nonce == 1
    ensures Last(run).workers == map[0 := k] && k.phase.Idle?
    ensures k.job.id == jobs[|jobs| - 1].id && k.job.target == jobs[|jobs| - 1].target
    ensures |Last(run).sent| == 1 && Last(run).sent[0].id == k.job.id && Last(run).sent[0].nonce == 1
  {
    run := CopiesLast(hash, jobs, d);
    var s := Last(run);
    var holder := Holder(s.current, s.period);
    run := SendsShare(hash, run, holder, d);
    k := AfterHash(hash, holder, 1, s.period).(phase := Idle);
  }

  /** Its worker sends the nonce again once a later job has the same id. */
  lemma SecondShare(hash: Blob -> Digest, start: Run, k: Worker, more: seq<Job>, d: nat) returns (run: Run)
    requires BoundedRun(hash, start, d) && d > 0 && !Last(start).writing && Last(start).posts == []
    requires Last(start).workers == map[0 := k] && k.phase.Idle? && k.job.target > 0
    requires more != [] && HaveIds(more) && (forall b :: hash(b)[7] == 0) && more[|more| - 1].id == k.job.id
    ensures BoundedRun(hash, run, d) && Last(run).issued == Last(start).issued + more
    ensures |Last(run).sent| == |Last(start).sent| + 1 && Last(start).sent <= Last(run).sent
    ensures var share := Last(run).sent[|Last(start).sent|]; share.id == k.job.id && share.nonce == 1
  {
    run := ReceivesJobs(hash, start, more, d);
    run := KeepsJob(hash, run, k, d);
    run := SendsShare(hash, run, k.(phase := Ready), d);
  }

  lemma ReusedIdRepeats(jobs: seq<Job>, i: nat, j: nat, d: nat) returns (hash: Blob -> Digest, run: Run)
    requires HaveIds(jobs) && i < j < |jobs| && jobs[i].id == jobs[j].id && jobs[i].target > 0 && d > 0
    ensures BoundedRun(hash, run, d) && Last(run).issued == jobs[..j + 1]
    ensures SentTwice(Last(run), 0, 1)
  {
    hash := b => DigestEnding(0);
    var first, more := jobs[..i + 1], jobs[i + 1..j + 1];
    var k;
    run, k := FirstShare(hash, first, d);
    run := SecondShare(hash, run, k, more, d);
    assert first + more == jobs[..j + 1];
  }

  /** One worker has sent `count` shares for the last of `jobs`, with consecutive nonces. */
  ghost predicate Series(s: State, jobs: seq<Job>, k: Worker, count: nat) {
    && jobs != [] && s.issued == jobs && s.current == jobs[|jobs| - 1]
    && !s.writing && s.posts == [] && s.workers == map[0 := k]
    && k.phase.Idle? && k.job.id == s.current.id && k.job.target == s.current.target
    && s.nonce == count % TWO_TO_32 && s.draws == count && |s.sent| == count
    && (forall m :: 0 <= m < count ==> s.sent[m].id == s.current.id && s.sent[m].nonce == (m + 1) % TWO_TO_32)
  }

  lemma CountNext(n: nat)
    ensures (n % TWO_TO_32 + 1) % TWO_TO_32 == (n + 1) % TWO_TO_32
  {
  }

  lemma SeriesNext(hash: Blob -> Digest, start: Run, jobs: seq<Job>, k: Worker, count: nat, d: nat)
    returns (run: Run, k': Worker)
    requires BoundedRun(hash, start, d) && Series(Last(start), jobs, k, count)
    requires HaveIds(jobs) && jobs[|jobs| - 1].target > 0 && (forall b :: hash(b)[7] == 0) && count < d
    ensures BoundedRun(hash, run, d) && Series(Last(run), jobs, k', count + 1)
  {
    run := KeepsJob(hash, start, k, d);
    var s := Last(run);
    run := SendsShare(hash, run, k.(phase := Ready), d);
    CountNext(count);
    k' := AfterHash(hash, k.(phase := Ready), (s.nonce + 1) % TWO_TO_32, s.period).(phase := Idle);
  }

  lemma {:induction false} ManyShares(hash: Blob -> Digest, jobs: seq<Job>, count: nat, d: nat)
    returns (run: Run, k: Worker)
    requires jobs != [] && HaveIds(jobs) && jobs[|jobs| - 1].target > 0 && forall b :: hash(b)[7] == 0
    requires 0 < count <= d
    ensures BoundedRun(hash, run, d) && Series(Last(run), jobs, k, count)
    decreases count
  {
    if count == 1 {
      run, k := FirstShare(hash, jobs, d);
    } else {
      run, k := ManyShares(hash, jobs, count - 1, d);
      run, k := SeriesNext(hash, run, jobs, k, count - 1, d);
    }
  }

  /** With one draw more than there are nonces, a pair is sent again under a single job. */
  lemma WrappedCounterRepeats(jobs: seq<Job>, d: nat) returns (hash: Blob -> Digest, run: Run)
    requires jobs != [] && HaveIds(jobs) && jobs[|jobs| - 1].target > 0 && d > TWO_TO_32
    ensures BoundedRun(hash, run, d) && Last(run).issued == jobs
    ensures SentTwice(Last(run), 0, TWO_TO_32)
  {
    hash := b => DigestEnding(0);
    var k;
    run, k := ManyShares(hash, jobs, TWO_TO_32 + 1, d);
  }

  predicate Unsolvable(jobs: seq<Job>) {
    forall i :: 0 <= i < |jobs| ==> jobs[i].target == 0
  }

  /** Nothing is sent for jobs that cannot be solved. */
  lemma NothingSent(hash: Blob -> Digest, run: Run, n: nat)
    requires IsRun(hash, run) && n < |run.states| && Unsolvable(run.states[n].issued)
    ensures run.states[n].sent == []
  {
    RunKeepsSound(hash, run, n);
    var s := run.states[n];
    assert |s.sent| > 0 ==> ShareSound(hash, s.issued, s.sent[0]);
  }

  /** No worker has got as far as a draw. */
  ghost predicate Undrawn(s: State) {
    s.posts == [] && s.sent == [] && forall w :: w in s.workers ==> !Holding(s.workers[w])
  }

  lemma {:induction false} NoDrawNothingSent(hash: Blob -> Digest, run: Run, n: nat)
    requires IsRun(hash, run) && n < |run.states| && DrawsAtMost(run, n, 0)
    ensures Undrawn(run.states[n])
  {
    if n > 0 {
      NoDrawNothingSent(hash, run, n - 1);
      assert run.states[n].draws <= 0;
      UndrawnStays(hash, run.states[n - 1], run.steps[n - 1]);
    }
  }

  lemma UndrawnStays(hash: Blob -> Digest, s: State, step: Step)
    requires Enabled(s, step) && Undrawn(s) && Apply(hash, s, step).draws == 0
    ensures Undrawn(Apply(hash, s, step))
  {
  }

  /**
    Whatever the hash, no run that issues these jobs in this order, perhaps not all of them, with at
    most `d` draws per period, sends a pair twice.
   */
  ghost predicate NeverSendsTwice(jobs: seq<Job>, d: nat) {
    forall hash: Blob -> Digest, run: Run, n: nat, j: nat, k: nat ::
      IsRun(hash, run) && n < |run.states| && run.states[n].issued <= jobs && DrawsAtMost(run, n, d) ==>
        !SentTwice(run.states[n], j, k)
  }

  /** Ids are reused only after unsolvable jobs, and there are nonces enough for the draws or nothing to be solved. */
  ghost predicate Distinguishes(jobs: seq<Job>, d: nat) {
    d == 0 || (NoReuse(jobs) && (d <= TWO_TO_32 || Unsolvable(jobs)))
  }

  lemma DistinguishedOnce(hash: Blob -> Digest, run: Run, jobs: seq<Job>, d: nat, n: nat, j: nat, k: nat)
    requires IsRun(hash, run) && n < |run.states| && run.states[n].issued <= jobs && DrawsAtMost(run, n, d)
    requires Distinguishes(jobs, d)
    ensures !SentTwice(run.states[n], j, k)
  {
    if d == 0 {
      NoDrawNothingSent(hash, run, n);
    } else if d <= TWO_TO_32 {
      NoReuseBefore(run.states[n].issued, jobs);
      NoShareSentTwice(hash, run, n, j, k);
    } else {
      NothingSent(hash, run, n);
    }
  }

  lemma UndistinguishedTwice(jobs: seq<Job>, d: nat) returns (hash: Blob -> Digest, run: Run, k: nat)
    requires HaveIds(jobs) && !Distinguishes(jobs, d)
    ensures BoundedRun(hash, run, d) && Last(run).issued <= jobs && SentTwice(Last(run), 0, k)
  {
    if !NoReuse(jobs) {
      var i, j :| 0 <= i < j < |jobs| && jobs[i].id == jobs[j].id && jobs[i].target != 0;
      hash, run := ReusedIdRepeats(jobs, i, j, d);
      k := 1;
    } else {
      var i :| 0 <= i < |jobs| && jobs[i].target != 0;
      hash, run := WrappedCounterRepeats(jobs[..i + 1], d);
      k := TWO_TO_32;
    }
  }

  /** For every list of jobs and every bound on the draws per period: exactly when no pair is ever sent twice. */
  lemma SentTwiceIff(jobs: seq<Job>, d: nat)
    requires HaveIds(jobs)
    ensures NeverSendsTwice(jobs, d) <==> Distinguishes(jobs, d)
  {
    if Distinguishes(jobs, d) {
      forall hash: Blob -> Digest, run: Run, n: nat, j: nat, k: nat |
        IsRun(hash, run) && n < |run.states| && run.states[n].issued <= jobs && DrawsAtMost(run, n, d)
        ensures !SentTwice(run.states[n], j, k)
      {
        DistinguishedOnce(hash, run, jobs, d, n, j, k);
      }
    } else {
      var hash, run, k := UndistinguishedTwice(jobs, d);
      var n := |run.steps|;
      assert run.states[n] == Last(run) && DrawsAtMost(run, n, d);
      assert SentTwice(run.states[n], 0, k);
    }
  }

  /** A run that receives a job, sends a share for it and comes to rest. */
  lemma ShareIsSent(hash: Blob -> Digest, job: Job) returns (run: Run)
    requires job.id != "" && hash(Patch(job.blob, 1))[7] < job.target
    ensures IsRun(hash, run) && NoReuse(Last(run).issued) && DrawsAtMost(run, |run.steps|, 1)
    ensures |Last(run).sent| == 1 && Last(run).sent[0].id == job.id && Last(run).sent[0].nonce == 1
    ensures Last(run).posts == []
  {
    run := WaitingRun(hash, 1);
    run := ReceivesJob(hash, run, job, 1);
    run := CopiesJob(hash, run, 1);
    run := SendsShare(hash, run, Holder(job, 1), 1);
  }

  // ----- a worker takes over the current job -----

  /** The job a worker works on after it has looked at the current one: a job with another id is taken over. */
  function Held(s: State, w: nat): Job
    requires w in s.workers
  {
    if s.workers[w].job.id == s.current.id then s.workers[w].origin else s.current
  }

  /** In every run: after a look at a job the worker is ready with that id, and a job it did not have is copied. */
  lemma WorkerTakesOver(hash: Blob -> Digest, run: Run, i: nat, w: nat)
    requires IsRun(hash, run) && i < |run.steps| && run.steps[i] == ReadJob(w) && run.states[i].current.id != ""
    ensures w in run.states[i].workers && w in run.states[i + 1].workers
    ensures var s, s' := run.states[i], run.states[i + 1];
            var k, k' := s.workers[w], s'.workers[w];
            && s'.current == s.current && k'.phase.Ready? && k'.job.id == s.current.id
            && (k.job.id != s.current.id ==> k'.job == k'.origin == s.current && k'.since == s.period)
            && (k.job.id == s.current.id ==> k'.job == k.job && k'.origin == k.origin && k'.since == k.since)
  {
  }

  /** Without a current job the worker waits. */
  lemma WorkerWaits(hash: Blob -> Digest, run: Run, i: nat, w: nat)
    requires IsRun(hash, run) && i < |run.steps| && run.steps[i] == ReadJob(w) && run.states[i].current.id == ""
    ensures run.states[i + 1] == run.states[i]
  {
  }

  lemma Continue(hash: Blob -> Digest, run: Run, step: Step) returns (longer: Run)
    requires IsRun(hash, run) && Enabled(Last(run), step)
    ensures IsRun(hash, longer) && longer.steps == run.steps + [step]
    ensures Last(longer) == Apply(hash, Last(run), step)
  {
    longer := Run(run.states + [Apply(hash, Last(run), step)], run.steps + [step]);
  }

  /** One round of a worker. */
  function Round(w: nat): seq<Step> {
    [ReadJob(w), Draw(w), ComputeHash(w), Report(w)]
  }

  function Submits(n: nat): seq<Step> {
    seq(n, _ => Submit)
  }

  /** The share that the next round of an idle worker can find. */
  function NextShare(hash: Blob -> Digest, s: State, w: nat): Share
    requires w in s.workers
  {
    var n := (s.nonce + 1) % TWO_TO_32;
    var held := Held(s, w);
    var since := if s.workers[w].job.id == s.current.id then s.workers[w].since else s.period;
    Share(s.current.id, n, hash(Patch(held.blob, n)), held, since, s.period)
  }

  lemma ReadsAndDraws(hash: Blob -> Digest, run: Run, w: nat) returns (longer: Run)
    requires IsRun(hash, run) && In(Last(run), w, Idle) && !Last(run).writing && Last(run).current.id != ""
    ensures IsRun(hash, longer) && longer.steps == run.steps + [ReadJob(w), Draw(w)]
    ensures var s, s', n := Last(run), Last(longer), (Last(run).nonce + 1) % TWO_TO_32;
            && In(s', w, Drawn) && s'.workers[w].job.id == s.current.id && s'.workers[w].nonce == n
            && s'.workers[w].origin == Held(s, w) && s'.workers[w].drawnIn == s.period
            && s'.workers[w].since == NextShare(hash, s, w).since
            && s'.current == s.current && s'.posts == s.posts && s'.sent == s.sent && s'.under == s.under && !s'.writing
  {
    var one := Continue(hash, run, ReadJob(w));
    longer := Continue(hash, one, Draw(w));
    assert run.steps + [ReadJob(w)] + [Draw(w)] == run.steps + [ReadJob(w), Draw(w)];
  }

  /** A worker that has drawn hashes its job as it was copied, with that nonce. */
  lemma HashesAndReports(hash: Blob -> Digest, run: Run, w: nat) returns (longer: Run)
    requires IsRun(hash, run) && In(Last(run), w, Drawn)
    requires var k := Last(run).workers[w]; hash(Patch(k.origin.blob, k.nonce))[7] < k.origin.target
    ensures IsRun(hash, longer) && longer.steps == run.steps + [ComputeHash(w), Report(w)]
    ensures var s, s' := Last(run), Last(longer); var k := s.workers[w];
            && s'.posts == s.posts + [Share(k.job.id, k.nonce, hash(Patch(k.origin.blob, k.nonce)), k.origin, k.since,
                                            k.drawnIn)]
            && s'.current == s.current && s'.sent == s.sent && s'.under == s.under && s'.writing == s.writing
  {
    var n := |run.steps|;
    RunKeepsSound(hash, run, n);
    var k := Last(run).workers[w];
    assert WorkerSound(hash, Last(run).issued, k);
    PatchOfPatched(k.job.blob, k.origin.blob, k.nonce);
    var one := Continue(hash, run, ComputeHash(w));
    longer := Continue(hash, one, Report(w));
    assert run.steps + [ComputeHash(w)] + [Report(w)] == run.steps + [ComputeHash(w), Report(w)];
  }

  lemma RoundPosts(hash: Blob -> Digest, run: Run, w: nat) returns (longer: Run)
    requires IsRun(hash, run) && In(Last(run), w, Idle) && !Last(run).writing && Last(run).current.id != ""
    requires NextShare(hash, Last(run), w).digest[7] < Held(Last(run), w).target
    ensures IsRun(hash, longer) && longer.steps == run.steps + Round(w)
    ensures var s, s' := Last(run), Last(longer);
            && s'.posts == s.posts + [NextShare(hash, s, w)] && s'.current == s.current && !s'.writing
            && s'.sent == s.sent && s'.under == s.under
  {
    var half := ReadsAndDraws(hash, run, w);
    longer := HashesAndReports(hash, half, w);
    assert run.steps + [ReadJob(w), Draw(w)] + [ComputeHash(w), Report(w)] == run.steps + Round(w);
  }

  /** What the client sends of a list of posts while `current` is the job: those with its id, in order. */
  function Accepted(current: Job, posts: seq<Share>): seq<Share> {
    if posts == [] then []
    else (if posts[0].id == current.id then [posts[0]] else []) + Accepted(current, posts[1..])
  }

  /** Submitting all posts sends exactly those of the current job. */
  lemma {:induction false} SubmitsAll(hash: Blob -> Digest, run: Run, n: nat) returns (longer: Run)
    requires IsRun(hash, run) && !Last(run).writing && n == |Last(run).posts|
    ensures IsRun(hash, longer) && longer.steps == run.steps + Submits(n)
    ensures var s, s' := Last(run), Last(longer);
            s'.posts == [] && s'.current == s.current && s'.sent == s.sent + Accepted(s.current, s.posts)
    decreases n
  {
    if n == 0 {
      longer := run;
      assert run.steps + Submits(0) == run.steps && Last(run).sent + [] == Last(run).sent;
    } else {
      var s := Last(run);
      var one := Continue(hash, run, Submit);
      longer := SubmitsAll(hash, one, n - 1);
      assert run.steps + [Submit] + Submits(n - 1) == run.steps + Submits(n);
      var first := if s.posts[0].id == s.current.id then [s.posts[0]] else [];
      assert Last(one).sent == s.sent + first;
      SeqAssoc(s.sent, first, Accepted(s.current, s.posts[1..]));
    }
  }

  lemma {:induction false} AcceptedLast(current: Job, posts: seq<Share>, share: Share)
    requires share.id == current.id
    ensures Accepted(current, posts + [share]) == Accepted(current, posts) + [share]
  {
    if posts == [] {
      assert posts + [share] == [share] && [share][1..] == [];
    } else {
      assert (posts + [share])[0] == posts[0] && (posts + [share])[1..] == posts[1..] + [share];
      AcceptedLast(current, posts[1..], share);
    }
  }

  /**
    From every reachable state with an idle worker, whatever job it held before: if its next nonce
    solves the job it now works on, its next round and the submission of all posts send that share,
    behind the shares of the current job posted before.
   */
  lemma NextRoundSends(hash: Blob -> Digest, run: Run, w: nat) returns (longer: Run)
    requires IsRun(hash, run) && In(Last(run), w, Idle) && !Last(run).writing && Last(run).current.id != ""
    requires NextShare(hash, Last(run), w).digest[7] < Held(Last(run), w).target
    ensures IsRun(hash, longer) && longer.steps == run.steps + (Round(w) + Submits(|Last(run).posts| + 1))
    ensures var s := Last(run);
            && Last(longer).posts == []
            && Last(longer).sent == s.sent + (Accepted(s.current, s.posts) + [NextShare(hash, s, w)])
  {
    var s := Last(run);
    var posted := RoundPosts(hash, run, w);
    longer := SubmitsAll(hash, posted, |s.posts| + 1);
    AcceptedLast(s.current, s.posts, NextShare(hash, s, w));
    SeqAssoc(run.steps, Round(w), Submits(|s.posts| + 1));
  }

  // ----- blobs too short for a nonce -----

  lemma {:induction false} PaddedIs(blob: Blob, size: nat)
    requires |blob| <= size
    ensures |Padded(blob, size)| == size
    ensures forall k :: 0 <= k < size ==> Padded(blob, size)[k] == if k < |blob| then blob[k] else 0x20
    decreases size - |blob|
  {
    if |blob| < size {
      PaddedIs(blob + [0x20], size);
    }
  }

  /** A blob that ends before the nonce is filled up with blanks; what stood at or behind its place is cut off. */
  lemma PatchOfShort(blob: Blob, nonce: nat)
    requires |blob| < NONCE_OFFSET + 4
    ensures |Patch(blob, nonce)| == NONCE_OFFSET + 4
    ensures forall k :: 0 <= k < NONCE_OFFSET ==> Patch(blob, nonce)[k] == if k < |blob| then blob[k] else 0x20
  {
    PaddedIs(if |blob| > NONCE_OFFSET then blob[..NONCE_OFFSET] else blob, NONCE_OFFSET);
  }

  // ----- after the client has been stopped -----

  lemma StoppedStep(hash: Blob -> Digest, s: State, step: Step)
    requires Enabled(s, step) && Sound(hash, s) && s.current.id == "" && !step.SetJob?
    ensures Apply(hash, s, step).current.id == "" && Apply(hash, s, step).sent == s.sent
  {
  }

  /** From a stop until the next job no share is sent, whatever the workers still report. */
  lemma {:induction false} StoppedSendsNothing(hash: Blob -> Digest, run: Run, i: nat, n: nat)
    requires IsRun(hash, run) && i < n < |run.states| && run.steps[i] == StopClient
    requires forall k :: i < k < n ==> !run.steps[k].SetJob?
    ensures run.states[n].current.id == "" && run.states[n].sent == run.states[i].sent
  {
    if i + 1 < n {
      StoppedSendsNothing(hash, run, i, n - 1);
      RunKeepsSound(hash, run, n - 1);
      StoppedStep(hash, run.states[n - 1], run.steps[n - 1]);
    }
  }

  // ----- after a worker has been stopped -----

  /** The worker that takes the step. */
  predicate StepOf(step: Step, w: nat) {
    step == ReadJob(w) || step == Draw(w) || step == ComputeHash(w) || step == Report(w) || step == StopWorker(w)
  }

  lemma GoneStaysGone(hash: Blob -> Digest, s: State, step: Step, w: nat)
    requires Enabled(s, step) && w !in s.workers && step != StartWorker(w)
    ensures w !in Apply(hash, s, step).workers && !StepOf(step, w)
  {
  }

  lemma {:induction false} GoneUntilStarted(hash: Blob -> Digest, run: Run, w: nat, i: nat, n: nat)
    requires IsRun(hash, run) && i < n < |run.states| && run.steps[i] == StopWorker(w)
    requires forall k :: i < k < n ==> run.steps[k] != StartWorker(w)
    ensures w !in run.states[n].workers
  {
    if i + 1 < n {
      GoneUntilStarted(hash, run, w, i, n - 1);
      GoneStaysGone(hash, run.states[n - 1], run.steps[n - 1], w);
    }
  }

  /** A stopped worker does nothing more until a worker is started in its place. */
  lemma StoppedWorkerRests(hash: Blob -> Digest, run: Run, w: nat, i: nat, n: nat)
    requires IsRun(hash, run) && i < n < |run.steps| && run.steps[i] == StopWorker(w)
    requires forall k :: i < k <= n ==> run.steps[k] != StartWorker(w)
    ensures !StepOf(run.steps[n], w)
  {
    GoneUntilStarted(hash, run, w, i, n);
    GoneStaysGone(hash, run.states[n], run.steps[n], w);
  }
}
