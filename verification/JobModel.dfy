/** One job's run: its executors from the container's start to its close, and what they record. */
module JobModel {
  import opened Basics
  import opened Executors

  // ---------------------------------------------------------------- status

  datatype StepStatus = Succeeded | Failed | Skipped

  /** The outcome is what happened; the conclusion is what counts, after continue-on-error. */
  datatype StepResult = StepResult(outcome: StepStatus, conclusion: StepStatus)

  datatype Status = Success | Failure | Cancelled

  /** What runs. A main step's executor may first prepare an action; its body runs when its condition
      allows. */
  datatype Action =
    | Start | Setup | StartedHook | PrepareActions | Pre(step: nat) | CompleteName
    | MatrixLog | Main(step: nat) | Prepare(step: nat) | Body(step: nat)
    | Post(step: nat) | CompletedHook | Stop | InterpolateOutputs | Close

  /** An action's start: when, under which context, and the job status its conditions would see. */
  datatype Event = Event(action: Action, at: nat, ctx: Context, status: Status)

  /** What the run context keeps, the job errors by container, and the trace of what ran. */
  datatype State = State(
    cancelled: bool,
    failed: bool,
    results: map<string, StepResult>,
    errors: map<nat, Error>,
    trace: seq<Event>)

  type JobWorld = World<State>
  type JobExecutor = Executor<State>

  predicate SomeFailed(results: map<string, StepResult>) {
    exists id | id in results :: results[id].conclusion == Failed
  }

  function StatusOf(s: State): Status {
    if s.cancelled then Cancelled
    else if s.failed || SomeFailed(s.results) then Failure
    else Success
  }

  // ---------------------------------------------------------------- surroundings

  /** A condition's value at a status and a moment, none when it cannot be evaluated. When it names no
      status function, it is taken as `success() && ...`. */
  datatype Condition = Condition(namesStatus: bool, value: (Status, nat) -> Option<bool>)

  /** A step model: not usable, of no known kind, or one whose executor may prepare an action first. */
  datatype StepModel = Missing | Unknown | Step(id: string, condition: Condition, preparesAction: bool)

  datatype Job = Job(steps: seq<StepModel>, autoRemove: bool)

  /** Everything the run does not decide itself: how each action started at a moment ends, whether it
      recorded a job error of its own, whether a body asked for a disabled command, what continue-on-error
      says, how reading the file commands ends, and how long a fresh context lasts. */
  datatype Environment = Environment(
    outcome: (Action, nat) -> Option<Error>,
    recorded: nat -> Option<Error>,
    unsecure: nat -> bool,
    continueOnError: nat -> Option<bool>,
    fileCommands: nat -> Option<Error>,
    lifetime: nat -> Option<nat>)

  /** A new context without the old one's end, but with a deadline of its own. */
  function Fresh(env: Environment, now: nat, errors: nat): Context {
    match env.lifetime(now)
    case Some(d) => Context(Some((now + 1 + d, DeadlineExceeded)), errors)
    case None => Context(None, errors)
  }

  function Act(env: Environment, a: Action): JobExecutor {
    (ctx: Context, w: JobWorld) =>
      (Recorded(env, ctx, Invoked(a, ctx, w)).(now := w.now + 1), env.outcome(a, w.now))
  }

  function Invoked(a: Action, ctx: Context, w: JobWorld): JobWorld {
    w.(state := w.state.(trace := w.state.trace + [Event(a, w.now, ctx, StatusOf(w.state))]))
  }

  function Recorded(env: Environment, ctx: Context, w: JobWorld): JobWorld {
    match env.recorded(w.now)
    case Some(e) => w.(state := w.state.(errors := w.state.errors[ctx.errors := e]))
    case None => w
  }

  lemma RecordedKeeps(env: Environment, ctx: Context, w: JobWorld)
    ensures var w' := Recorded(env, ctx, w);
            && w'.now == w.now && w'.state.trace == w.state.trace && w'.state.results == w.state.results
            && w'.state.cancelled == w.state.cancelled && w'.state.failed == w.state.failed
  {
  }

  /** An action that only logs or sets up; it cannot fail. */
  function Quiet(env: Environment, a: Action): JobExecutor {
    (ctx: Context, w: JobWorld) => (Act(env, a)(ctx, w).0, None)
  }

  // ---------------------------------------------------------------- recording errors

  function MarkInterrupted(s: State, err: Option<ContextError>): State {
    match err
    case Some(Canceled) => s.(cancelled := true)
    case Some(DeadlineExceeded) => s.(failed := true)
    case None => s
  }

  /** A cancellation counts only when the context says so; any other error fails the job. */
  function ReportStepError(ctx: Context, w: JobWorld, err: Error): JobWorld {
    if err == Interrupted(Canceled) then
      var (w1, ended) := Check(ctx, w);
      w1.(state := MarkInterrupted(w1.state, ended))
    else
      w.(state := w.state.(errors := w.state.errors[ctx.errors := err], failed := true))
  }

  /** A step's own error, or else the end of its context. */
  function ReportStep(ctx: Context, w: JobWorld, err: Option<Error>): JobWorld {
    if err.Some? then ReportStepError(ctx, w, err.value) else
      var (w1, ended) := Check(ctx, w);
      if ended.Some? then ReportStepError(ctx, w1, Interrupted(ended.value)) else w1
  }

  /** Hooks and the download of actions report their errors, but not the end of their context. */
  function Reporting(env: Environment, a: Action): JobExecutor {
    (ctx: Context, w: JobWorld) =>
      var (w1, err) := Act(env, a)(ctx, w);
      (if err.Some? then ReportStepError(ctx, w1, err.value) else w1, err)
  }

  // ---------------------------------------------------------------- one main step

  function IdOf(job: Job, i: nat): string
    requires i < |job.steps|
  {
    if job.steps[i].Step? && job.steps[i].id != "" then job.steps[i].id else Decimal(i)
  }

  /** Main steps default to success(). */
  function IsStepEnabled(c: Condition, status: Status, now: nat): Option<bool> {
    if !c.namesStatus && status != Success then Some(false) else c.value(status, now)
  }

  function WithResult(w: JobWorld, id: string, r: StepResult): JobWorld {
    w.(state := w.state.(results := w.state.results[id := r]))
  }

  /** The error of a body, or the refusal of a command it asked for. */
  function BodyError(env: Environment, err: Option<Error>, now: nat): Option<Error> {
    if err == None && env.unsecure(now) then Some(Other("disabled command")) else err
  }

  /** The outcome and conclusion of a body that ran. */
  function Concluded(env: Environment, err: Option<Error>, now: nat): (StepResult, Option<Error>) {
    if err == None then (StepResult(Succeeded, Succeeded), None)
    else match env.continueOnError(now)
      case None => (StepResult(Failed, Failed), Some(Other("continue-on-error")))
      case Some(true) => (StepResult(Failed, Succeeded), None)
      case Some(false) => (StepResult(Failed, Failed), err)
  }

  /** The step's result stands before its condition is asked, and is revised as it goes. */
  function RunStepExecutor(env: Environment, i: nat, id: string, c: Condition): JobExecutor {
    (ctx: Context, w: JobWorld) =>
      var w1 := WithResult(w, id, StepResult(Succeeded, Succeeded));
      match IsStepEnabled(c, StatusOf(w1.state), w1.now)
      case None => (WithResult(w1, id, StepResult(Failed, Failed)), Some(Other("condition")))
      case Some(false) => (WithResult(w1, id, StepResult(Skipped, Skipped)), None)
      case Some(true) =>
        var (w2, err) := Act(env, Body(i))(ctx, w1);
        var (result, orgerr) := Concluded(env, BodyError(env, err, w2.now), w2.now);
        var unparsed := BodyError(env, err, w2.now) != None && env.continueOnError(w2.now) == None;
        (WithResult(w2, id, result),
         if !unparsed && env.fileCommands(w2.now).Some? then env.fileCommands(w2.now) else orgerr)
  }

  function MainOf(env: Environment, job: Job, i: nat): JobExecutor
    requires i < |job.steps| && job.steps[i].Step?
  {
    var run := RunStepExecutor(env, i, IdOf(job, i), job.steps[i].condition);
    if job.steps[i].preparesAction then Then(Act(env, Prepare(i)), run) else run
  }

  // ---------------------------------------------------------------- step wrappers

  function PreWrapper(env: Environment, i: nat): JobExecutor {
    (ctx: Context, w: JobWorld) =>
      var (w1, err) := Act(env, Pre(i))(ctx, w);
      (ReportStep(ctx, w1, err), err)
  }

  /** Reports its step's error and returns none. */
  function MainWrapper(env: Environment, job: Job, i: nat): JobExecutor
    requires i < |job.steps| && job.steps[i].Step?
  {
    (ctx: Context, w: JobWorld) =>
      var (w1, err) := MainOf(env, job, i)(ctx, Invoked(Main(i), ctx, w));
      (ReportStep(ctx, w1, err), None)
  }

  function PostWrapper(env: Environment, i: nat): JobExecutor {
    (ctx: Context, w: JobWorld) =>
      var (w1, err) := Act(env, Post(i))(ctx, w);
      (ReportStep(ctx, w1, err), err)
  }

  // ---------------------------------------------------------------- main steps

  /** The remaining steps under one context, whatever becomes of each. */
  function RunAll(steps: seq<JobExecutor>, ctx: Context, w: JobWorld): JobWorld
    decreases |steps|
  {
    if steps == [] then w else RunAll(steps[1..], ctx, steps[0](ctx, w).0)
  }

  /** After the context ended: the flag first, then the remaining steps under a fresh context. */
  function RunAfterInterrupt(env: Environment, steps: seq<JobExecutor>, ctx: Context, w: JobWorld,
                             reason: ContextError): (JobWorld, Option<Error>) {
    var flagged := w.(state := MarkInterrupted(w.state, Some(reason)));
    (RunAll(steps, Fresh(env, w.now, ctx.errors), flagged), Some(Interrupted(reason)))
  }

  function RunMain(env: Environment, steps: seq<JobExecutor>, ctx: Context, w: JobWorld): (JobWorld, Option<Error>)
    decreases |steps|
  {
    var (w1, ended) := Check(ctx, w);
    if steps == [] then (w1.(state := MarkInterrupted(w1.state, ended)), None)
    else if ended.Some? then RunAfterInterrupt(env, steps, ctx, w1, ended.value)
    else RunMain(env, steps[1..], ctx, steps[0](ctx, w1).0)
  }

  // ---------------------------------------------------------------- the whole job

  predicate AllUsable(job: Job) {
    forall i | 0 <= i < |job.steps| :: job.steps[i].Step?
  }

  function MainExecutors(env: Environment, job: Job): (r: seq<JobExecutor>)
    requires AllUsable(job)
    ensures |r| == |job.steps| + 1 && r[0] == Quiet(env, MatrixLog)
    ensures forall i | 0 <= i < |job.steps| :: r[i + 1] == MainWrapper(env, job, i)
  {
    [Quiet(env, MatrixLog)] + seq(|job.steps|, i requires 0 <= i < |job.steps| => MainWrapper(env, job, i))
  }

  function PreExecutors(env: Environment, job: Job): (r: seq<JobExecutor>)
    ensures |r| == |job.steps| + 4
    ensures r[0] == Quiet(env, Setup) && r[1] == Reporting(env, StartedHook)
    ensures r[2] == Reporting(env, PrepareActions) && r[|r| - 1] == Quiet(env, CompleteName)
    ensures forall i | 0 <= i < |job.steps| :: r[i + 3] == PreWrapper(env, i)
  {
    [Quiet(env, Setup), Reporting(env, StartedHook), Reporting(env, PrepareActions)] +
    seq(|job.steps|, i requires 0 <= i < |job.steps| => PreWrapper(env, i)) + [Quiet(env, CompleteName)]
  }

  /** The pre steps, then the main steps in any case; the earlier error is returned. */
  function RunSteps(env: Environment, job: Job, ctx: Context, w: JobWorld): (JobWorld, Option<Error>)
    requires AllUsable(job)
  {
    var (w1, preErr) := RunPipeline(PreExecutors(env, job), ctx, w);
    var (w2, mainErr) := RunMain(env, MainExecutors(env, job), ctx, w1);
    (w2, if preErr.Some? then preErr else mainErr)
  }

  function Both(err: Option<Error>, last: Option<Error>): Option<Error> {
    if last.Some? then Some(Other("finally")) else err
  }

  /** The post steps below k, in reverse. */
  function RunPosts(env: Environment, k: nat, ctx: Context, w: JobWorld): (JobWorld, Option<Error>)
    requires k > 0
  {
    var (w1, err) := PostWrapper(env, k - 1)(ctx, w);
    if k == 1 then (w1, err) else
      var (w2, err2) := RunPosts(env, k - 1, ctx, w1);
      (w2, Both(err, err2))
  }

  /** The container is kept only for a job that failed, was not cancelled, and asked for it. */
  predicate StopsContainer(job: Job, ctx: Context, s: State) {
    job.autoRemove || ctx.errors !in s.errors || s.cancelled
  }

  function Teardown(env: Environment, job: Job): JobExecutor {
    (ctx: Context, w: JobWorld) =>
      if StopsContainer(job, ctx, w.state) then Act(env, Stop)(Fresh(env, w.now, ctx.errors), w) else (w, None)
  }

  /** Where the post steps run: on a fresh context when the job's has ended, after a cancellation with a
      job error container of its own. */
  function PostStepsContext(env: Environment, ctx: Context, w: JobWorld): (JobWorld, Context) {
    var (w1, ended) := Check(ctx, w);
    match ended
    case Some(Canceled) =>
      var errors := ctx.errors + 1;
      (w1.(state := w1.state.(errors := w1.state.errors - {errors})), Fresh(env, w1.now, errors))
    case Some(DeadlineExceeded) => (w1, Fresh(env, w1.now, ctx.errors))
    case None => (w1, ctx)
  }

  /** The interrupt is recorded by one look at the context, the post context chosen by another. */
  function BeforePosts(env: Environment, ctx: Context, w: JobWorld): (JobWorld, Context) {
    var (w1, ended) := Check(ctx, w);
    PostStepsContext(env, ctx, w1.(state := MarkInterrupted(w1.state, ended)))
  }

  /** The world in which the container's stop is decided, and the context it is decided under. */
  function AtTeardown(env: Environment, job: Job, ctx: Context, w: JobWorld): (JobWorld, Context)
    requires |job.steps| > 0
  {
    var (w2, postCtx) := BeforePosts(env, ctx, w);
    (Reporting(env, CompletedHook)(postCtx, RunPosts(env, |job.steps|, postCtx, w2).0).0, postCtx)
  }

  function RunPostPart(env: Environment, job: Job, ctx: Context, w: JobWorld): (JobWorld, Option<Error>)
    requires |job.steps| > 0
  {
    var (w2, postCtx) := BeforePosts(env, ctx, w);
    var (w3, err) := RunPosts(env, |job.steps|, postCtx, w2);
    var (w4, err2) := Reporting(env, CompletedHook)(postCtx, w3);
    var (w5, err3) := Teardown(env, job)(postCtx, w4);
    (w5, Both(Both(err, err2), err3))
  }

  /** Everything after the container's start. */
  function RunStarted(env: Environment, job: Job, ctx: Context, w: JobWorld): (JobWorld, Option<Error>)
    requires |job.steps| > 0 && AllUsable(job)
  {
    var (w1, err1) := RunSteps(env, job, ctx, w);
    var (w2, err2) := RunPostPart(env, job, ctx, w1);
    var (w3, err3) := Act(env, InterpolateOutputs)(ctx, w2);
    var (w4, err4) := Act(env, Close)(ctx, w3);
    (w4, Both(Both(Both(err1, err2), err3), err4))
  }

  function RunJob(env: Environment, job: Job, ctx: Context, w: JobWorld): (JobWorld, Option<Error>) {
    if job.steps == [] then (w, None)
    else if !AllUsable(job) then (w, Some(Other("unusable step")))
    else
      var (w1, err) := Act(env, Start)(ctx, w);
      if err.Some? then (w1, err) else
        var (w2, ended) := Check(ctx, w1);
        if ended.Some? then (w2, Some(Interrupted(ended.value))) else RunStarted(env, job, ctx, w2)
  }
}
