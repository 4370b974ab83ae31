/** The job status over a run: it only rises, and steps that need success stay off once it has. */
module JobStatus {
  import opened Basics
  import opened Executors
  import opened JobModel

  function Rank(s: Status): nat {
    match s case Success => 0 case Failure => 1 case Cancelled => 2
  }

  function RankOf(w: JobWorld): nat {
    Rank(StatusOf(w.state))
  }

  /** A body starts only when its step's condition allows at the status it starts with. */
  predicate IsEnabledBody(job: Job, e: Event) {
    e.action.Body? ==>
      && e.action.step < |job.steps| && job.steps[e.action.step].Step?
      && IsStepEnabled(job.steps[e.action.step].condition, e.status, e.at) == Some(true)
  }

  /** From w to w' the trace grows; the statuses of w, of the new events, and of w' rise in that order;
      and bodies start only when enabled. */
  ghost predicate Rising(job: Job, w: JobWorld, w': JobWorld) {
    && |w.state.trace| <= |w'.state.trace|
    && w'.state.trace[..|w.state.trace|] == w.state.trace
    && RankOf(w) <= RankOf(w')
    && (forall i | |w.state.trace| <= i < |w'.state.trace| ::
          && RankOf(w) <= Rank(w'.state.trace[i].status) <= RankOf(w')
          && IsEnabledBody(job, w'.state.trace[i]))
    && (forall i, j | |w.state.trace| <= i < j < |w'.state.trace| ::
          Rank(w'.state.trace[i].status) <= Rank(w'.state.trace[j].status))
  }

  lemma RisingTransitive(job: Job, a: JobWorld, b: JobWorld, c: JobWorld)
    requires Rising(job, a, b) && Rising(job, b, c)
    ensures Rising(job, a, c)
  {
    var ta, tb, tc := a.state.trace, b.state.trace, c.state.trace;
    assert tc[..|ta|] == tb[..|ta|];
    assert forall i | 0 <= i < |tb| :: tc[i] == tc[..|tb|][i];
  }

  /** A change that adds no event and does not lower the status. */
  lemma SameTraceRises(job: Job, w: JobWorld, w': JobWorld)
    requires w'.state.trace == w.state.trace && RankOf(w) <= RankOf(w')
    ensures Rising(job, w, w')
  {
  }

  lemma StatusFields(s: State, t: State)
    requires (s.cancelled ==> t.cancelled) && (s.failed ==> t.failed) && t.results == s.results
    ensures Rank(StatusOf(s)) <= Rank(StatusOf(t))
  {
  }

  // ---------------------------------------------------------------- pieces

  /** The executor raises the status, if anything, and leaves the step results alone. */
  ghost predicate Rises(job: Job, e: JobExecutor) {
    forall ctx, w :: Rising(job, w, e(ctx, w).0) && e(ctx, w).0.state.results == w.state.results
  }

  lemma ActRising(env: Environment, job: Job, a: Action, ctx: Context, w: JobWorld)
    requires IsEnabledBody(job, Event(a, w.now, ctx, StatusOf(w.state)))
    ensures var w' := Act(env, a)(ctx, w).0;
            Rising(job, w, w') && w'.state.results == w.state.results && StatusOf(w'.state) == StatusOf(w.state)
  {
    var w1 := Invoked(a, ctx, w);
    var w2 := Recorded(env, ctx, w1);
    assert w1.state.trace[..|w.state.trace|] == w.state.trace;
    assert StatusOf(w1.state) == StatusOf(w.state);
    assert w2.state.trace == w1.state.trace;
    assert StatusOf(w2.state) == StatusOf(w1.state);
  }

  lemma ReportRising(job: Job, ctx: Context, w: JobWorld, err: Option<Error>)
    ensures var w' := ReportStep(ctx, w, err); Rising(job, w, w') && w'.state.results == w.state.results
    ensures err.Some? ==>
              var w' := ReportStepError(ctx, w, err.value);
              Rising(job, w, w') && w'.state.results == w.state.results
  {
    StatusFields(w.state, ReportStep(ctx, w, err).state);
    SameTraceRises(job, w, ReportStep(ctx, w, err));
    if err.Some? {
      StatusFields(w.state, ReportStepError(ctx, w, err.value).state);
      SameTraceRises(job, w, ReportStepError(ctx, w, err.value));
    }
  }

  lemma ActRises(env: Environment, job: Job, a: Action)
    requires !a.Body?
    ensures Rises(job, Act(env, a)) && Rises(job, Quiet(env, a)) && Rises(job, Reporting(env, a))
  {
    hide Act, Rising, ReportStepError, ReportStep;
    forall ctx, w
      ensures Rising(job, w, Act(env, a)(ctx, w).0) && Act(env, a)(ctx, w).0.state.results == w.state.results
      ensures Rising(job, w, Reporting(env, a)(ctx, w).0)
      ensures Reporting(env, a)(ctx, w).0.state.results == w.state.results
    {
      ActRising(env, job, a, ctx, w);
      var (w1, err) := Act(env, a)(ctx, w);
      ReportRising(job, ctx, w1, err);
      if err.Some? { RisingTransitive(job, w, w1, ReportStepError(ctx, w1, err.value)); }
    }
  }

  lemma WrappersRise(env: Environment, job: Job, i: nat)
    ensures Rises(job, PreWrapper(env, i)) && Rises(job, PostWrapper(env, i))
  {
    hide Act, Rising, ReportStep;
    forall ctx, w
      ensures var p := PreWrapper(env, i)(ctx, w).0; Rising(job, w, p) && p.state.results == w.state.results
      ensures var q := PostWrapper(env, i)(ctx, w).0; Rising(job, w, q) && q.state.results == w.state.results
    {
      ActRising(env, job, Pre(i), ctx, w);
      ActRising(env, job, Post(i), ctx, w);
      var (w1, err1) := Act(env, Pre(i))(ctx, w);
      var (w2, err2) := Act(env, Post(i))(ctx, w);
      ReportRising(job, ctx, w1, err1);
      ReportRising(job, ctx, w2, err2);
      RisingTransitive(job, w, w1, ReportStep(ctx, w1, err1));
      RisingTransitive(job, w, w2, ReportStep(ctx, w2, err2));
    }
  }

  lemma CheckRising(job: Job, ctx: Context, w: JobWorld, err: Option<ContextError>)
    ensures Rising(job, w, Check(ctx, w).0)
    ensures Rising(job, w, w.(state := MarkInterrupted(w.state, err)))
    ensures MarkInterrupted(w.state, err).results == w.state.results
  {
    StatusFields(w.state, MarkInterrupted(w.state, err));
  }

  // ---------------------------------------------------------------- one main step

  /** The step's provisional success does not change the status. */
  predicate KeepsStatus(w: JobWorld, id: string) {
    StatusOf(WithResult(w, id, StepResult(Succeeded, Succeeded)).state) == StatusOf(w.state)
  }

  lemma NewResult(w: JobWorld, id: string)
    requires id !in w.state.results
    ensures KeepsStatus(w, id)
  {
    var w1 := WithResult(w, id, StepResult(Succeeded, Succeeded));
    assert w1.state.results[id].conclusion == Succeeded;
    assert forall k | k in w.state.results :: w1.state.results[k] == w.state.results[k];
  }

  /** A revision of a result that does not count as failed does not lower the status. */
  lemma RevisedResult(job: Job, w: JobWorld, id: string, r: StepResult)
    requires id in w.state.results && w.state.results[id].conclusion != Failed
    ensures Rising(job, w, WithResult(w, id, r))
  {
    var w1 := WithResult(w, id, r);
    if SomeFailed(w.state.results) {
      var k :| k in w.state.results && w.state.results[k].conclusion == Failed;
      assert w1.state.results[k].conclusion == Failed;
    }
  }

  lemma RunStepRising(env: Environment, job: Job, i: nat, ctx: Context, w: JobWorld)
    requires i < |job.steps| && job.steps[i].Step? && KeepsStatus(w, IdOf(job, i))
    ensures var w' := RunStepExecutor(env, i, IdOf(job, i), job.steps[i].condition)(ctx, w).0;
            Rising(job, w, w') && w'.state.results.Keys == w.state.results.Keys + {IdOf(job, i)}
  {
    hide Act, Rising, StatusOf, IdOf;
    var id := IdOf(job, i);
    var w1 := WithResult(w, id, StepResult(Succeeded, Succeeded));
    var w2 := Act(env, Body(i))(ctx, w1).0;
    var w' := RunStepExecutor(env, i, id, job.steps[i].condition)(ctx, w).0;
    SameTraceRises(job, w, w1);
    if IsStepEnabled(job.steps[i].condition, StatusOf(w1.state), w1.now) == Some(true) {
      ActRising(env, job, Body(i), ctx, w1);
      RisingTransitive(job, w, w1, w2);
      RevisedResult(job, w2, id, w'.state.results[id]);
      RisingTransitive(job, w, w2, w');
    } else {
      RevisedResult(job, w1, id, w'.state.results[id]);
      RisingTransitive(job, w, w1, w');
    }
  }

  lemma MainRising(env: Environment, job: Job, i: nat, ctx: Context, w: JobWorld)
    requires i < |job.steps| && job.steps[i].Step? && KeepsStatus(w, IdOf(job, i))
    ensures var w' := MainWrapper(env, job, i)(ctx, w).0;
            Rising(job, w, w') && w'.state.results.Keys <= w.state.results.Keys + {IdOf(job, i)}
  {
    var w0 := Invoked(Main(i), ctx, w);
    SameStatusKeeps(w, w0, IdOf(job, i));
    hide RunStepExecutor, Rising, ReportStep, IdOf, KeepsStatus;
    InvokedRising(job, Main(i), ctx, w);
    MainOfRising(env, job, i, ctx, w0);
    var (w1, err) := MainOf(env, job, i)(ctx, w0);
    RisingTransitive(job, w, w0, w1);
    ReportRising(job, ctx, w1, err);
    RisingTransitive(job, w, w1, ReportStep(ctx, w1, err));
  }

  lemma InvokedRising(job: Job, a: Action, ctx: Context, w: JobWorld)
    requires !a.Body?
    ensures var w' := Invoked(a, ctx, w); Rising(job, w, w') && w'.state.results == w.state.results
  {
    assert Invoked(a, ctx, w).state.trace[..|w.state.trace|] == w.state.trace;
  }

  lemma MainOfRising(env: Environment, job: Job, i: nat, ctx: Context, w: JobWorld)
    requires i < |job.steps| && job.steps[i].Step? && KeepsStatus(w, IdOf(job, i))
    ensures var w' := MainOf(env, job, i)(ctx, w).0;
            Rising(job, w, w') && w'.state.results.Keys <= w.state.results.Keys + {IdOf(job, i)}
  {
    hide RunStepExecutor, Rising, IdOf, Act, KeepsStatus;
    if job.steps[i].preparesAction {
      ActRising(env, job, Prepare(i), ctx, w);
      var (w1, err) := Act(env, Prepare(i))(ctx, w);
      ActFlags(env, Prepare(i), ctx, w);
      SameStatusKeeps(w, Check(ctx, w1).0, IdOf(job, i));
      if err == None {
        var (w2, ended) := Check(ctx, w1);
        CheckRising(job, ctx, w1, None);
        RisingTransitive(job, w, w1, w2);
        if ended == None {
          RunStepRising(env, job, i, ctx, w2);
          RisingTransitive(job, w, w2, MainOf(env, job, i)(ctx, w).0);
        }
      }
    } else {
      RunStepRising(env, job, i, ctx, w);
    }
  }

  // ---------------------------------------------------------------- all main steps

  /** The condition is false, or not to be evaluated, whenever the job succeeds. */
  ghost predicate NeverAtSuccess(c: Condition) {
    forall now :: c.value(Success, now) != Some(true)
  }

  /** No step that can run while the job succeeds has a later step of its id. */
  ghost predicate KeepsFailures(job: Job) {
    forall i, j | 0 <= i < j < |job.steps| && IdOf(job, i) == IdOf(job, j) && job.steps[i].Step? ::
      NeverAtSuccess(job.steps[i].condition)
  }

  /** The status does not hang on a result that a step from k on will write over. */
  ghost predicate Anchored(job: Job, k: nat, s: State) {
    s.cancelled || s.failed || AnchoredResults(job, k, s.results)
  }

  /** Nothing is failed, or something that no step from k on will write over. */
  ghost predicate AnchoredResults(job: Job, k: nat, results: map<string, StepResult>) {
    !SomeFailed(results) || exists x | x in results :: results[x].conclusion == Failed && IsFree(job, k, x)
  }

  /** No step from k on has this id. */
  predicate IsFree(job: Job, k: nat, id: string) {
    forall j | k <= j < |job.steps| :: IdOf(job, j) != id
  }

  lemma AnchoredKeepsStatus(job: Job, k: nat, w: JobWorld)
    requires k < |job.steps| && Anchored(job, k, w.state)
    ensures KeepsStatus(w, IdOf(job, k))
  {
    hide IdOf;
    var w1 := WithResult(w, IdOf(job, k), StepResult(Succeeded, Succeeded));
    if !w.state.cancelled && !w.state.failed && SomeFailed(w.state.results) {
      var x :| x in w.state.results && w.state.results[x].conclusion == Failed && IsFree(job, k, x);
      assert w1.state.results[x].conclusion == Failed;
    }
  }

  lemma AnchoredGrows(job: Job, k: nat, l: nat, s: State, t: State)
    requires Anchored(job, k, s) && k <= l && t.results == s.results
    requires (s.cancelled ==> t.cancelled) && (s.failed ==> t.failed)
    ensures Anchored(job, l, t)
  {
    hide IdOf;
    if SomeFailed(s.results) && !s.cancelled && !s.failed {
      var x :| x in s.results && s.results[x].conclusion == Failed && IsFree(job, k, x);
      assert IsFree(job, l, x);
    }
  }

  /** Step k's result, if it failed while the job succeeded, is not written over. */
  lemma AnchoredAfter(job: Job, k: nat, s: State, t: State, r: StepResult)
    requires k < |job.steps| && Anchored(job, k, s)
    requires t.results == s.results[IdOf(job, k) := r] && t.cancelled == s.cancelled && t.failed == s.failed
    requires r.conclusion == Failed && StatusOf(s) == Success ==> IsFree(job, k + 1, IdOf(job, k))
    ensures Anchored(job, k + 1, t)
  {
    hide IdOf;
    if !s.cancelled && !s.failed {
      if SomeFailed(s.results) {
        var x :| x in s.results && s.results[x].conclusion == Failed && IsFree(job, k, x);
        assert x in t.results && t.results[x].conclusion == Failed && IsFree(job, k + 1, x);
      } else if r.conclusion == Failed {
        assert IdOf(job, k) in t.results && t.results[IdOf(job, k)].conclusion == Failed;
      }
    }
  }

  lemma FreeAfter(job: Job, k: nat, now: nat)
    requires KeepsFailures(job) && k < |job.steps| && job.steps[k].Step?
    requires job.steps[k].condition.value(Success, now) == Some(true)
    ensures IsFree(job, k + 1, IdOf(job, k))
  {
    hide IdOf;
    forall j | k + 1 <= j < |job.steps| ensures IdOf(job, j) != IdOf(job, k) {
      assert IdOf(job, k) == IdOf(job, j) ==> NeverAtSuccess(job.steps[k].condition);
    }
  }

  lemma SameStatusKeeps(w: JobWorld, v: JobWorld, id: string)
    requires KeepsStatus(w, id) && v.state.results == w.state.results
    requires v.state.cancelled == w.state.cancelled && v.state.failed == w.state.failed
    ensures KeepsStatus(v, id)
  {
  }

  lemma ActFlags(env: Environment, a: Action, ctx: Context, w: JobWorld)
    ensures var w' := Act(env, a)(ctx, w).0;
            && w'.state.results == w.state.results
            && w'.state.cancelled == w.state.cancelled && w'.state.failed == w.state.failed
  {
    RecordedKeeps(env, ctx, Invoked(a, ctx, w));
  }

  lemma RunStepAnchors(env: Environment, job: Job, k: nat, ctx: Context, w: JobWorld)
    requires KeepsFailures(job) && k < |job.steps| && job.steps[k].Step? && Anchored(job, k, w.state)
    ensures var (w', err) := RunStepExecutor(env, k, IdOf(job, k), job.steps[k].condition)(ctx, w);
            Anchored(job, k + 1, w'.state) || err == Some(Other("condition"))
  {
    hide Act, StatusOf, IdOf, Anchored, KeepsFailures, Concluded, BodyError;
    var id, c := IdOf(job, k), job.steps[k].condition;
    var w1 := WithResult(w, id, StepResult(Succeeded, Succeeded));
    var w' := RunStepExecutor(env, k, id, c)(ctx, w).0;
    AnchoredKeepsStatus(job, k, w);
    match IsStepEnabled(c, StatusOf(w1.state), w1.now) {
      case None =>
      case Some(false) =>
        assert w' == WithResult(w1, id, StepResult(Skipped, Skipped));
        AnchoredAfter(job, k, w.state, w'.state, StepResult(Skipped, Skipped));
      case Some(true) =>
        ActFlags(env, Body(k), ctx, w1);
        if StatusOf(w.state) == Success { FreeAfter(job, k, w1.now); }
        var r := w'.state.results[id];
        assert w'.state.results == w.state.results[id := r];
        AnchoredAfter(job, k, w.state, w'.state, r);
    }
  }

  lemma MainOfAnchors(env: Environment, job: Job, k: nat, ctx: Context, w: JobWorld)
    requires KeepsFailures(job) && k < |job.steps| && job.steps[k].Step? && Anchored(job, k, w.state)
    ensures var (w', err) := MainOf(env, job, k)(ctx, w);
            Anchored(job, k + 1, w'.state) || err == Some(Other("condition"))
  {
    hide RunStepExecutor, Act, IdOf, Anchored, KeepsFailures;
    if job.steps[k].preparesAction {
      var (w1, err) := Act(env, Prepare(k))(ctx, w);
      ActFlags(env, Prepare(k), ctx, w);
      AnchoredGrows(job, k, k, w.state, w1.state);
      AnchoredGrows(job, k, k + 1, w.state, w1.state);
      RunStepAnchors(env, job, k, ctx, Check(ctx, w1).0);
    } else {
      RunStepAnchors(env, job, k, ctx, w);
    }
  }

  lemma ReportAnchors(job: Job, k: nat, ctx: Context, w: JobWorld, err: Option<Error>)
    requires Anchored(job, k, w.state) || err == Some(Other("condition"))
    ensures Anchored(job, k, ReportStep(ctx, w, err).state)
  {
    if Anchored(job, k, w.state) { AnchoredGrows(job, k, k, w.state, ReportStep(ctx, w, err).state); }
  }

  /** A main step raises the status, if anything, and leaves no failure to be written over. */
  lemma NextAnchored(env: Environment, job: Job, k: nat, ctx: Context, w: JobWorld)
    requires AllUsable(job) && k < |job.steps| && KeepsFailures(job) && Anchored(job, k, w.state)
    ensures var w' := MainWrapper(env, job, k)(ctx, w).0;
            Rising(job, w, w') && Anchored(job, k + 1, w'.state)
  {
    hide Rising, IdOf, Anchored, MainOf, ReportStep, KeepsStatus, KeepsFailures;
    AnchoredKeepsStatus(job, k, w);
    MainRising(env, job, k, ctx, w);
    var w0 := Invoked(Main(k), ctx, w);
    AnchoredGrows(job, k, k, w.state, w0.state);
    MainOfAnchors(env, job, k, ctx, w0);
    var (w1, err) := MainOf(env, job, k)(ctx, w0);
    ReportAnchors(job, k + 1, ctx, w1, err);
  }

  /** The main steps from k on are new to the results and to each other. */
  ghost predicate NewFrom(job: Job, k: nat, results: map<string, StepResult>) {
    && (forall i | k <= i < |job.steps| :: IdOf(job, i) !in results)
    && (forall i, j | k <= i < j < |job.steps| :: IdOf(job, i) != IdOf(job, j))
  }

  lemma NewIsAnchored(job: Job, results: map<string, StepResult>)
    requires NewFrom(job, 0, results)
    ensures KeepsFailures(job) && AnchoredResults(job, 0, results)
  {
    hide IdOf;
    if SomeFailed(results) {
      var x :| x in results && results[x].conclusion == Failed;
      assert IsFree(job, 0, x);
    }
  }

  /** The main executors from step k on, without the one before them all that logs the matrix. */
  function MainFrom(env: Environment, job: Job, k: nat): (r: seq<JobExecutor>)
    requires AllUsable(job) && k <= |job.steps|
    ensures |r| == |job.steps| - k
  {
    MainExecutors(env, job)[k + 1..]
  }

  lemma MainFromStep(env: Environment, job: Job, k: nat)
    requires AllUsable(job) && k < |job.steps|
    ensures MainFrom(env, job, k)[0] == MainWrapper(env, job, k)
    ensures MainFrom(env, job, k)[1..] == MainFrom(env, job, k + 1)
  {
    hide MainWrapper;
  }

  lemma {:induction false} AllRising(env: Environment, job: Job, k: nat, ctx: Context, w: JobWorld)
    requires AllUsable(job) && k <= |job.steps| && KeepsFailures(job) && Anchored(job, k, w.state)
    ensures Rising(job, w, RunAll(MainFrom(env, job, k), ctx, w))
    decreases |job.steps| - k
  {
    if k == |job.steps| {
      SameTraceRises(job, w, w);
    } else {
      hide Rising, KeepsFailures, Anchored, MainWrapper, MainFrom;
      MainFromStep(env, job, k);
      NextAnchored(env, job, k, ctx, w);
      var w1 := MainWrapper(env, job, k)(ctx, w).0;
      AllRising(env, job, k + 1, ctx, w1);
      RisingTransitive(job, w, w1, RunAll(MainFrom(env, job, k), ctx, w));
    }
  }

  lemma {:induction false} MainFromRising(env: Environment, job: Job, k: nat, ctx: Context, w: JobWorld)
    requires AllUsable(job) && k <= |job.steps| && KeepsFailures(job) && Anchored(job, k, w.state)
    ensures Rising(job, w, RunMain(env, MainFrom(env, job, k), ctx, w).0)
    decreases |job.steps| - k
  {
    hide Rising, KeepsFailures, Anchored, MainWrapper, MainFrom;
    if k < |job.steps| { MainFromStep(env, job, k); }
    var (w1, ended) := Check(ctx, w);
    var w' := RunMain(env, MainFrom(env, job, k), ctx, w).0;
    CheckRising(job, ctx, w, ended);
    CheckRising(job, ctx, w1, ended);
    var flagged := w1.(state := MarkInterrupted(w1.state, ended));
    RisingTransitive(job, w, w1, flagged);
    AnchoredGrows(job, k, k, w.state, w1.state);
    AnchoredGrows(job, k, k, w.state, flagged.state);
    if k < |job.steps| && ended.Some? {
      AllRising(env, job, k, Fresh(env, w1.now, ctx.errors), flagged);
      RisingTransitive(job, w, flagged, w');
    } else if k < |job.steps| {
      NextAnchored(env, job, k, ctx, w1);
      var w2 := MainWrapper(env, job, k)(ctx, w1).0;
      MainFromRising(env, job, k + 1, ctx, w2);
      RisingTransitive(job, w, w1, w2);
      RisingTransitive(job, w, w2, w');
    }
  }

  lemma MainsRising(env: Environment, job: Job, ctx: Context, w: JobWorld)
    requires AllUsable(job) && KeepsFailures(job) && Anchored(job, 0, w.state)
    ensures Rising(job, w, RunMain(env, MainExecutors(env, job), ctx, w).0)
  {
    hide Rising, KeepsFailures, Anchored, MainExecutors, Act;
    var es := MainExecutors(env, job);
    var w' := RunMain(env, es, ctx, w).0;
    ActRises(env, job, MatrixLog);
    var (w1, ended) := Check(ctx, w);
    CheckRising(job, ctx, w, ended);
    CheckRising(job, ctx, w1, ended);
    var start := if ended.Some? then w1.(state := MarkInterrupted(w1.state, ended)) else w1;
    RisingTransitive(job, w, w1, start);
    var mainCtx := if ended.Some? then Fresh(env, w1.now, ctx.errors) else ctx;
    var w2 := Quiet(env, MatrixLog)(mainCtx, start).0;
    assert Rising(job, start, w2) && w2.state.results == w.state.results;
    RisingTransitive(job, w, start, w2);
    ActFlags(env, MatrixLog, mainCtx, start);
    AnchoredGrows(job, 0, 0, w.state, w2.state);
    if ended.Some? {
      AllRising(env, job, 0, mainCtx, w2);
    } else {
      MainFromRising(env, job, 0, ctx, w2);
    }
    RisingTransitive(job, w, w2, w');
  }

  // ---------------------------------------------------------------- the whole job

  lemma {:induction false} PipelineRising(job: Job, es: seq<JobExecutor>, ctx: Context, w: JobWorld)
    requires forall i | 0 <= i < |es| :: Rises(job, es[i])
    ensures var w' := RunPipeline(es, ctx, w).0; Rising(job, w, w') && w'.state.results == w.state.results
    decreases |es|
  {
    if es == [] {
      SameTraceRises(job, w, w);
    } else {
      hide Rising;
      assert Rises(job, es[0]);
      var (w1, err) := es[0](ctx, w);
      var (w2, ended) := Check(ctx, w1);
      CheckRising(job, ctx, w1, None);
      RisingTransitive(job, w, w1, w2);
      if |es| > 1 && err == None && ended == None {
        assert forall i | 0 <= i < |es[1..]| :: es[1..][i] == es[i + 1];
        PipelineRising(job, es[1..], ctx, w2);
        RisingTransitive(job, w, w2, RunPipeline(es, ctx, w).0);
      }
    }
  }

  lemma PresRise(env: Environment, job: Job)
    ensures forall i | 0 <= i < |PreExecutors(env, job)| :: Rises(job, PreExecutors(env, job)[i])
  {
    hide Rises;
    var es := PreExecutors(env, job);
    ActRises(env, job, Setup);
    ActRises(env, job, StartedHook);
    ActRises(env, job, PrepareActions);
    ActRises(env, job, CompleteName);
    forall i | 0 <= i < |es| ensures Rises(job, es[i]) {
      if 3 <= i < |es| - 1 {
        assert es[(i - 3) + 3] == PreWrapper(env, i - 3);
        WrappersRise(env, job, i - 3);
      }
    }
  }

  lemma {:induction false} PostsRising(env: Environment, job: Job, k: nat, ctx: Context, w: JobWorld)
    requires k > 0
    ensures Rising(job, w, RunPosts(env, k, ctx, w).0)
  {
    hide Rising;
    WrappersRise(env, job, k - 1);
    var w1 := PostWrapper(env, k - 1)(ctx, w).0;
    assert Rising(job, w, w1);
    if k > 1 {
      PostsRising(env, job, k - 1, ctx, w1);
      RisingTransitive(job, w, w1, RunPosts(env, k, ctx, w).0);
    }
  }

  lemma BeforePostsRising(env: Environment, job: Job, ctx: Context, w: JobWorld)
    ensures Rising(job, w, BeforePosts(env, ctx, w).0)
  {
    hide Rising;
    var (w1, ended) := Check(ctx, w);
    var flagged := w1.(state := MarkInterrupted(w1.state, ended));
    CheckRising(job, ctx, w, ended);
    CheckRising(job, ctx, w1, ended);
    RisingTransitive(job, w, w1, flagged);
    PostContextRising(env, job, ctx, flagged);
    RisingTransitive(job, w, flagged, BeforePosts(env, ctx, w).0);
  }

  lemma PostContextRising(env: Environment, job: Job, ctx: Context, w: JobWorld)
    ensures Rising(job, w, PostStepsContext(env, ctx, w).0)
  {
    StatusFields(w.state, PostStepsContext(env, ctx, w).0.state);
  }

  lemma PostPartRising(env: Environment, job: Job, ctx: Context, w: JobWorld)
    requires |job.steps| > 0
    ensures Rising(job, w, RunPostPart(env, job, ctx, w).0)
  {
    hide Rising, BeforePosts, RunPosts, Reporting, Act;
    var (w2, postCtx) := BeforePosts(env, ctx, w);
    BeforePostsRising(env, job, ctx, w);
    var w3 := RunPosts(env, |job.steps|, postCtx, w2).0;
    PostsRising(env, job, |job.steps|, postCtx, w2);
    RisingTransitive(job, w, w2, w3);
    ActRises(env, job, CompletedHook);
    ActRises(env, job, Stop);
    var w4 := Reporting(env, CompletedHook)(postCtx, w3).0;
    assert Rising(job, w3, w4);
    RisingTransitive(job, w, w3, w4);
    var w5 := Teardown(env, job)(postCtx, w4).0;
    if StopsContainer(job, postCtx, w4.state) {
      var stopCtx := Fresh(env, w4.now, postCtx.errors);
      assert Rising(job, w4, Act(env, Stop)(stopCtx, w4).0);
      RisingTransitive(job, w, w4, w5);
    }
  }

  lemma StartedRising(env: Environment, job: Job, ctx: Context, w: JobWorld)
    requires |job.steps| > 0 && AllUsable(job) && KeepsFailures(job) && AnchoredResults(job, 0, w.state.results)
    ensures Rising(job, w, RunStarted(env, job, ctx, w).0)
  {
    hide Rising, RunPipeline, RunMain, RunPostPart, Act, PreExecutors, MainExecutors, KeepsFailures, AnchoredResults,
      Rises;
    var w0 := RunPipeline(PreExecutors(env, job), ctx, w).0;
    PresRise(env, job);
    PipelineRising(job, PreExecutors(env, job), ctx, w);
    assert Anchored(job, 0, w0.state);
    var w1 := RunMain(env, MainExecutors(env, job), ctx, w0).0;
    MainsRising(env, job, ctx, w0);
    RisingTransitive(job, w, w0, w1);
    var w2 := RunPostPart(env, job, ctx, w1).0;
    PostPartRising(env, job, ctx, w1);
    RisingTransitive(job, w, w1, w2);
    ActRising(env, job, InterpolateOutputs, ctx, w2);
    var w3 := Act(env, InterpolateOutputs)(ctx, w2).0;
    RisingTransitive(job, w, w2, w3);
    ActRising(env, job, Close, ctx, w3);
    RisingTransitive(job, w, w3, Act(env, Close)(ctx, w3).0);
  }

  /** Over the whole of any run of a job in which no step that can run while the job succeeds has a later
      step of its id, the status only rises. */
  lemma StatusOnlyRises(env: Environment, job: Job, ctx: Context, w: JobWorld)
    requires KeepsFailures(job) && AnchoredResults(job, 0, w.state.results)
    ensures Rising(job, w, RunJob(env, job, ctx, w).0)
  {
    hide Rising, RunStarted, Act, KeepsFailures, AnchoredResults;
    SameTraceRises(job, w, w);
    if job.steps != [] && AllUsable(job) {
      ActRising(env, job, Start, ctx, w);
      var (w1, err) := Act(env, Start)(ctx, w);
      if err == None {
        var (w2, ended) := Check(ctx, w1);
        CheckRising(job, ctx, w1, None);
        RisingTransitive(job, w, w1, w2);
        if ended == None {
          StartedRising(env, job, ctx, w2);
          RisingTransitive(job, w, w2, RunStarted(env, job, ctx, w2).0);
        }
      }
    }
  }

  /** A condition that only holds while the job succeeds: success() itself, or one that names no status
      function. */
  ghost predicate NeedsSuccess(c: Condition) {
    forall status, now :: IsStepEnabled(c, status, now) == Some(true) ==> status == Success
  }

  lemma DefaultNeedsSuccess(c: Condition)
    requires !c.namesStatus
    ensures NeedsSuccess(c)
  {
  }

  /** So once anything has started with the job failed or cancelled, no step that needs success runs. */
  lemma SuccessStepsStayOff(env: Environment, job: Job, ctx: Context, w: JobWorld, i: nat, j: nat)
    requires KeepsFailures(job) && AnchoredResults(job, 0, w.state.results)
    requires var trace := RunJob(env, job, ctx, w).0.state.trace;
             && |w.state.trace| <= i <= j < |trace| && trace[j].action.Body?
             && trace[j].action.step < |job.steps| && job.steps[trace[j].action.step].Step?
             && NeedsSuccess(job.steps[trace[j].action.step].condition)
    ensures RunJob(env, job, ctx, w).0.state.trace[i].status == Success
  {
    hide RunJob, KeepsFailures, AnchoredResults;
    StatusOnlyRises(env, job, ctx, w);
    var trace := RunJob(env, job, ctx, w).0.state.trace;
    assert IsEnabledBody(job, trace[j]);
    assert Rank(trace[i].status) <= Rank(trace[j].status);
  }

  /** From a state in which the job does not succeed, no body that needs success starts, and none whose
      condition names no status function. */
  lemma NoSuccessBodies(job: Job, w: JobWorld, w': JobWorld, e: nat)
    requires Rising(job, w, w') && StatusOf(w.state) != Success
    requires |w.state.trace| <= e < |w'.state.trace| && w'.state.trace[e].action.Body?
    ensures var i := w'.state.trace[e].action.step;
            i < |job.steps| && job.steps[i].Step? && RunsWithoutSuccess(job.steps[i].condition)
  {
    var event := w'.state.trace[e];
    assert IsEnabledBody(job, event) && RankOf(w) <= Rank(event.status);
    var c := job.steps[event.action.step].condition;
    if !c.namesStatus { DefaultNeedsSuccess(c); }
  }

  ghost predicate RunsWithoutSuccess(c: Condition) {
    c.namesStatus && !NeedsSuccess(c)
  }

  /** After a main step has concluded in failure, or left the job flagged, none of the remaining main steps
      that needs success starts its body: neither under the job's context nor under a fresh one. */
  lemma FailedStepStopsSuccess(env: Environment, job: Job, k: nat, ctx: Context, w: JobWorld, ctx2: Context, e: nat)
    requires AllUsable(job) && k < |job.steps| && KeepsFailures(job) && Anchored(job, k, w.state)
    requires var s := MainWrapper(env, job, k)(ctx, w).0.state;
             s.failed || s.cancelled || (IdOf(job, k) in s.results && s.results[IdOf(job, k)].conclusion == Failed)
    ensures var w1 := MainWrapper(env, job, k)(ctx, w).0;
            var r := RunMain(env, MainFrom(env, job, k + 1), ctx2, w1).0;
            |w1.state.trace| <= e < |r.state.trace| && r.state.trace[e].action.Body? ==>
              var i := r.state.trace[e].action.step;
              i < |job.steps| && job.steps[i].Step? && RunsWithoutSuccess(job.steps[i].condition)
    ensures var w1 := MainWrapper(env, job, k)(ctx, w).0;
            var r := RunAll(MainFrom(env, job, k + 1), ctx2, w1);
            |w1.state.trace| <= e < |r.state.trace| && r.state.trace[e].action.Body? ==>
              var i := r.state.trace[e].action.step;
              i < |job.steps| && job.steps[i].Step? && RunsWithoutSuccess(job.steps[i].condition)
  {
    hide MainWrapper, MainFrom, RunMain, RunAll, Rising, Anchored, KeepsFailures, IdOf, RunsWithoutSuccess;
    var w1 := MainWrapper(env, job, k)(ctx, w).0;
    NextAnchored(env, job, k, ctx, w);
    assert StatusOf(w1.state) != Success;
    MainFromRising(env, job, k + 1, ctx2, w1);
    AllRising(env, job, k + 1, ctx2, w1);
    var r1, r2 := RunMain(env, MainFrom(env, job, k + 1), ctx2, w1).0, RunAll(MainFrom(env, job, k + 1), ctx2, w1);
    if |w1.state.trace| <= e < |r1.state.trace| && r1.state.trace[e].action.Body? { NoSuccessBodies(job, w1, r1, e); }
    if |w1.state.trace| <= e < |r2.state.trace| && r2.state.trace[e].action.Body? { NoSuccessBodies(job, w1, r2, e); }
  }
}
