/** Under which context a job's steps start when it is interrupted, and what they see of it. */
module JobInterrupt {
  import opened Basics
  import opened Executors
  import opened JobModel
  import opened JobStatus

  // ---------------------------------------------------------------- flags

  /** Flags are never taken back and time does not run backwards. */
  predicate FlagsKept(w: JobWorld, w': JobWorld) {
    && (w.state.cancelled ==> w'.state.cancelled) && (w.state.failed ==> w'.state.failed)
    && w.now <= w'.now && w.state.trace <= w'.state.trace
  }

  /** The interrupt has been recorded. */
  predicate IsRecorded(s: State, reason: ContextError) {
    match reason
    case Canceled => s.cancelled
    case DeadlineExceeded => s.failed
  }

  /** What conditions see of it: cancelled() after a cancellation, not success() in any case. */
  predicate ShowsInterrupt(status: Status, reason: ContextError) {
    status != Success && (reason == Canceled ==> status == Cancelled)
  }

  lemma RecordedShows(s: State, reason: ContextError)
    requires IsRecorded(s, reason)
    ensures ShowsInterrupt(StatusOf(s), reason)
  {
  }

  /** What runs between two worlds starts under one context, whatever it is, and the first action with the
      status before. */
  ghost predicate RunsUnder(ctx: Context, w: JobWorld, w': JobWorld) {
    && FlagsKept(w, w')
    && forall e | |w.state.trace| <= e < |w'.state.trace| ::
         w'.state.trace[e].ctx == ctx && w.now <= w'.state.trace[e].at
  }

  /** And an interrupt recorded before shows to all of it. */
  ghost predicate Shows(w: JobWorld, w': JobWorld) {
    forall reason, e | IsRecorded(w.state, reason) && |w.state.trace| <= e < |w'.state.trace| ::
      ShowsInterrupt(w'.state.trace[e].status, reason)
  }

  lemma RunsUnderTransitive(ctx: Context, a: JobWorld, b: JobWorld, c: JobWorld)
    requires RunsUnder(ctx, a, b) && Shows(a, b) && RunsUnder(ctx, b, c) && Shows(b, c)
    ensures RunsUnder(ctx, a, c) && Shows(a, c)
  {
    hide ShowsInterrupt;
    assert forall i | 0 <= i < |b.state.trace| :: c.state.trace[i] == b.state.trace[i];
    forall reason | IsRecorded(a.state, reason) ensures IsRecorded(b.state, reason) {}
  }

  lemma ActUnder(env: Environment, a: Action, ctx: Context, w: JobWorld)
    ensures var w' := Act(env, a)(ctx, w).0;
            && RunsUnder(ctx, w, w') && Shows(w, w')
            && w'.state.trace == w.state.trace + [Event(a, w.now, ctx, StatusOf(w.state))]
            && w'.now == w.now + 1
  {
    RecordedKeeps(env, ctx, Invoked(a, ctx, w));
    forall reason | IsRecorded(w.state, reason) ensures ShowsInterrupt(StatusOf(w.state), reason) {
      RecordedShows(w.state, reason);
    }
  }

  lemma SameTraceUnder(ctx: Context, w: JobWorld, w': JobWorld)
    requires FlagsKept(w, w') && w'.state.trace == w.state.trace
    ensures RunsUnder(ctx, w, w') && Shows(w, w')
  {
  }

  lemma ReportUnder(ctx: Context, w: JobWorld, err: Option<Error>)
    ensures RunsUnder(ctx, w, ReportStep(ctx, w, err)) && Shows(w, ReportStep(ctx, w, err))
    ensures err.Some? ==>
              RunsUnder(ctx, w, ReportStepError(ctx, w, err.value)) && Shows(w, ReportStepError(ctx, w, err.value))
  {
    SameTraceUnder(ctx, w, ReportStep(ctx, w, err));
    if err.Some? { SameTraceUnder(ctx, w, ReportStepError(ctx, w, err.value)); }
  }

  // ---------------------------------------------------------------- a main step's start

  /** Everything a main step starts, it starts under its own context. */
  lemma MainUnder(env: Environment, job: Job, k: nat, ctx: Context, w: JobWorld)
    requires k < |job.steps| && job.steps[k].Step?
    ensures var w' := MainWrapper(env, job, k)(ctx, w).0; RunsUnder(ctx, w, w') && Shows(w, w')
    ensures var t := MainWrapper(env, job, k)(ctx, w).0.state.trace;
            |w.state.trace| < |t| && t[|w.state.trace|] == Event(Main(k), w.now, ctx, StatusOf(w.state))
  {
    hide MainOf, ReportStep, StatusOf, ShowsInterrupt;
    var w0 := Invoked(Main(k), ctx, w);
    forall reason | IsRecorded(w.state, reason) ensures ShowsInterrupt(StatusOf(w.state), reason) {
      RecordedShows(w.state, reason);
    }
    var (w1, err) := MainOf(env, job, k)(ctx, w0);
    MainOfUnder(env, job, k, ctx, w0);
    ReportUnder(ctx, w1, err);
    RunsUnderTransitive(ctx, w, w0, w1);
    RunsUnderTransitive(ctx, w, w1, ReportStep(ctx, w1, err));
  }

  lemma MainOfUnder(env: Environment, job: Job, k: nat, ctx: Context, w: JobWorld)
    requires k < |job.steps| && job.steps[k].Step?
    ensures var w' := MainOf(env, job, k)(ctx, w).0; RunsUnder(ctx, w, w') && Shows(w, w')
  {
    hide RunStepExecutor, Act, IdOf, RunsUnder, Shows;
    ActUnder(env, Prepare(k), ctx, w);
    var (w1, err) := Act(env, Prepare(k))(ctx, w);
    var w2 := Check(ctx, w1).0;
    SameTraceUnder(ctx, w1, w2);
    RunsUnderTransitive(ctx, w, w1, w2);
    var id, c := IdOf(job, k), job.steps[k].condition;
    RunStepUnder(env, k, id, c, ctx, w);
    RunStepUnder(env, k, id, c, ctx, w2);
    RunsUnderTransitive(ctx, w, w2, RunStepExecutor(env, k, id, c)(ctx, w2).0);
  }

  lemma RunStepUnder(env: Environment, k: nat, id: string, c: Condition, ctx: Context, w: JobWorld)
    ensures var w' := RunStepExecutor(env, k, id, c)(ctx, w).0; RunsUnder(ctx, w, w') && Shows(w, w')
  {
    hide Act, StatusOf, RunsUnder, Shows;
    var w1 := WithResult(w, id, StepResult(Succeeded, Succeeded));
    var w' := RunStepExecutor(env, k, id, c)(ctx, w).0;
    SameTraceUnder(ctx, w, w1);
    match IsStepEnabled(c, StatusOf(w1.state), w1.now) {
      case Some(true) =>
        var w2 := Act(env, Body(k))(ctx, w1).0;
        ActUnder(env, Body(k), ctx, w1);
        RunsUnderTransitive(ctx, w, w1, w2);
        SameTraceUnder(ctx, w2, w');
        RunsUnderTransitive(ctx, w, w2, w');
      case Some(false) =>
        assert w' == WithResult(w1, id, StepResult(Skipped, Skipped));
        SameTraceUnder(ctx, w, w');
      case None =>
        assert w' == WithResult(w1, id, StepResult(Failed, Failed));
        SameTraceUnder(ctx, w, w');
    }
  }

  // ---------------------------------------------------------------- the main steps

  /** Started under the job's own context; a main step, right after a look that found it live. */
  predicate UnderJob(ctx: Context, e: Event) {
    e.ctx == ctx && (e.action.Main? || e.action == MatrixLog ==> e.at > 0 && EndOf(ctx, e.at - 1) == None)
  }

  /** Started under the fresh context made at a moment right after the job's context was seen to have
      ended; the interrupt shows. */
  predicate UnderFresh(env: Environment, ctx: Context, t: nat, e: Event) {
    && 0 < t <= e.at && EndOf(ctx, t - 1).Some?
    && e.ctx == Fresh(env, t, ctx.errors) && EndOf(e.ctx, t) == None
    && ShowsInterrupt(e.status, EndOf(ctx, t - 1).value)
  }

  ghost predicate AllFresh(env: Environment, ctx: Context, t: nat, w: JobWorld, w': JobWorld) {
    && FlagsKept(w, w')
    && forall e | |w.state.trace| <= e < |w'.state.trace| :: UnderFresh(env, ctx, t, w'.state.trace[e])
  }

  lemma NextAll(env: Environment, job: Job, k: nat, ctx: Context, w: JobWorld)
    requires AllUsable(job) && k <= |job.steps|
    ensures RunAll(MainFrom(env, job, k), ctx, w) ==
            if k == |job.steps| then w else RunAll(MainFrom(env, job, k + 1), ctx, MainWrapper(env, job, k)(ctx, w).0)
  {
    hide MainWrapper, MainFrom;
    if k < |job.steps| { MainFromStep(env, job, k); }
  }

  lemma AllFreshNone(env: Environment, ctx: Context, t: nat, w: JobWorld)
    ensures AllFresh(env, ctx, t, w, w)
  {
  }

  lemma AllFreshTransitive(env: Environment, ctx: Context, t: nat, a: JobWorld, b: JobWorld, c: JobWorld)
    requires AllFresh(env, ctx, t, a, b) && AllFresh(env, ctx, t, b, c)
    ensures AllFresh(env, ctx, t, a, c)
  {
    hide UnderFresh;
    assert forall e | |a.state.trace| <= e < |b.state.trace| :: c.state.trace[e] == b.state.trace[e];
  }

  lemma {:induction false} AllUnderFresh(env: Environment, job: Job, k: nat, ctx: Context, t: nat, w: JobWorld)
    requires AllUsable(job) && k <= |job.steps| && 0 < t <= w.now
    requires EndOf(ctx, t - 1).Some? && IsRecorded(w.state, EndOf(ctx, t - 1).value)
    ensures var w' := RunAll(MainFrom(env, job, k), Fresh(env, t, ctx.errors), w);
            AllFresh(env, ctx, t, w, w')
    decreases |job.steps| - k
  {
    hide MainWrapper, UnderFresh, EndOf, Fresh, AllFresh, RunsUnder, Shows, FlagsKept, IsRecorded, RunAll, MainFrom;
    NextAll(env, job, k, Fresh(env, t, ctx.errors), w);
    if k == |job.steps| {
      AllFreshNone(env, ctx, t, w);
    } else {
      var detached := Fresh(env, t, ctx.errors);
      MainUnder(env, job, k, detached, w);
      var w1 := MainWrapper(env, job, k)(detached, w).0;
      UnderFreshFrom(env, ctx, t, w, w1);
      AllUnderFresh(env, job, k + 1, ctx, t, w1);
      AllFreshTransitive(env, ctx, t, w, w1, RunAll(MainFrom(env, job, k), detached, w));
    }
  }

  lemma UnderFreshFrom(env: Environment, ctx: Context, t: nat, w: JobWorld, w': JobWorld)
    requires 0 < t <= w.now && EndOf(ctx, t - 1).Some? && IsRecorded(w.state, EndOf(ctx, t - 1).value)
    requires RunsUnder(Fresh(env, t, ctx.errors), w, w') && Shows(w, w')
    ensures AllFresh(env, ctx, t, w, w')
    ensures IsRecorded(w'.state, EndOf(ctx, t - 1).value) && w.now <= w'.now
  {
    hide ShowsInterrupt;
  }

  /** The main steps' starts: up to some point each under the job's context, seen live right before; from
      there on all under one fresh context, the interrupt recorded. */
  ghost predicate Detached(env: Environment, ctx: Context, w: JobWorld, w': JobWorld, split: nat, t: nat) {
    && |w.state.trace| <= split <= |w'.state.trace| && w.state.trace <= w'.state.trace
    && (forall e | |w.state.trace| <= e < split :: UnderJob(ctx, w'.state.trace[e]))
    && (forall e | split <= e < |w'.state.trace| :: UnderFresh(env, ctx, t, w'.state.trace[e]))
  }

  ghost predicate DetachesOnce(env: Environment, ctx: Context, w: JobWorld, w': JobWorld) {
    exists split: nat, t: nat :: Detached(env, ctx, w, w', split, t)
  }

  /** An end of the context by the last look of the main steps is recorded. */
  predicate EndRecorded(ctx: Context, w: JobWorld, w': JobWorld) {
    w.now < w'.now && (EndOf(ctx, w'.now - 1).Some? ==> IsRecorded(w'.state, EndOf(ctx, w'.now - 1).value))
  }

  /** A main step under the job's context looks at it first. */
  lemma MainUnderJob(env: Environment, job: Job, k: nat, ctx: Context, w: JobWorld)
    requires AllUsable(job) && k < |job.steps| && w.now > 0 && EndOf(ctx, w.now - 1) == None
    ensures var w' := MainWrapper(env, job, k)(ctx, w).0;
            && w.state.trace <= w'.state.trace && w.now <= w'.now
            && forall e | |w.state.trace| <= e < |w'.state.trace| :: UnderJob(ctx, w'.state.trace[e])
  {
    hide MainWrapper;
    MainUnder(env, job, k, ctx, w);
    InnerEvents(env, job, k, ctx, w);
  }

  /** Within a main step's executor no other main step starts. */
  lemma InnerEvents(env: Environment, job: Job, k: nat, ctx: Context, w: JobWorld)
    requires k < |job.steps| && job.steps[k].Step?
    ensures var t := MainWrapper(env, job, k)(ctx, w).0.state.trace;
            forall e | |w.state.trace| < e < |t| :: t[e].action == Prepare(k) || t[e].action == Body(k)
  {
    hide StatusOf, Act, IdOf, RunStepExecutor;
    var w0 := Invoked(Main(k), ctx, w);
    var id, c := IdOf(job, k), job.steps[k].condition;
    ActUnder(env, Prepare(k), ctx, w0);
    var (w1, err) := Act(env, Prepare(k))(ctx, w0);
    var w2 := Check(ctx, w1).0;
    BodyOnly(env, k, id, c, ctx, w0);
    BodyOnly(env, k, id, c, ctx, w2);
    var (m, merr) := MainOf(env, job, k)(ctx, w0);
    assert ReportStep(ctx, m, merr).state.trace == m.state.trace;
  }

  lemma BodyOnly(env: Environment, k: nat, id: string, c: Condition, ctx: Context, w: JobWorld)
    ensures var t := RunStepExecutor(env, k, id, c)(ctx, w).0.state.trace;
            && w.state.trace <= t
            && forall e | |w.state.trace| <= e < |t| :: t[e].action == Body(k)
  {
    hide StatusOf, Act;
    ActUnder(env, Body(k), ctx, WithResult(w, id, StepResult(Succeeded, Succeeded)));
  }

  lemma DetachedFirst(env: Environment, ctx: Context, a: JobWorld, b: JobWorld, c: JobWorld)
    requires a.state.trace <= b.state.trace
    requires forall e | |a.state.trace| <= e < |b.state.trace| :: UnderJob(ctx, b.state.trace[e])
    requires DetachesOnce(env, ctx, b, c)
    ensures DetachesOnce(env, ctx, a, c)
  {
    hide UnderJob, UnderFresh;
    var split: nat, t: nat :| Detached(env, ctx, b, c, split, t);
    assert forall e | |a.state.trace| <= e < |b.state.trace| :: c.state.trace[e] == b.state.trace[e];
    assert Detached(env, ctx, a, c, split, t);
  }

  /** The rest of the main steps after the job's context was seen to have ended. */
  lemma RestDetached(env: Environment, job: Job, k: nat, ctx: Context, w: JobWorld, reason: ContextError)
    requires AllUsable(job) && k <= |job.steps| && w.now > 0 && EndOf(ctx, w.now - 1) == Some(reason)
    ensures var w' := RunAfterInterrupt(env, MainFrom(env, job, k), ctx, w, reason).0;
            DetachesOnce(env, ctx, w, w') && IsRecorded(w'.state, reason) && w.now <= w'.now
  {
    hide UnderFresh;
    var flagged := w.(state := MarkInterrupted(w.state, Some(reason)));
    AllUnderFresh(env, job, k, ctx, w.now, flagged);
    assert Detached(env, ctx, w, RunAfterInterrupt(env, MainFrom(env, job, k), ctx, w, reason).0,
                    |w.state.trace|, w.now);
  }

  lemma {:induction false} MainFromDetaches(env: Environment, job: Job, k: nat, ctx: Context, w: JobWorld)
    requires AllUsable(job) && k <= |job.steps|
    ensures var w' := RunMain(env, MainFrom(env, job, k), ctx, w).0;
            DetachesOnce(env, ctx, w, w') && EndRecorded(ctx, w, w')
    decreases |job.steps| - k
  {
    hide MainWrapper, UnderJob, UnderFresh, MainFrom;
    if k < |job.steps| { MainFromStep(env, job, k); }
    var (w1, ended) := Check(ctx, w);
    var w' := RunMain(env, MainFrom(env, job, k), ctx, w).0;
    if k == |job.steps| {
      assert Detached(env, ctx, w, w', |w.state.trace|, 0);
    } else if ended.Some? {
      RestDetached(env, job, k, ctx, w1, ended.value);
      DetachedFirst(env, ctx, w, w1, w');
    } else {
      MainUnderJob(env, job, k, ctx, w1);
      var w2 := MainWrapper(env, job, k)(ctx, w1).0;
      MainFromDetaches(env, job, k + 1, ctx, w2);
      DetachedFirst(env, ctx, w, w2, w');
    }
  }

  lemma FirstMain(env: Environment, job: Job, ctx: Context, w: JobWorld)
    requires AllUsable(job)
    ensures var w1, es := Check(ctx, w).0, MainExecutors(env, job);
            var r := RunMain(env, es, ctx, w).0;
            match EndOf(ctx, w.now)
            case None => r == RunMain(env, MainFrom(env, job, 0), ctx, Quiet(env, MatrixLog)(ctx, w1).0).0
            case Some(reason) =>
              var detached := Fresh(env, w1.now, ctx.errors);
              var flagged := w1.(state := MarkInterrupted(w1.state, Some(reason)));
              r == RunAll(MainFrom(env, job, 0), detached, Quiet(env, MatrixLog)(detached, flagged).0)
  {
    hide MainWrapper, MainExecutors;
  }

  /** Wherever a run's context ends, its main steps start under that context while it is seen live, and
      from the first look that finds it ended under one fresh, live context with the interrupt recorded,
      also if it is the look after the last step. */
  lemma MainStepsDetach(env: Environment, job: Job, ctx: Context, w: JobWorld)
    requires AllUsable(job)
    ensures var w' := RunMain(env, MainExecutors(env, job), ctx, w).0;
            DetachesOnce(env, ctx, w, w') && EndRecorded(ctx, w, w')
  {
    hide MainFrom, RunMain, RunAll, MainExecutors, Act, UnderFresh;
    FirstMain(env, job, ctx, w);
    var w1 := Check(ctx, w).0;
    var r := RunMain(env, MainExecutors(env, job), ctx, w).0;
    match EndOf(ctx, w.now) {
      case None =>
        ActUnder(env, MatrixLog, ctx, w1);
        var w2 := Quiet(env, MatrixLog)(ctx, w1).0;
        MainFromDetaches(env, job, 0, ctx, w2);
        DetachedFirst(env, ctx, w, w2, r);
      case Some(reason) =>
        var t := w1.now;
        var detached := Fresh(env, t, ctx.errors);
        var flagged := w1.(state := MarkInterrupted(w1.state, Some(reason)));
        ActUnder(env, MatrixLog, detached, flagged);
        var w2 := Quiet(env, MatrixLog)(detached, flagged).0;
        UnderFreshFrom(env, ctx, t, flagged, w2);
        AllUnderFresh(env, job, 0, ctx, t, w2);
        AllFreshTransitive(env, ctx, t, flagged, w2, r);
        assert Detached(env, ctx, w, r, |w.state.trace|, t);
    }
  }

  // ---------------------------------------------------------------- the post steps

  /** What the second look decides, and what the first records: the post steps run detached exactly when
      the context had ended by the second look, and the interrupt is recorded when it had by the first.
      Between the two the run is detached with nothing recorded. */
  lemma PostsDetach(env: Environment, ctx: Context, w: JobWorld)
    ensures var (w2, postCtx) := BeforePosts(env, ctx, w);
            match EndOf(ctx, w.now + 1)
            case None => postCtx == ctx && w2.state == w.state
            case Some(reason) =>
              && postCtx == Fresh(env, w2.now, if reason == Canceled then ctx.errors + 1 else ctx.errors)
              && EndOf(postCtx, w2.now) == None
              && (EndOf(ctx, w.now).Some? ==> IsRecorded(w2.state, reason))
              && (EndOf(ctx, w.now) == None ==> StatusOf(w2.state) == StatusOf(w.state))
              && (EndOf(ctx, w.now) == None <==> ctx.end == Some((w.now + 1, reason)))
    ensures BeforePosts(env, ctx, w).0.now == w.now + 2 && FlagsKept(w, BeforePosts(env, ctx, w).0)
  {
  }

  lemma PostUnder(env: Environment, k: nat, ctx: Context, w: JobWorld)
    ensures var w' := PostWrapper(env, k)(ctx, w).0; RunsUnder(ctx, w, w') && Shows(w, w')
  {
    hide Act, ReportStep, RunsUnder, Shows;
    ActUnder(env, Post(k), ctx, w);
    var (w1, err) := Act(env, Post(k))(ctx, w);
    ReportUnder(ctx, w1, err);
    RunsUnderTransitive(ctx, w, w1, ReportStep(ctx, w1, err));
  }

  lemma {:induction false} PostsUnder(env: Environment, k: nat, ctx: Context, w: JobWorld)
    requires k > 0
    ensures var w' := RunPosts(env, k, ctx, w).0; RunsUnder(ctx, w, w') && Shows(w, w')
  {
    hide PostWrapper, RunsUnder, Shows;
    PostUnder(env, k - 1, ctx, w);
    if k > 1 {
      var w1 := PostWrapper(env, k - 1)(ctx, w).0;
      PostsUnder(env, k - 1, ctx, w1);
      RunsUnderTransitive(ctx, w, w1, RunPosts(env, k, ctx, w).0);
    }
  }

  /** Post steps and the completed hook all start under the one post context, and every interrupt recorded
      before them shows. */
  lemma PostStepsUnder(env: Environment, job: Job, ctx: Context, w: JobWorld)
    requires |job.steps| > 0
    ensures var (w2, postCtx) := BeforePosts(env, ctx, w);
            var w4 := AtTeardown(env, job, ctx, w).0;
            RunsUnder(postCtx, w2, w4) && Shows(w2, w4)
  {
    hide RunPosts, Act, ReportStepError, RunsUnder, Shows;
    var (w2, postCtx) := BeforePosts(env, ctx, w);
    var w3 := RunPosts(env, |job.steps|, postCtx, w2).0;
    PostsUnder(env, |job.steps|, postCtx, w2);
    ActUnder(env, CompletedHook, postCtx, w3);
    var (v, err) := Act(env, CompletedHook)(postCtx, w3);
    RunsUnderTransitive(postCtx, w2, w3, v);
    if err.Some? {
      ReportUnder(postCtx, v, err);
      RunsUnderTransitive(postCtx, w2, v, ReportStepError(postCtx, v, err.value));
    }
  }

  /** An interrupt recorded before the post steps, as after any look of the main steps, shows to every one
      of them. */
  lemma InterruptShowsToPosts(env: Environment, job: Job, ctx: Context, w: JobWorld, e: nat)
    requires |job.steps| > 0 && EndOf(ctx, w.now).Some?
    requires |w.state.trace| <= e < |AtTeardown(env, job, ctx, w).0.state.trace|
    ensures var event := AtTeardown(env, job, ctx, w).0.state.trace[e];
            event.ctx == BeforePosts(env, ctx, w).1 && event.ctx != ctx &&
            ShowsInterrupt(event.status, EndOf(ctx, w.now).value)
  {
    hide AtTeardown, ShowsInterrupt;
    PostsDetach(env, ctx, w);
    PostStepsUnder(env, job, ctx, w);
    assert BeforePosts(env, ctx, w).0.state.trace == w.state.trace;
  }

  /** The container is stopped under a context of its own that is live, whatever has become of the other. */
  lemma StopIsDetached(env: Environment, job: Job, ctx: Context, w: JobWorld)
    requires StopsContainer(job, ctx, w.state)
    ensures var (w', err) := Teardown(env, job)(ctx, w);
            && |w'.state.trace| == |w.state.trace| + 1 && w.state.trace <= w'.state.trace
            && var stop := w'.state.trace[|w.state.trace|];
            && stop.action == Stop && stop.at == w.now && EndOf(stop.ctx, w.now) == None
            && stop.ctx.errors == ctx.errors && err == env.outcome(Stop, w.now)
  {
    hide StatusOf;
    var own := Fresh(env, w.now, ctx.errors);
    assert EndOf(own, w.now) == None && own.errors == ctx.errors;
    ActUnder(env, Stop, own, w);
  }
}
