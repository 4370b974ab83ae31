/** What a job runs and in which order, however its steps fail and whenever its context ends. */
module JobOrder {
  import opened Basics
  import opened Executors
  import opened JobModel

  /** The actions of a trace, without what main steps' executors do inside. */
  function Invocations(trace: seq<Event>): seq<Action> {
    if trace == [] then [] else
      var a := trace[|trace| - 1].action;
      Invocations(trace[..|trace| - 1]) + (if a.Prepare? || a.Body? then [] else [a])
  }

  function InvokedBy(w: JobWorld): seq<Action> {
    Invocations(w.state.trace)
  }

  /** The executor invokes exactly one action, whatever the context and the state. */
  ghost predicate Invokes(e: JobExecutor, a: Action) {
    forall ctx, w :: InvokedBy(e(ctx, w).0) == InvokedBy(w) + [a]
  }

  ghost predicate InvokeEach(es: seq<JobExecutor>, actions: seq<Action>) {
    |es| == |actions| && forall i | 0 <= i < |es| :: Invokes(es[i], actions[i])
  }

  lemma ActTrace(env: Environment, a: Action, ctx: Context, w: JobWorld)
    ensures InvokedBy(Act(env, a)(ctx, w).0) == InvokedBy(w) + (if a.Prepare? || a.Body? then [] else [a])
  {
    RecordedKeeps(env, ctx, Invoked(a, ctx, w));
  }

  lemma ReportTrace(ctx: Context, w: JobWorld, err: Option<Error>)
    ensures InvokedBy(ReportStep(ctx, w, err)) == InvokedBy(w)
    ensures err.Some? ==> InvokedBy(ReportStepError(ctx, w, err.value)) == InvokedBy(w)
  {
    assert ReportStep(ctx, w, err).state.trace == w.state.trace;
    assert err.Some? ==> ReportStepError(ctx, w, err.value).state.trace == w.state.trace;
  }

  lemma ActInvokes(env: Environment, a: Action)
    requires !a.Prepare? && !a.Body?
    ensures Invokes(Act(env, a), a) && Invokes(Quiet(env, a), a) && Invokes(Reporting(env, a), a)
  {
    forall ctx, w
      ensures InvokedBy(Act(env, a)(ctx, w).0) == InvokedBy(w) + [a]
      ensures InvokedBy(Reporting(env, a)(ctx, w).0) == InvokedBy(w) + [a]
    {
      var (w1, err) := Act(env, a)(ctx, w);
      ActTrace(env, a, ctx, w);
      ReportTrace(ctx, w1, err);
    }
  }

  lemma WrappersInvoke(env: Environment, i: nat)
    ensures Invokes(PreWrapper(env, i), Pre(i)) && Invokes(PostWrapper(env, i), Post(i))
  {
    forall ctx, w
      ensures InvokedBy(PreWrapper(env, i)(ctx, w).0) == InvokedBy(w) + [Pre(i)]
      ensures InvokedBy(PostWrapper(env, i)(ctx, w).0) == InvokedBy(w) + [Post(i)]
    {
      ActTrace(env, Pre(i), ctx, w);
      ActTrace(env, Post(i), ctx, w);
      ReportTrace(ctx, Act(env, Pre(i))(ctx, w).0, env.outcome(Pre(i), w.now));
      ReportTrace(ctx, Act(env, Post(i))(ctx, w).0, env.outcome(Post(i), w.now));
    }
  }

  /** A main step is invoked once, whether or not its body runs. */
  lemma MainInvokes(env: Environment, job: Job, i: nat)
    requires i < |job.steps| && job.steps[i].Step?
    ensures Invokes(MainWrapper(env, job, i), Main(i))
  {
    forall ctx, w ensures InvokedBy(MainWrapper(env, job, i)(ctx, w).0) == InvokedBy(w) + [Main(i)] {
      var w0 := Invoked(Main(i), ctx, w);
      var (w1, err) := MainOf(env, job, i)(ctx, w0);
      MainOfInvokesNothing(env, job, i, ctx, w0);
      ReportTrace(ctx, w1, err);
    }
  }

  lemma MainOfInvokesNothing(env: Environment, job: Job, i: nat, ctx: Context, w: JobWorld)
    requires i < |job.steps| && job.steps[i].Step?
    ensures InvokedBy(MainOf(env, job, i)(ctx, w).0) == InvokedBy(w)
  {
    hide InvokedBy, RunStepExecutor, Act;
    var w1 := Act(env, Prepare(i))(ctx, w).0;
    ActTrace(env, Prepare(i), ctx, w);
    CheckInvokesNothing(ctx, w1);
    RunStepInvokesNothing(env, i, IdOf(job, i), job.steps[i].condition, ctx, w);
    RunStepInvokesNothing(env, i, IdOf(job, i), job.steps[i].condition, ctx, Check(ctx, w1).0);
  }

  lemma RunStepInvokesNothing(env: Environment, i: nat, id: string, c: Condition, ctx: Context, w: JobWorld)
    ensures InvokedBy(RunStepExecutor(env, i, id, c)(ctx, w).0) == InvokedBy(w)
  {
    hide Invocations, Act, StatusOf;
    var w1 := WithResult(w, id, StepResult(Succeeded, Succeeded));
    ActTrace(env, Body(i), ctx, w1);
  }

  // ---------------------------------------------------------------- lists of executors

  /** How many executors of a pipeline ran. */
  function RunCount(es: seq<JobExecutor>, ctx: Context, w: JobWorld): (k: nat)
    ensures k <= |es| && (es != [] ==> k > 0)
    decreases |es|
  {
    if |es| <= 1 then |es| else
      var (w1, err) := es[0](ctx, w);
      var (w2, ended) := Check(ctx, w1);
      if err.Some? || ended.Some? then 1 else 1 + RunCount(es[1..], ctx, w2)
  }

  lemma {:induction false} PipelineInvokes(es: seq<JobExecutor>, actions: seq<Action>, ctx: Context, w: JobWorld)
    requires InvokeEach(es, actions)
    ensures var (w', err) := RunPipeline(es, ctx, w);
            && InvokedBy(w') == InvokedBy(w) + actions[..RunCount(es, ctx, w)]
            && (err == None ==> RunCount(es, ctx, w) == |es|)
    decreases |es|
  {
    if es == [] {
      assert InvokedBy(w) + actions[..0] == InvokedBy(w);
    } else {
      hide InvokedBy;
      assert Invokes(es[0], actions[0]);
      var (w1, err) := es[0](ctx, w);
      var (w2, ended) := Check(ctx, w1);
      CheckInvokesNothing(ctx, w1);
      assert actions[..1] == [actions[0]];
      if |es| > 1 && err == None && ended == None {
        PipelineInvokes(es[1..], actions[1..], ctx, w2);
        var k := RunCount(es[1..], ctx, w2);
        assert actions[..k + 1] == [actions[0]] + actions[1..][..k];
        ConcatAssociative(InvokedBy(w), [actions[0]], actions[1..][..k]);
      }
    }
  }

  lemma CheckInvokesNothing(ctx: Context, w: JobWorld)
    ensures InvokedBy(Check(ctx, w).0) == InvokedBy(w)
  {
  }

  lemma {:induction false} AllInvoked(es: seq<JobExecutor>, actions: seq<Action>, ctx: Context, w: JobWorld)
    requires InvokeEach(es, actions)
    ensures InvokedBy(RunAll(es, ctx, w)) == InvokedBy(w) + actions
    decreases |es|
  {
    if es != [] {
      hide InvokedBy;
      assert Invokes(es[0], actions[0]);
      AllInvoked(es[1..], actions[1..], ctx, es[0](ctx, w).0);
    }
  }

  /** Every main executor is invoked, in order, wherever the context ends. */
  lemma {:induction false} MainInvoked(env: Environment, es: seq<JobExecutor>, actions: seq<Action>, ctx: Context,
                                       w: JobWorld)
    requires InvokeEach(es, actions)
    ensures InvokedBy(RunMain(env, es, ctx, w).0) == InvokedBy(w) + actions
    decreases |es|
  {
    var (w1, ended) := Check(ctx, w);
    assert InvokedBy(w1) == InvokedBy(w);
    if es == [] {
      assert InvokedBy(w) + [] == InvokedBy(w);
    } else if ended.Some? {
      var flagged := w1.(state := MarkInterrupted(w1.state, ended));
      assert InvokedBy(flagged) == InvokedBy(w1);
      AllInvoked(es, actions, Fresh(env, w1.now, ctx.errors), flagged);
    } else {
      hide InvokedBy;
      assert Invokes(es[0], actions[0]);
      MainInvoked(env, es[1..], actions[1..], ctx, es[0](ctx, w1).0);
    }
  }

  // ---------------------------------------------------------------- the job

  function PreActions(n: nat): (r: seq<Action>)
    ensures |r| == n + 4
  {
    [Setup, StartedHook, PrepareActions] + seq(n, i requires 0 <= i < n => Pre(i)) + [CompleteName]
  }

  function MainActions(n: nat): seq<Action> {
    [MatrixLog] + seq(n, i requires 0 <= i < n => Main(i))
  }

  function PostActions(n: nat): seq<Action> {
    seq(n, i requires 0 <= i < n => Post(n - 1 - i))
  }

  lemma PreInvokeEach(env: Environment, job: Job)
    ensures InvokeEach(PreExecutors(env, job), PreActions(|job.steps|))
  {
    var es, actions := PreExecutors(env, job), PreActions(|job.steps|);
    ActInvokes(env, Setup);
    ActInvokes(env, StartedHook);
    ActInvokes(env, PrepareActions);
    ActInvokes(env, CompleteName);
    forall i | 0 <= i < |es| ensures Invokes(es[i], actions[i]) {
      if 3 <= i < |es| - 1 {
        assert es[(i - 3) + 3] == PreWrapper(env, i - 3);
        WrappersInvoke(env, i - 3);
      }
    }
  }

  lemma MainInvokeEach(env: Environment, job: Job)
    requires AllUsable(job)
    ensures InvokeEach(MainExecutors(env, job), MainActions(|job.steps|))
  {
    var es, actions := MainExecutors(env, job), MainActions(|job.steps|);
    ActInvokes(env, MatrixLog);
    forall i | 0 <= i < |es| ensures Invokes(es[i], actions[i]) {
      if i > 0 {
        assert es[(i - 1) + 1] == MainWrapper(env, job, i - 1);
        MainInvokes(env, job, i - 1);
      }
    }
  }

  lemma {:induction false} PostsInvoked(env: Environment, n: nat, ctx: Context, w: JobWorld)
    requires n > 0
    ensures InvokedBy(RunPosts(env, n, ctx, w).0) == InvokedBy(w) + PostActions(n)
  {
    hide InvokedBy;
    WrappersInvoke(env, n - 1);
    var w1 := PostWrapper(env, n - 1)(ctx, w).0;
    assert InvokedBy(w1) == InvokedBy(w) + [Post(n - 1)];
    if n == 1 {
      assert PostActions(1) == [Post(0)];
    } else {
      PostsInvoked(env, n - 1, ctx, w1);
      assert PostActions(n) == [Post(n - 1)] + PostActions(n - 1);
      ConcatAssociative(InvokedBy(w), [Post(n - 1)], PostActions(n - 1));
    }
  }

  predicate Stops(env: Environment, job: Job, ctx: Context, w: JobWorld)
    requires |job.steps| > 0
  {
    var (w4, postCtx) := AtTeardown(env, job, ctx, w);
    StopsContainer(job, postCtx, w4.state)
  }

  function EndActions(n: nat, stops: bool): seq<Action> {
    PostActions(n) + ([CompletedHook] + if stops then [Stop] else [])
  }

  lemma BeforePostsInvokesNothing(env: Environment, ctx: Context, w: JobWorld)
    ensures InvokedBy(BeforePosts(env, ctx, w).0) == InvokedBy(w)
  {
  }

  lemma PostPartInvoked(env: Environment, job: Job, ctx: Context, w: JobWorld)
    requires |job.steps| > 0
    ensures InvokedBy(RunPostPart(env, job, ctx, w).0) ==
            InvokedBy(w) + EndActions(|job.steps|, Stops(env, job, ctx, w))
  {
    hide InvokedBy, BeforePosts, RunPosts, Reporting, Act, PostActions;
    var (w2, postCtx) := BeforePosts(env, ctx, w);
    BeforePostsInvokesNothing(env, ctx, w);
    var w3 := RunPosts(env, |job.steps|, postCtx, w2).0;
    PostsInvoked(env, |job.steps|, postCtx, w2);
    ActInvokes(env, CompletedHook);
    ActInvokes(env, Stop);
    var w4 := Reporting(env, CompletedHook)(postCtx, w3).0;
    assert InvokedBy(w4) == InvokedBy(w3) + [CompletedHook];
    var stopCtx := Fresh(env, w4.now, postCtx.errors);
    assert InvokedBy(Act(env, Stop)(stopCtx, w4).0) == InvokedBy(w4) + [Stop];
  }

  /** The container is stopped unless the job asked to keep it after a failure, has failed, and was not
      cancelled. */
  lemma ContainerStoppedIff(env: Environment, job: Job, ctx: Context, w: JobWorld)
    requires |job.steps| > 0
    ensures var (w4, postCtx) := AtTeardown(env, job, ctx, w);
            var ran := InvokedBy(RunPostPart(env, job, ctx, w).0);
            && InvokedBy(w) <= ran
            && (Stop in ran[|InvokedBy(w)|..] <==>
                  job.autoRemove || postCtx.errors !in w4.state.errors || w4.state.cancelled)
  {
    hide AtTeardown, InvokedBy, RunPostPart;
    var n, stops := |job.steps|, Stops(env, job, ctx, w);
    PostPartInvoked(env, job, ctx, w);
    NoStopAmongPosts(n);
    var ends := EndActions(n, stops);
    assert (InvokedBy(w) + ends)[|InvokedBy(w)|..] == ends;
    if stops { assert ends[|ends| - 1] == Stop; }
  }

  lemma {:induction false} NoStopAmongPosts(n: nat)
    ensures Stop !in PostActions(n)
  {
  }

  /** After a start under a live context the job runs some of its pre steps in order, each main step once
      and in order, each post step once and in reverse, the completed hook, the container's stop where it
      is due, its outputs, and its close; all pre steps unless one failed or the context ended between
      two. */
  lemma StartedOrder(env: Environment, job: Job, ctx: Context, w: JobWorld)
    requires |job.steps| > 0 && AllUsable(job)
    ensures var n := |job.steps|;
            var pre := RunPipeline(PreExecutors(env, job), ctx, w);
            var k := RunCount(PreExecutors(env, job), ctx, w);
            && 0 < k <= n + 4 && (pre.1 == None ==> k == n + 4)
            && InvokedBy(RunStarted(env, job, ctx, w).0) ==
               InvokedBy(w) + PreActions(n)[..k] + MainActions(n) +
               EndActions(n, Stops(env, job, ctx, RunSteps(env, job, ctx, w).0)) + [InterpolateOutputs, Close]
  {
    hide InvokedBy, RunPipeline, RunMain, RunPostPart, RunCount, Act, PreActions, MainActions, EndActions, Stops,
      Invokes;
    var n, es := |job.steps|, PreExecutors(env, job);
    PreInvokeEach(env, job);
    PipelineInvokes(es, PreActions(n), ctx, w);
    var w0 := RunPipeline(es, ctx, w).0;
    MainInvokeEach(env, job);
    MainInvoked(env, MainExecutors(env, job), MainActions(n), ctx, w0);
    var w1 := RunSteps(env, job, ctx, w).0;
    PostPartInvoked(env, job, ctx, w1);
    var w2 := RunPostPart(env, job, ctx, w1).0;
    LastTwo(env, ctx, w2);
  }

  lemma LastTwo(env: Environment, ctx: Context, w: JobWorld)
    ensures InvokedBy(Act(env, Close)(ctx, Act(env, InterpolateOutputs)(ctx, w).0).0) ==
            InvokedBy(w) + [InterpolateOutputs, Close]
  {
    ActInvokes(env, InterpolateOutputs);
    ActInvokes(env, Close);
    var w1 := Act(env, InterpolateOutputs)(ctx, w).0;
    assert InvokedBy(w1) == InvokedBy(w) + [InterpolateOutputs];
  }

  /** The whole job: nothing without steps or with an unusable one; only the start when the container
      does not start or the context has ended by then; else all of it. */
  lemma JobRunsInOrder(env: Environment, job: Job, ctx: Context, w: JobWorld)
    ensures var r := RunJob(env, job, ctx, w).0;
            var startErr, w1 := env.outcome(Start, w.now), Act(env, Start)(ctx, w).0;
            if job.steps == [] || !AllUsable(job) then r == w
            else if startErr.Some? || EndOf(ctx, w.now + 1).Some? then InvokedBy(r) == InvokedBy(w) + [Start]
            else
              var w2, n := Check(ctx, w1).0, |job.steps|;
              var k := RunCount(PreExecutors(env, job), ctx, w2);
              && 0 < k <= n + 4
              && (RunPipeline(PreExecutors(env, job), ctx, w2).1 == None ==> k == n + 4)
              && InvokedBy(r) ==
                 InvokedBy(w) + [Start] + PreActions(n)[..k] + MainActions(n) +
                 EndActions(n, Stops(env, job, ctx, RunSteps(env, job, ctx, w2).0)) + [InterpolateOutputs, Close]
  {
    ActInvokes(env, Start);
    var w1 := Act(env, Start)(ctx, w).0;
    assert InvokedBy(w1) == InvokedBy(w) + [Start];
    CheckInvokesNothing(ctx, w1);
    if job.steps != [] && AllUsable(job) && env.outcome(Start, w.now) == None && EndOf(ctx, w.now + 1) == None {
      StartedOrder(env, job, ctx, Check(ctx, w1).0);
    }
  }
}
