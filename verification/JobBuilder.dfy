/** The closures that make up a job's executor, and the loops that build and run them. */
module JobBuilder {
  import opened Basics
  import opened Executors
  import opened JobModel

  /** The remaining steps under a fresh context. */
  method RunMainStepsAfterInterrupt(env: Environment, steps: seq<JobExecutor>, ctx: Context, w: JobWorld,
                                    interruptErr: ContextError) returns (r: JobWorld, err: Option<Error>)
    ensures (r, err) == RunAfterInterrupt(env, steps, ctx, w, interruptErr)
  {
    r := w.(state := MarkInterrupted(w.state, Some(interruptErr)));
    var freshCtx := Fresh(env, w.now, ctx.errors);
    ghost var start := r;
    var i := 0;
    while i < |steps|
      invariant i <= |steps|
      invariant RunAll(steps[i..], freshCtx, r) == RunAll(steps, freshCtx, start)
    {
      assert steps[i..][1..] == steps[i + 1..];
      r := steps[i](freshCtx, r).0;
      i := i + 1;
    }
    err := Some(Interrupted(interruptErr));
  }

  /** The loop over the main steps. */
  method RunMainSteps(env: Environment, steps: seq<JobExecutor>, ctx: Context, w: JobWorld)
    returns (r: JobWorld, err: Option<Error>)
    ensures (r, err) == RunMain(env, steps, ctx, w)
  {
    r := w;
    var i := 0;
    while i < |steps|
      invariant i <= |steps|
      invariant RunMain(env, steps[i..], ctx, r) == RunMain(env, steps, ctx, w)
    {
      var (w1, ended) := Check(ctx, r);
      assert steps[i..][1..] == steps[i + 1..];
      if ended.Some? {
        r, err := RunMainStepsAfterInterrupt(env, steps[i..], ctx, w1, ended.value);
        return;
      }
      r := steps[i](ctx, w1).0;
      i := i + 1;
    }
    var (w1, ended) := Check(ctx, r);
    r, err := w1.(state := MarkInterrupted(w1.state, ended)), None;
  }

  /** Two executors that do the same. */
  ghost predicate Same(e: JobExecutor, f: JobExecutor) {
    forall ctx, w :: e(ctx, w) == f(ctx, w)
  }

  method NewStepsExecutor(env: Environment, preSteps: seq<JobExecutor>, steps: seq<JobExecutor>)
    returns (e: JobExecutor)
    ensures forall ctx, w :: e(ctx, w) ==
              var (w1, preErr) := RunPipeline(preSteps, ctx, w);
              var (w2, mainErr) := RunMain(env, steps, ctx, w1);
              (w2, if preErr.Some? then preErr else mainErr)
  {
    var preExecutor := NewPipelineExecutor(preSteps);
    e := PreThenMain(env, preExecutor, steps);
    forall ctx: Context, w: JobWorld ensures preExecutor(ctx, w) == RunPipeline(preSteps, ctx, w) {
      var run := RunPipeline(preSteps, ctx, w);
    }
  }

  /** The main steps run whatever became of the pre steps, whose error comes first. */
  function PreThenMain(env: Environment, preExecutor: JobExecutor, steps: seq<JobExecutor>): JobExecutor {
    (ctx: Context, w: JobWorld) =>
      var (w1, preErr) := preExecutor(ctx, w);
      var (w2, mainErr) := RunMain(env, steps, ctx, w1);
      (w2, if preErr.Some? then preErr else mainErr)
  }

  function Posts(env: Environment, k: nat): JobExecutor
    requires k > 0
  {
    (ctx: Context, w: JobWorld) => RunPosts(env, k, ctx, w)
  }

  function PostPart(env: Environment, post: JobExecutor): JobExecutor {
    (ctx: Context, w: JobWorld) =>
      var (w1, postCtx) := BeforePosts(env, ctx, w);
      post(postCtx, w1)
  }

  /** One more post step runs before the earlier ones. */
  lemma PostsNest(env: Environment, k: nat, post: JobExecutor)
    requires k > 0 && Same(post, Posts(env, k))
    ensures Same(Finally(PostWrapper(env, k), post), Posts(env, k + 1))
  {
    hide PostWrapper;
    forall ctx, w ensures Finally(PostWrapper(env, k), post)(ctx, w) == Posts(env, k + 1)(ctx, w) {
      var w1 := PostWrapper(env, k)(ctx, w).0;
      assert post(ctx, w1) == RunPosts(env, k, ctx, w1);
    }
  }

  /** The chain around the steps does what a started job does. */
  lemma ChainIsStarted(env: Environment, job: Job, stepsExecutor: JobExecutor, post: JobExecutor)
    requires |job.steps| > 0 && AllUsable(job) && Same(post, Posts(env, |job.steps|))
    requires forall ctx, w :: stepsExecutor(ctx, w) == RunSteps(env, job, ctx, w)
    ensures var full := Finally(Finally(post, Reporting(env, CompletedHook)), Teardown(env, job));
            var chain := Finally(Finally(Finally(stepsExecutor, PostPart(env, full)), Act(env, InterpolateOutputs)),
                                 Act(env, Close));
            forall ctx, w :: chain(ctx, w) == RunStarted(env, job, ctx, w)
  {
    hide RunSteps, Reporting, Teardown, Act, BeforePosts, RunPosts;
    var full := Finally(Finally(post, Reporting(env, CompletedHook)), Teardown(env, job));
    forall ctx, w ensures PostPart(env, full)(ctx, w) == RunPostPart(env, job, ctx, w) {
      var (w2, postCtx) := BeforePosts(env, ctx, w);
      assert post(postCtx, w2) == RunPosts(env, |job.steps|, postCtx, w2);
    }
    hide RunPostPart, PostPart;
    var chain := Finally(Finally(Finally(stepsExecutor, PostPart(env, full)), Act(env, InterpolateOutputs)),
                         Act(env, Close));
    forall ctx, w ensures chain(ctx, w) == RunStarted(env, job, ctx, w) {
      assert stepsExecutor(ctx, w) == RunSteps(env, job, ctx, w);
    }
  }

  lemma PipelineOfTwo(e: JobExecutor, f: JobExecutor, ctx: Context, w: JobWorld)
    ensures RunPipeline([e, f], ctx, w) == Then(e, f)(ctx, w)
  {
    assert [e, f][1..] == [f];
  }

  /** Builds the nested chains of a job's executor; they run the job as described. */
  method NewJobExecutor(env: Environment, job: Job) returns (e: JobExecutor)
    ensures forall ctx, w :: e(ctx, w) == RunJob(env, job, ctx, w)
  {
    hide RunStarted, RunSteps, RunMain, RunPipeline, MainWrapper, PreWrapper, PostWrapper, Act;
    if |job.steps| == 0 {
      return (ctx: Context, w: JobWorld) => (w, None);
    }
    var steps, preSteps, stepPreSteps := [Quiet(env, MatrixLog)], [Quiet(env, Setup)], [];
    var postExecutor: JobExecutor := PostWrapper(env, 0);
    var i := 0;
    while i < |job.steps|
      invariant i <= |job.steps|
      invariant forall k | 0 <= k < i :: job.steps[k].Step?
      invariant |steps| == i + 1 && steps[0] == Quiet(env, MatrixLog)
      invariant forall k | 0 <= k < i :: steps[k + 1] == MainWrapper(env, job, k)
      invariant |stepPreSteps| == i && forall k | 0 <= k < i :: stepPreSteps[k] == PreWrapper(env, k)
      invariant i > 0 ==> Same(postExecutor, Posts(env, i))
    {
      if !job.steps[i].Step? {
        return (ctx: Context, w: JobWorld) => (w, Some(Other("unusable step")));
      }
      stepPreSteps := stepPreSteps + [PreWrapper(env, i)];
      steps := steps + [MainWrapper(env, job, i)];
      if i == 0 {
        postExecutor := PostWrapper(env, i);
      } else {
        PostsNest(env, i, postExecutor);
        postExecutor := Finally(PostWrapper(env, i), postExecutor);
      }
      i := i + 1;
    }
    preSteps := preSteps + [Reporting(env, StartedHook), Reporting(env, PrepareActions)] + stepPreSteps +
      [Quiet(env, CompleteName)];
    assert preSteps == PreExecutors(env, job);
    assert steps == MainExecutors(env, job);
    var stepsExecutor := NewStepsExecutor(env, preSteps, steps);
    StepsAre(env, job, stepsExecutor);
    ChainIsStarted(env, job, stepsExecutor, postExecutor);
    postExecutor := Finally(Finally(postExecutor, Reporting(env, CompletedHook)), Teardown(env, job));
    var chain := Finally(Finally(Finally(stepsExecutor, PostPart(env, postExecutor)), Act(env, InterpolateOutputs)),
                         Act(env, Close));
    e := NewPipelineExecutor([Act(env, Start), chain]);
    forall ctx: Context, w: JobWorld ensures e(ctx, w) == RunJob(env, job, ctx, w) {
      var run := RunPipeline([Act(env, Start), chain], ctx, w);
      PipelineOfTwo(Act(env, Start), chain, ctx, w);
    }
  }

  lemma StepsAre(env: Environment, job: Job, e: JobExecutor)
    requires AllUsable(job)
    requires forall ctx, w :: e(ctx, w) ==
               var (w1, preErr) := RunPipeline(PreExecutors(env, job), ctx, w);
               var (w2, mainErr) := RunMain(env, MainExecutors(env, job), ctx, w1);
               (w2, if preErr.Some? then preErr else mainErr)
    ensures forall ctx, w :: e(ctx, w) == RunSteps(env, job, ctx, w)
  {
    hide RunPipeline, RunMain, PreExecutors, MainExecutors;
  }
}
