/** Executors and the ways they are combined, over contexts that may end at any moment. */
module Executors {
  import opened Basics

  datatype ContextError = Canceled | DeadlineExceeded

  /** Other stands for every error that is neither context error; so does a context error wrapped without
      keeping its identity. */
  datatype Error = Interrupted(reason: ContextError) | Other(message: string)

  /** A context ends for good at a moment the surroundings choose, or never. Errors names the container
      its job error is kept in. */
  datatype Context = Context(end: Option<(nat, ContextError)>, errors: nat)

  function EndOf(ctx: Context, now: nat): Option<ContextError> {
    match ctx.end
    case Some((t, reason)) => if t <= now then Some(reason) else None
    case None => None
  }

  /** The state executors share, at a moment. Time passes with every action and every look at a context,
      so that a context can end between any two of them. */
  datatype World<S> = World(now: nat, state: S)

  type Executor<!S> = (Context, World<S>) -> (World<S>, Option<Error>)

  function Check<S>(ctx: Context, w: World<S>): (World<S>, Option<ContextError>) {
    (w.(now := w.now + 1), EndOf(ctx, w.now))
  }

  function Then<S>(e: Executor<S>, next: Executor<S>): Executor<S> {
    (ctx: Context, w: World<S>) =>
      var (w1, err) := e(ctx, w);
      if err.Some? then (w1, err) else
        var (w2, ended) := Check(ctx, w1);
        if ended.Some? then (w2, Some(Interrupted(ended.value))) else next(ctx, w2)
  }

  /** The second runs whatever became of the first. */
  function Finally<S>(e: Executor<S>, last: Executor<S>): Executor<S> {
    (ctx: Context, w: World<S>) =>
      var (w1, err) := e(ctx, w);
      var (w2, err2) := last(ctx, w1);
      (w2, if err2.Some? then Some(Other("finally")) else err)
  }

  /** A pipeline, front to back. */
  function RunPipeline<S>(executors: seq<Executor<S>>, ctx: Context, w: World<S>): (World<S>, Option<Error>)
    decreases |executors|
  {
    if executors == [] then (w, None)
    else if |executors| == 1 then executors[0](ctx, w)
    else
      var (w1, err) := executors[0](ctx, w);
      if err.Some? then (w1, err) else
        var (w2, ended) := Check(ctx, w1);
        if ended.Some? then (w2, Some(Interrupted(ended.value))) else RunPipeline(executors[1..], ctx, w2)
  }

  /** One more executor at the end of a pipeline is one more Then around it. */
  lemma {:induction false} PipelineThen<S>(es: seq<Executor<S>>, e: Executor<S>, ctx: Context, w: World<S>)
    requires es != []
    ensures RunPipeline(es + [e], ctx, w) ==
            var (w1, err) := RunPipeline(es, ctx, w);
            if err.Some? then (w1, err) else
              var (w2, ended) := Check(ctx, w1);
              if ended.Some? then (w2, Some(Interrupted(ended.value))) else e(ctx, w2)
    decreases |es|
  {
    assert (es + [e])[1..] == es[1..] + [e];
    if |es| > 1 {
      var (w1, err) := es[0](ctx, w);
      if err == None {
        var (w2, ended) := Check(ctx, w1);
        if ended == None { PipelineThen(es[1..], e, ctx, w2); }
      }
    }
  }

  /** The nested closures run the executors front to back. */
  method NewPipelineExecutor<S>(executors: seq<Executor<S>>) returns (rtn: Executor<S>)
    ensures forall ctx, w :: rtn(ctx, w) == RunPipeline(executors, ctx, w)
  {
    if |executors| == 0 {
      return (ctx: Context, w: World<S>) => (w, None);
    }
    rtn := executors[0];
    var i := 1;
    while i < |executors|
      invariant 1 <= i <= |executors|
      invariant forall ctx, w :: rtn(ctx, w) == RunPipeline(executors[..i], ctx, w)
    {
      var longer := Then(rtn, executors[i]);
      forall ctx, w ensures longer(ctx, w) == RunPipeline(executors[..i + 1], ctx, w) {
        assert executors[..i + 1] == executors[..i] + [executors[i]];
        PipelineThen(executors[..i], executors[i], ctx, w);
      }
      rtn := longer;
      i := i + 1;
    }
    assert executors[..i] == executors;
  }
}
