/** The error a job's executor returns: none exactly when nothing that counts went wrong. */
module JobErrors {
  import opened Basics
  import opened Executors
  import opened JobModel
  import opened JobStatus
  import opened JobContinue

  /** An action whose error the job returns. What main steps end in shows in their results instead, and the
      other actions cannot fail. */
  predicate Counts(a: Action) {
    a.Start? || a.StartedHook? || a.PrepareActions? || a.Pre? || a.Post? || a.CompletedHook? || a.Stop? ||
    a.InterpolateOutputs? || a.Close?
  }

  /** Of what ran in between, nothing that counts ended in an error. */
  ghost predicate Clear(env: Environment, w: JobWorld, w': JobWorld) {
    forall e | |w.state.trace| <= e < |w'.state.trace| && Counts(w'.state.trace[e].action) ::
      env.outcome(w'.state.trace[e].action, w'.state.trace[e].at) == None
  }

  /** An error is returned if something that counts went wrong, and only then, unless the context ended. */
  ghost predicate Tells(env: Environment, ctx: Context, w: JobWorld, w': JobWorld, err: Option<Error>) {
    && Later(w, w')
    && (err == None ==> Clear(env, w, w'))
    && (Clear(env, w, w') && EndOf(ctx, w'.now) == None ==> err == None)
  }

  ghost predicate Telling(env: Environment, e: JobExecutor) {
    forall ctx, w :: Tells(env, ctx, w, e(ctx, w).0, e(ctx, w).1)
  }

  lemma ClearTwice(env: Environment, a: JobWorld, b: JobWorld, c: JobWorld)
    requires Later(a, b) && Later(b, c)
    ensures Later(a, c) && (Clear(env, a, c) <==> Clear(env, a, b) && Clear(env, b, c))
  {
    assert forall e | 0 <= e < |b.state.trace| :: c.state.trace[e] == b.state.trace[e];
  }

  lemma TellsTwice(env: Environment, ctx: Context, a: JobWorld, b: JobWorld, c: JobWorld,
                   err1: Option<Error>, err2: Option<Error>, err: Option<Error>)
    requires Tells(env, ctx, a, b, err1) && Tells(env, ctx, b, c, err2)
    requires err == None <==> err1 == None && err2 == None
    ensures Tells(env, ctx, a, c, err)
  {
    ClearTwice(env, a, b, c);
    hide Clear;
  }

  /** Looking at the context adds nothing, and what follows a failed look is not told of. */
  lemma TellsEnded(env: Environment, ctx: Context, a: JobWorld, b: JobWorld, err: Option<Error>)
    requires Later(a, b) && err.Some? && EndOf(ctx, b.now).Some?
    ensures Tells(env, ctx, a, b, err)
  {
    hide Clear;
  }

  lemma TellsNothing(env: Environment, ctx: Context, w: JobWorld, w': JobWorld)
    requires w'.state.trace == w.state.trace && w.now <= w'.now
    ensures Tells(env, ctx, w, w', None)
  {
  }

  /** One action, under whatever context it ran and however its end is reported. */
  lemma TellsAct(env: Environment, a: Action, own: Context, ctx: Context, w: JobWorld, w': JobWorld)
    requires w'.state.trace == w.state.trace + [Event(a, w.now, own, StatusOf(w.state))] && w.now <= w'.now
    ensures Tells(env, ctx, w, w', if Counts(a) then env.outcome(a, w.now) else None)
  {
    hide StatusOf;
    assert w'.state.trace[|w.state.trace|] == Event(a, w.now, own, StatusOf(w.state));
  }

  lemma ExecutorsTell(env: Environment, a: Action, i: nat)
    ensures Counts(a) ==> Telling(env, Act(env, a)) && Telling(env, Reporting(env, a))
    ensures !Counts(a) ==> Telling(env, Quiet(env, a))
    ensures Telling(env, PreWrapper(env, i)) && Telling(env, PostWrapper(env, i))
  {
    forall ctx, w
      ensures Counts(a) ==> Tells(env, ctx, w, Act(env, a)(ctx, w).0, Act(env, a)(ctx, w).1)
      ensures Counts(a) ==> Tells(env, ctx, w, Reporting(env, a)(ctx, w).0, Reporting(env, a)(ctx, w).1)
      ensures !Counts(a) ==> Tells(env, ctx, w, Quiet(env, a)(ctx, w).0, Quiet(env, a)(ctx, w).1)
      ensures Tells(env, ctx, w, PreWrapper(env, i)(ctx, w).0, PreWrapper(env, i)(ctx, w).1)
      ensures Tells(env, ctx, w, PostWrapper(env, i)(ctx, w).0, PostWrapper(env, i)(ctx, w).1)
    {
      hide StatusOf, Tells;
      OneTells(env, a, ctx, w);
      WrappersReport(env, i, false, ctx, w);
      WrappersReport(env, i, true, ctx, w);
      WrappersLater(env, i, ctx, w);
      TellsAct(env, Pre(i), ctx, ctx, w, PreWrapper(env, i)(ctx, w).0);
      TellsAct(env, Post(i), ctx, ctx, w, PostWrapper(env, i)(ctx, w).0);
    }
  }

  lemma OneTells(env: Environment, a: Action, ctx: Context, w: JobWorld)
    ensures Counts(a) ==> Tells(env, ctx, w, Act(env, a)(ctx, w).0, Act(env, a)(ctx, w).1)
    ensures Counts(a) ==> Tells(env, ctx, w, Reporting(env, a)(ctx, w).0, Reporting(env, a)(ctx, w).1)
    ensures !Counts(a) ==> Tells(env, ctx, w, Quiet(env, a)(ctx, w).0, Quiet(env, a)(ctx, w).1)
  {
    ActComesTo(env, a, ctx, w);
    hide Act, StatusOf, Tells, Counts;
    var (w1, err) := Act(env, a)(ctx, w);
    TellsAct(env, a, ctx, ctx, w, w1);
    TellsAct(env, a, ctx, ctx, w, Reporting(env, a)(ctx, w).0);
  }

  lemma WrappersLater(env: Environment, i: nat, ctx: Context, w: JobWorld)
    ensures w.now <= PreWrapper(env, i)(ctx, w).0.now && w.now <= PostWrapper(env, i)(ctx, w).0.now
  {
    ActComesTo(env, Pre(i), ctx, w);
    ActComesTo(env, Post(i), ctx, w);
    hide Act, StatusOf;
  }

  lemma {:induction false} PipelineTells(env: Environment, es: seq<JobExecutor>, ctx: Context, w: JobWorld)
    requires forall i | 0 <= i < |es| :: Telling(env, es[i])
    ensures Tells(env, ctx, w, RunPipeline(es, ctx, w).0, RunPipeline(es, ctx, w).1)
    decreases |es|
  {
    if es == [] {
      TellsNothing(env, ctx, w, w);
    } else {
      hide Tells;
      assert Telling(env, es[0]);
      if |es| > 1 {
        var (w1, err1) := es[0](ctx, w);
        if err1 == None {
          var (w2, ended) := Check(ctx, w1);
          TellsNothing(env, ctx, w1, w2);
          TellsTwice(env, ctx, w, w1, w2, None, None, None);
          if ended.Some? {
            assert Later(w, w2) by { TellsLater(env, ctx, w, w2, None); }
            TellsEnded(env, ctx, w, w2, Some(Interrupted(ended.value)));
          } else {
            assert forall i | 0 <= i < |es[1..]| :: es[1..][i] == es[i + 1];
            PipelineTells(env, es[1..], ctx, w2);
            var (w3, err3) := RunPipeline(es[1..], ctx, w2);
            TellsTwice(env, ctx, w, w2, w3, None, err3, err3);
          }
        }
      }
    }
  }

  lemma TellsLater(env: Environment, ctx: Context, a: JobWorld, b: JobWorld, err: Option<Error>)
    requires Tells(env, ctx, a, b, err)
    ensures Later(a, b)
  {
  }

  lemma PresTell(env: Environment, job: Job)
    ensures forall i | 0 <= i < |PreExecutors(env, job)| :: Telling(env, PreExecutors(env, job)[i])
  {
    hide Telling;
    var es := PreExecutors(env, job);
    ExecutorsTell(env, Setup, 0);
    ExecutorsTell(env, StartedHook, 0);
    ExecutorsTell(env, PrepareActions, 0);
    ExecutorsTell(env, CompleteName, 0);
    forall i | 0 <= i < |es| ensures Telling(env, es[i]) {
      if 3 <= i < |es| - 1 {
        assert es[(i - 3) + 3] == PreWrapper(env, i - 3);
        ExecutorsTell(env, Setup, i - 3);
      }
    }
  }

  // ---------------------------------------------------------------- main steps

  /** Nothing of what a main step starts counts. */
  lemma MainIsClear(env: Environment, job: Job, i: nat, ctx: Context, w: JobWorld)
    requires i < |job.steps| && job.steps[i].Step?
    ensures var w' := MainWrapper(env, job, i)(ctx, w).0; Later(w, w') && Clear(env, w, w')
  {
    hide MainWrapper, IsStepEnabled, BodyFails, StatusOf, StatusBut;
    if IsAsked(env, job, i, ctx, w.now) {
      StepComesTo(env, job, i, ctx, w);
    } else {
      StepNotAsked(env, job, i, ctx, w);
    }
  }

  lemma {:induction false} AllClear(env: Environment, job: Job, k: nat, ctx: Context, w: JobWorld)
    requires AllUsable(job) && k <= |job.steps|
    ensures var w' := RunAll(MainFrom(env, job, k), ctx, w); Later(w, w') && Clear(env, w, w')
    decreases |job.steps| - k
  {
    if k == |job.steps| {
      TellsNothing(env, ctx, w, w);
    } else {
      hide MainWrapper, MainFrom, Clear;
      MainFromStep(env, job, k);
      MainIsClear(env, job, k, ctx, w);
      var w1 := MainWrapper(env, job, k)(ctx, w).0;
      AllClear(env, job, k + 1, ctx, w1);
      ClearTwice(env, w, w1, RunAll(MainFrom(env, job, k), ctx, w));
    }
  }

  /** An interrupt that a look before or after a main step found is recorded, and returned if a step was
      still to come. */
  ghost predicate MainsEnd(env: Environment, ctx: Context, w: JobWorld, w': JobWorld, err: Option<Error>) {
    && Tells(env, ctx, w, w', err) && Clear(env, w, w') && w.now < w'.now
    && (err.Some? ==> EndOf(ctx, w'.now).Some? && err == Some(Interrupted(EndOf(ctx, w'.now).value)))
  }

  lemma {:induction false} MainFromTells(env: Environment, job: Job, k: nat, ctx: Context, w: JobWorld)
    requires AllUsable(job) && k <= |job.steps|
    ensures var (w', err) := RunMain(env, MainFrom(env, job, k), ctx, w); MainsEnd(env, ctx, w, w', err)
    ensures k < |job.steps| && EndOf(ctx, w.now).Some? ==> RunMain(env, MainFrom(env, job, k), ctx, w).1.Some?
    decreases |job.steps| - k
  {
    hide MainWrapper, MainFrom, Clear;
    var (w1, ended) := Check(ctx, w);
    var (w', err) := RunMain(env, MainFrom(env, job, k), ctx, w);
    TellsNothing(env, ctx, w, w1);
    if k == |job.steps| {
      TellsNothing(env, ctx, w, w');
    } else if ended.Some? {
      var flagged := w1.(state := MarkInterrupted(w1.state, ended));
      TellsNothing(env, ctx, w, flagged);
      AllClear(env, job, k, Fresh(env, w1.now, ctx.errors), flagged);
      ClearTwice(env, w, flagged, w');
      TellsEnded(env, ctx, w, w', err);
    } else {
      MainFromStep(env, job, k);
      MainIsClear(env, job, k, ctx, w1);
      var w2 := MainWrapper(env, job, k)(ctx, w1).0;
      MainFromTells(env, job, k + 1, ctx, w2);
      ClearTwice(env, w, w1, w2);
      ClearTwice(env, w, w2, w');
    }
  }

  lemma MainsTell(env: Environment, job: Job, ctx: Context, w: JobWorld)
    requires AllUsable(job)
    ensures var (w', err) := RunMain(env, MainExecutors(env, job), ctx, w); MainsEnd(env, ctx, w, w', err)
    ensures EndOf(ctx, w.now).Some? ==> RunMain(env, MainExecutors(env, job), ctx, w).1.Some?
  {
    hide MainExecutors, Quiet, Clear;
    var es := MainExecutors(env, job);
    var (w', err) := RunMain(env, es, ctx, w);
    var (w1, ended) := Check(ctx, w);
    TellsNothing(env, ctx, w, w1);
    assert es[1..] == MainFrom(env, job, 0);
    ExecutorsTell(env, MatrixLog, 0);
    var started := if ended.Some? then w1.(state := MarkInterrupted(w1.state, ended)) else w1;
    var own := if ended.Some? then Fresh(env, w1.now, ctx.errors) else ctx;
    var w2 := Quiet(env, MatrixLog)(own, started).0;
    assert Tells(env, own, started, w2, None) by { QuietIs(env, own, started); }
    TellsNothing(env, ctx, w, started);
    ClearTwice(env, w, started, w2);
    if ended.Some? {
      AllClear(env, job, 0, own, w2);
      ClearTwice(env, w, w2, w');
      TellsEnded(env, ctx, w, w', err);
    } else {
      MainFromTells(env, job, 0, ctx, w2);
      ClearTwice(env, w, w2, w');
    }
  }

  lemma QuietIs(env: Environment, ctx: Context, w: JobWorld)
    ensures Tells(env, ctx, w, Quiet(env, MatrixLog)(ctx, w).0, None)
  {
    OneTells(env, MatrixLog, ctx, w);
    hide Act, Tells;
  }

  // ---------------------------------------------------------------- the whole job

  lemma {:induction false} PostsTell(env: Environment, k: nat, ctx: Context, other: Context, w: JobWorld)
    requires k > 0
    ensures var (w', err) := RunPosts(env, k, ctx, w); Tells(env, other, w, w', err)
    decreases k
  {
    hide Tells, PostWrapper;
    var (w1, err1) := PostWrapper(env, k - 1)(ctx, w);
    var (w', err) := RunPosts(env, k, ctx, w);
    PostTells(env, k - 1, ctx, other, w);
    if k > 1 {
      var (w2, err2) := RunPosts(env, k - 1, ctx, w1);
      PostsTell(env, k - 1, ctx, other, w1);
      TellsTwice(env, other, w, w1, w2, err1, err2, err);
    }
  }

  /** What is told of an action does not depend on the context it ran under. */
  lemma PostTells(env: Environment, i: nat, ctx: Context, other: Context, w: JobWorld)
    ensures Tells(env, other, w, PostWrapper(env, i)(ctx, w).0, PostWrapper(env, i)(ctx, w).1)
  {
    WrappersReport(env, i, true, ctx, w);
    WrappersLater(env, i, ctx, w);
    hide StatusOf, Tells, PostWrapper;
    TellsAct(env, Post(i), ctx, other, w, PostWrapper(env, i)(ctx, w).0);
  }

  lemma ActTells(env: Environment, a: Action, ctx: Context, other: Context, w: JobWorld)
    requires Counts(a)
    ensures Tells(env, other, w, Act(env, a)(ctx, w).0, Act(env, a)(ctx, w).1)
    ensures Tells(env, other, w, Reporting(env, a)(ctx, w).0, Reporting(env, a)(ctx, w).1)
  {
    ActComesTo(env, a, ctx, w);
    hide Act, StatusOf, Tells;
    var (w1, err) := Act(env, a)(ctx, w);
    TellsAct(env, a, ctx, other, w, w1);
    TellsAct(env, a, ctx, other, w, Reporting(env, a)(ctx, w).0);
  }

  lemma PostPartTells(env: Environment, job: Job, ctx: Context, w: JobWorld)
    requires |job.steps| > 0
    ensures var (w', err) := RunPostPart(env, job, ctx, w); Tells(env, ctx, w, w', err)
  {
    var (w2, postCtx) := BeforePosts(env, ctx, w);
    TellsNothing(env, ctx, w, w2);
    hide Tells, BeforePosts, RunPosts, Reporting, Act;
    var (w3, err3) := RunPosts(env, |job.steps|, postCtx, w2);
    PostsTell(env, |job.steps|, postCtx, ctx, w2);
    TellsTwice(env, ctx, w, w2, w3, None, err3, err3);
    var (w4, err4) := Reporting(env, CompletedHook)(postCtx, w3);
    ActTells(env, CompletedHook, postCtx, ctx, w3);
    TellsTwice(env, ctx, w, w3, w4, err3, err4, Both(err3, err4));
    var (w5, err5) := Teardown(env, job)(postCtx, w4);
    if StopsContainer(job, postCtx, w4.state) {
      ActTells(env, Stop, Fresh(env, w4.now, postCtx.errors), ctx, w4);
    } else {
      TellsNothing(env, ctx, w4, w5);
    }
    TellsTwice(env, ctx, w, w4, w5, Both(err3, err4), err5, Both(Both(err3, err4), err5));
  }

  lemma StartedTells(env: Environment, job: Job, ctx: Context, w: JobWorld)
    requires |job.steps| > 0 && AllUsable(job)
    ensures var (w', err) := RunStarted(env, job, ctx, w); Tells(env, ctx, w, w', err)
  {
    hide Clear, Tells, RunPipeline, RunMain, RunPostPart, Act, PreExecutors, MainExecutors;
    var (w0, preErr) := RunPipeline(PreExecutors(env, job), ctx, w);
    PresTell(env, job);
    PipelineTells(env, PreExecutors(env, job), ctx, w);
    var (w1, mainErr) := RunMain(env, MainExecutors(env, job), ctx, w0);
    MainsTell(env, job, ctx, w0);
    var err1 := if preErr.Some? then preErr else mainErr;
    TellsTwice(env, ctx, w, w0, w1, preErr, mainErr, err1);
    var (w2, err2) := RunPostPart(env, job, ctx, w1);
    PostPartTells(env, job, ctx, w1);
    TellsTwice(env, ctx, w, w1, w2, err1, err2, Both(err1, err2));
    var (w3, err3) := Act(env, InterpolateOutputs)(ctx, w2);
    ActTells(env, InterpolateOutputs, ctx, ctx, w2);
    TellsTwice(env, ctx, w, w2, w3, Both(err1, err2), err3, Both(Both(err1, err2), err3));
    var (w4, err4) := Act(env, Close)(ctx, w3);
    ActTells(env, Close, ctx, ctx, w3);
    TellsTwice(env, ctx, w, w3, w4, Both(Both(err1, err2), err3), err4, Both(Both(Both(err1, err2), err3), err4));
  }

  /** No error that counts is swallowed, and none is made up: a job whose executor returns none had none, and
      one that had none, under a context that outlives it, returns none. A job with an unusable step returns
      an error at once. */
  lemma JobTells(env: Environment, job: Job, ctx: Context, w: JobWorld)
    ensures var (w', err) := RunJob(env, job, ctx, w);
            if job.steps == [] || AllUsable(job) then Tells(env, ctx, w, w', err) else err.Some? && w' == w
  {
    hide Tells, RunStarted, Act;
    if job.steps == [] {
      TellsNothing(env, ctx, w, w);
    } else if AllUsable(job) {
      var (w1, err) := Act(env, Start)(ctx, w);
      ActTells(env, Start, ctx, ctx, w);
      if err == None {
        var (w2, ended) := Check(ctx, w1);
        TellsNothing(env, ctx, w1, w2);
        TellsTwice(env, ctx, w, w1, w2, None, None, None);
        if ended.Some? {
          TellsLater(env, ctx, w, w2, None);
          TellsEnded(env, ctx, w, w2, Some(Interrupted(ended.value)));
        } else {
          StartedTells(env, job, ctx, w2);
          var (w3, err3) := RunStarted(env, job, ctx, w2);
          TellsTwice(env, ctx, w, w2, w3, None, err3, err3);
        }
      }
    }
  }
}
