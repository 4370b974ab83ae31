/** Continue-on-error: what a step's failure leaves behind, for the step and for the job. */
module JobContinue {
  import opened Basics
  import opened Executors
  import opened JobModel
  import opened JobStatus

  // ---------------------------------------------------------------- one step

  /** A body that starts at this moment ends in an error, or asks for a disabled command. */
  predicate BodyFails(env: Environment, i: nat, start: nat) {
    env.outcome(Body(i), start).Some? || env.unsecure(start + 1)
  }

  /** The result of a step whose body starts at this moment. */
  function Verdict(env: Environment, i: nat, start: nat): StepResult {
    if !BodyFails(env, i, start) then StepResult(Succeeded, Succeeded)
    else if env.continueOnError(start + 1) == Some(true) then StepResult(Failed, Succeeded)
    else StepResult(Failed, Failed)
  }

  /** Its failure, if it fails, is to be continued after, and its file commands are read without error. */
  predicate Passes(env: Environment, i: nat, start: nat) {
    (BodyFails(env, i, start) ==> env.continueOnError(start + 1) == Some(true)) && env.fileCommands(start + 1) == None
  }

  /** Reading them fails, with an error that is not taken for a cancellation. */
  predicate FilesFail(env: Environment, start: nat) {
    env.fileCommands(start + 1).Some? && env.fileCommands(start + 1) != Some(Interrupted(Canceled))
  }

  lemma ActComesTo(env: Environment, a: Action, ctx: Context, w: JobWorld)
    ensures var (w', err) := Act(env, a)(ctx, w);
            && w'.state.trace == w.state.trace + [Event(a, w.now, ctx, StatusOf(w.state))]
            && w'.now == w.now + 1 && w'.state.results == w.state.results && SameFlags(w, w')
            && err == env.outcome(a, w.now)
  {
    hide Recorded, StatusOf;
    RecordedKeeps(env, ctx, Invoked(a, ctx, w));
  }

  predicate SameFlags(w: JobWorld, w': JobWorld) {
    w'.state.cancelled == w.state.cancelled && w'.state.failed == w.state.failed
  }

  /** What becomes of a step that was asked its condition: whether its body is started, its result, and
      whether an error is returned. */
  lemma RunStepComesTo(env: Environment, i: nat, id: string, c: Condition, ctx: Context, w: JobWorld)
    ensures var (w', err) := RunStepExecutor(env, i, id, c)(ctx, w);
            var status := StatusOf(WithResult(w, id, StepResult(Succeeded, Succeeded)).state);
            && SameFlags(w, w')
            && match IsStepEnabled(c, status, w.now)
               case None =>
                 && w'.state.trace == w.state.trace && w'.now == w.now
                 && err.Some? && err != Some(Interrupted(Canceled))
                 && w'.state.results == w.state.results[id := StepResult(Failed, Failed)]
               case Some(false) =>
                 && w'.state.trace == w.state.trace && w'.now == w.now && err == None
                 && w'.state.results == w.state.results[id := StepResult(Skipped, Skipped)]
               case Some(true) =>
                 && w'.state.trace == w.state.trace + [Event(Body(i), w.now, ctx, status)] && w'.now == w.now + 1
                 && w'.state.results == w.state.results[id := Verdict(env, i, w.now)]
                 && (err == None <==> Passes(env, i, w.now))
                 && (FilesFail(env, w.now) ==> err.Some? && err != Some(Interrupted(Canceled)))
  {
    var w1 := WithResult(w, id, StepResult(Succeeded, Succeeded));
    ActComesTo(env, Body(i), ctx, w1);
    hide IsStepEnabled, StatusOf, Act;
    match IsStepEnabled(c, StatusOf(w1.state), w1.now) {
      case None => Rewritten(w.state.results, id, StepResult(Failed, Failed));
      case Some(false) => Rewritten(w.state.results, id, StepResult(Skipped, Skipped));
      case Some(true) => Rewritten(w.state.results, id, Verdict(env, i, w.now));
    }
  }

  lemma Rewritten(results: map<string, StepResult>, id: string, r: StepResult)
    ensures results[id := StepResult(Succeeded, Succeeded)][id := r] == results[id := r]
  {
  }

  /** When a step's condition is asked: after its action was prepared, if it prepares one. */
  function AskedAt(job: Job, i: nat, now: nat): nat
    requires i < |job.steps| && job.steps[i].Step?
  {
    if job.steps[i].preparesAction then now + 2 else now
  }

  /** The step's condition is asked at all: its action could be prepared and its context has not ended. */
  predicate IsAsked(env: Environment, job: Job, i: nat, ctx: Context, now: nat)
    requires i < |job.steps| && job.steps[i].Step?
  {
    job.steps[i].preparesAction ==> env.outcome(Prepare(i), now) == None && EndOf(ctx, now + 1) == None
  }

  /** The status a step's condition is asked at: the job's, with nothing held against the step itself. */
  function StatusBut(s: State, id: string): Status {
    StatusOf(s.(results := s.results[id := StepResult(Succeeded, Succeeded)]))
  }

  function StepEvents(job: Job, i: nat, ctx: Context, w: JobWorld): seq<Event>
    requires i < |job.steps| && job.steps[i].Step?
  {
    [Event(Main(i), w.now, ctx, StatusOf(w.state))] +
    if job.steps[i].preparesAction then [Event(Prepare(i), w.now, ctx, StatusOf(w.state))] else []
  }

  lemma MainOfComesTo(env: Environment, job: Job, i: nat, ctx: Context, w: JobWorld)
    requires i < |job.steps| && job.steps[i].Step? && IsAsked(env, job, i, ctx, w.now)
    ensures var (w1, err) := MainOf(env, job, i)(ctx, Invoked(Main(i), ctx, w));
            var (id, t) := (IdOf(job, i), AskedAt(job, i, w.now));
            && w1.state.cancelled == w.state.cancelled && w1.state.failed == w.state.failed
            && match IsStepEnabled(job.steps[i].condition, StatusBut(w.state, id), t)
               case None =>
                 && w1.state.trace == w.state.trace + StepEvents(job, i, ctx, w) && w1.now == t
                 && err.Some? && err != Some(Interrupted(Canceled))
                 && w1.state.results == w.state.results[id := StepResult(Failed, Failed)]
               case Some(false) =>
                 && w1.state.trace == w.state.trace + StepEvents(job, i, ctx, w) && w1.now == t && err == None
                 && w1.state.results == w.state.results[id := StepResult(Skipped, Skipped)]
               case Some(true) =>
                 && w1.state.trace == w.state.trace + StepEvents(job, i, ctx, w) +
                                      [Event(Body(i), t, ctx, StatusBut(w.state, id))]
                 && w1.now == t + 1
                 && w1.state.results == w.state.results[id := Verdict(env, i, t)]
                 && (err == None <==> Passes(env, i, t))
                 && (FilesFail(env, t) ==> err.Some? && err != Some(Interrupted(Canceled)))
  {
    hide IsStepEnabled, RunStepExecutor, Verdict, Passes, IdOf, StatusOf;
    var w0, id, c := Invoked(Main(i), ctx, w), IdOf(job, i), job.steps[i].condition;
    var w2 := w0;
    if job.steps[i].preparesAction {
      w2 := Check(ctx, Act(env, Prepare(i))(ctx, w0).0).0;
      Prepared(env, i, ctx, w0);
      assert StatusOf(w0.state) == StatusOf(w.state) by { SameStatusOf(w.state, w0.state); }
    } else {
      assert StepEvents(job, i, ctx, w) == [Event(Main(i), w.now, ctx, StatusOf(w.state))];
    }
    assert w2.state.trace == w.state.trace + StepEvents(job, i, ctx, w);
    RunStepComesTo(env, i, id, c, ctx, w2);
    SameStatusOf(WithResult(w2, id, StepResult(Succeeded, Succeeded)).state,
                 w.state.(results := w.state.results[id := StepResult(Succeeded, Succeeded)]));
  }

  lemma SameStatusOf(s: State, t: State)
    requires s.cancelled == t.cancelled && s.failed == t.failed && s.results == t.results
    ensures StatusOf(s) == StatusOf(t)
  {
  }

  lemma Prepared(env: Environment, i: nat, ctx: Context, w: JobWorld)
    requires env.outcome(Prepare(i), w.now) == None && EndOf(ctx, w.now + 1) == None
    ensures var (w1, err) := Act(env, Prepare(i))(ctx, w);
            var (w2, ended) := Check(ctx, w1);
            && err == None && ended == None && w2.now == w.now + 2 && w2.state.results == w.state.results
            && w2.state.trace == w.state.trace + [Event(Prepare(i), w.now, ctx, StatusOf(w.state))]
            && SameFlags(w, w2)
  {
    ActComesTo(env, Prepare(i), ctx, w);
    hide StatusOf, Act;
  }

  /** What a main step leaves behind, by what its condition says and how its body ends. A body's failure
      counts, and fails the job, unless continue-on-error says otherwise. */
  lemma StepComesTo(env: Environment, job: Job, i: nat, ctx: Context, w: JobWorld)
    requires i < |job.steps| && job.steps[i].Step? && IsAsked(env, job, i, ctx, w.now)
    ensures MainWrapper(env, job, i)(ctx, w).1 == None
    ensures var r := MainWrapper(env, job, i)(ctx, w).0;
            var (id, t, before) := (IdOf(job, i), AskedAt(job, i, w.now), w.state.trace + StepEvents(job, i, ctx, w));
            match IsStepEnabled(job.steps[i].condition, StatusBut(w.state, id), t)
            case None =>
              && r.state.results == w.state.results[id := StepResult(Failed, Failed)]
              && r.state.trace == before && t <= r.now && r.state.failed && ctx.errors in r.state.errors
            case Some(false) =>
              && r.state.results == w.state.results[id := StepResult(Skipped, Skipped)]
              && r.state.trace == before && t <= r.now && (EndOf(ctx, t) == None ==> SameFlags(w, r))
            case Some(true) =>
              && r.state.results == w.state.results[id := Verdict(env, i, t)]
              && r.state.trace == before + [Event(Body(i), t, ctx, StatusBut(w.state, id))] && t < r.now
              && (Passes(env, i, t) && EndOf(ctx, t + 1) == None ==> SameFlags(w, r))
              && (BodyFails(env, i, t) && env.continueOnError(t + 1) != Some(true) ==> StatusOf(r.state) != Success)
              && (FilesFail(env, t) ==> r.state.failed && ctx.errors in r.state.errors)
  {
    hide MainOf, IsStepEnabled, StatusBut, AskedAt, StepEvents, IdOf, IsAsked, BodyFails, Passes, FilesFail;
    MainOfComesTo(env, job, i, ctx, w);
    var (w1, err) := MainOf(env, job, i)(ctx, Invoked(Main(i), ctx, w));
    var (id, t) := (IdOf(job, i), AskedAt(job, i, w.now));
    ReportComesTo(ctx, w1, err);
    var r := MainWrapper(env, job, i)(ctx, w).0;
    assert r == ReportStep(ctx, w1, err);
    hide ReportStep, MainWrapper;
    if BodyFails(env, i, t) && env.continueOnError(t + 1) != Some(true) {
      assert Verdict(env, i, t).conclusion == Failed;
      assert id in r.state.results ==> r.state.results[id].conclusion == Failed ==> SomeFailed(r.state.results);
    }
  }

  lemma ReportComesTo(ctx: Context, w: JobWorld, err: Option<Error>)
    ensures var r := ReportStep(ctx, w, err);
            && r.state.trace == w.state.trace && r.state.results == w.state.results && w.now <= r.now
            && (err == None && EndOf(ctx, w.now) == None ==> SameFlags(w, r))
            && (err.Some? && err != Some(Interrupted(Canceled)) ==> r.state.failed && HasError(ctx, r, err.value))
            && (err == Some(Interrupted(Canceled)) ==>
                  && (EndOf(ctx, w.now) == None ==> SameFlags(w, r))
                  && (EndOf(ctx, w.now) == Some(Canceled) ==> r.state.cancelled && r.state.failed == w.state.failed))
  {
  }

  /** The error kept for the job in this context's container. */
  predicate HasError(ctx: Context, w: JobWorld, err: Error) {
    ctx.errors in w.state.errors && w.state.errors[ctx.errors] == err
  }

  /** The error of a pre or post step fails the job and is kept as its error; so does the end of the context
      at a deadline, and its cancellation cancels the job. A cancellation error under a live context counts
      for nothing. */
  lemma WrappersReport(env: Environment, i: nat, post: bool, ctx: Context, w: JobWorld)
    ensures var a := if post then Post(i) else Pre(i);
            var (r, err) := if post then PostWrapper(env, i)(ctx, w) else PreWrapper(env, i)(ctx, w);
            && err == env.outcome(a, w.now) && r.state.results == w.state.results
            && r.state.trace == w.state.trace + [Event(a, w.now, ctx, StatusOf(w.state))]
            && match err
               case Some(e) =>
                 if e != Interrupted(Canceled) then r.state.failed && HasError(ctx, r, e)
                 else EndOf(ctx, w.now + 1) == None ==> SameFlags(w, r)
               case None =>
                 match EndOf(ctx, w.now + 1)
                 case None => SameFlags(w, r)
                 case Some(Canceled) => r.state.cancelled
                 case Some(DeadlineExceeded) => r.state.failed && HasError(ctx, r, Interrupted(DeadlineExceeded))
  {
    var a := if post then Post(i) else Pre(i);
    ActComesTo(env, a, ctx, w);
    var (w1, err) := Act(env, a)(ctx, w);
    hide Act, StatusOf;
    ReportComesTo(ctx, w1, err);
  }

  /** A hook's error, or that of the download of actions, likewise. */
  lemma HooksReport(env: Environment, a: Action, ctx: Context, w: JobWorld)
    ensures var (r, err) := Reporting(env, a)(ctx, w);
            && err == env.outcome(a, w.now) && r.state.results == w.state.results
            && (err == None ==> SameFlags(w, r))
            && (err.Some? && err != Some(Interrupted(Canceled)) ==> r.state.failed && HasError(ctx, r, err.value))
  {
    ActComesTo(env, a, ctx, w);
    hide Act, StatusOf;
  }

  /** A step that is not asked keeps its result from before, and the reason fails or cancels the job. */
  lemma StepNotAsked(env: Environment, job: Job, i: nat, ctx: Context, w: JobWorld)
    requires i < |job.steps| && job.steps[i].Step? && !IsAsked(env, job, i, ctx, w.now)
    ensures MainWrapper(env, job, i)(ctx, w).1 == None
    ensures var r := MainWrapper(env, job, i)(ctx, w).0;
            && r.state.results == w.state.results && r.state.trace == w.state.trace + StepEvents(job, i, ctx, w)
            && w.now < r.now
            && match env.outcome(Prepare(i), w.now)
               case Some(e) => e != Interrupted(Canceled) ==> r.state.failed
               case None => if EndOf(ctx, w.now + 1) == Some(Canceled) then r.state.cancelled else r.state.failed
  {
    MainOfNotAsked(env, job, i, ctx, w);
    var (w1, err) := MainOf(env, job, i)(ctx, Invoked(Main(i), ctx, w));
    assert MainWrapper(env, job, i)(ctx, w).0 == ReportStep(ctx, w1, err);
    hide MainOf, MainWrapper, StatusOf, StepEvents;
    ReportComesTo(ctx, w1, err);
    if err == Some(Interrupted(Canceled)) && EndOf(ctx, w.now + 1) == Some(Canceled) {
      assert EndOf(ctx, w1.now) == Some(Canceled);
    }
  }

  lemma MainOfNotAsked(env: Environment, job: Job, i: nat, ctx: Context, w: JobWorld)
    requires i < |job.steps| && job.steps[i].Step? && !IsAsked(env, job, i, ctx, w.now)
    ensures var (w1, err) := MainOf(env, job, i)(ctx, Invoked(Main(i), ctx, w));
            && w1.state.results == w.state.results && w1.state.trace == w.state.trace + StepEvents(job, i, ctx, w)
            && match env.outcome(Prepare(i), w.now)
               case Some(e) => err == Some(e) && w1.now == w.now + 1
               case None =>
                 && EndOf(ctx, w.now + 1).Some? && err == Some(Interrupted(EndOf(ctx, w.now + 1).value))
                 && w1.now == w.now + 2
  {
    var w0 := Invoked(Main(i), ctx, w);
    ActComesTo(env, Prepare(i), ctx, w0);
    SameStatusOf(w0.state, w.state);
    hide Act, StatusOf, RunStepExecutor;
    var w1 := Act(env, Prepare(i))(ctx, w0).0;
    assert w1.state.trace == w.state.trace + StepEvents(job, i, ctx, w);
  }

  // ---------------------------------------------------------------- the whole job

  /** Nothing goes wrong but bodies, and every failure of one is to be continued after. */
  ghost predicate OnlyBodiesFail(env: Environment) {
    && (forall a: Action, t | !a.Body? :: env.outcome(a, t) == None)
    && forall t :: env.continueOnError(t) == Some(true) && env.fileCommands(t) == None
  }

  ghost predicate EvaluableAtSuccess(job: Job) {
    forall i | 0 <= i < |job.steps| ::
      job.steps[i].Step? && forall now :: job.steps[i].condition.value(Success, now).Some?
  }

  predicate Later(w: JobWorld, w': JobWorld) {
    w.now <= w'.now && w.state.trace <= w'.state.trace
  }

  /** Time passes and the trace grows; and unless the context has ended by then, a job that succeeds goes on
      to, and every action in between sees it succeed. */
  ghost predicate Unharmed(ctx: Context, w: JobWorld, w': JobWorld) {
    && Later(w, w')
    && (StatusOf(w.state) == Success && EndOf(ctx, w'.now) == None ==>
          && StatusOf(w'.state) == Success
          && forall e | |w.state.trace| <= e < |w'.state.trace| :: w'.state.trace[e].status == Success)
  }

  lemma UnharmedTransitive(ctx: Context, a: JobWorld, b: JobWorld, c: JobWorld)
    requires Unharmed(ctx, a, b) && Unharmed(ctx, b, c)
    ensures Unharmed(ctx, a, c)
  {
    hide StatusOf;
    assert forall e | 0 <= e < |b.state.trace| :: c.state.trace[e] == b.state.trace[e];
  }

  lemma SameIsUnharmed(ctx: Context, w: JobWorld, w': JobWorld)
    requires w'.state.trace == w.state.trace && w.now <= w'.now
    requires EndOf(ctx, w'.now) == None ==> SameFlags(w, w') && w'.state.results == w.state.results
    ensures Unharmed(ctx, w, w')
  {
    if EndOf(ctx, w'.now) == None { SameStatusOf(w.state, w'.state); }
    hide StatusOf;
  }

  ghost predicate Harmless(e: JobExecutor) {
    forall ctx, w :: Unharmed(ctx, w, e(ctx, w).0)
  }

  lemma ActUnharmed(env: Environment, a: Action, ctx: Context, w: JobWorld)
    ensures Unharmed(ctx, w, Act(env, a)(ctx, w).0)
  {
    ActComesTo(env, a, ctx, w);
    SameStatusOf(w.state, Act(env, a)(ctx, w).0.state);
    hide Act, StatusOf;
  }

  lemma ReportUnharmed(ctx: Context, w: JobWorld)
    ensures Unharmed(ctx, w, ReportStep(ctx, w, None))
  {
    SameIsUnharmed(ctx, w, ReportStep(ctx, w, None));
  }

  lemma ExecutorsAreHarmless(env: Environment, a: Action, i: nat)
    requires OnlyBodiesFail(env) && !a.Body?
    ensures Harmless(Act(env, a)) && Harmless(Quiet(env, a)) && Harmless(Reporting(env, a))
    ensures Harmless(PreWrapper(env, i)) && Harmless(PostWrapper(env, i))
  {
    forall ctx, w
      ensures Unharmed(ctx, w, Act(env, a)(ctx, w).0) && Unharmed(ctx, w, Reporting(env, a)(ctx, w).0)
      ensures Unharmed(ctx, w, PreWrapper(env, i)(ctx, w).0) && Unharmed(ctx, w, PostWrapper(env, i)(ctx, w).0)
    {
      OneUnharmed(env, a, ctx, w);
      OneUnharmed(env, Pre(i), ctx, w);
      OneUnharmed(env, Post(i), ctx, w);
      hide Act, ReportStep, Unharmed;
    }
  }

  lemma OneUnharmed(env: Environment, a: Action, ctx: Context, w: JobWorld)
    requires OnlyBodiesFail(env) && !a.Body?
    ensures var (w1, err) := Act(env, a)(ctx, w);
            err == None && Unharmed(ctx, w, w1) && Unharmed(ctx, w, ReportStep(ctx, w1, None))
  {
    ActComesTo(env, a, ctx, w);
    hide Act, ReportStep, Unharmed;
    var w1 := Act(env, a)(ctx, w).0;
    ActUnharmed(env, a, ctx, w);
    ReportUnharmed(ctx, w1);
    UnharmedTransitive(ctx, w, w1, ReportStep(ctx, w1, None));
  }

  /** A step whose body fails or not: the job goes on succeeding, and the step's body runs if its condition
      says so. */
  lemma MainUnharmed(env: Environment, job: Job, i: nat, ctx: Context, w: JobWorld)
    requires OnlyBodiesFail(env) && EvaluableAtSuccess(job) && i < |job.steps|
    ensures var w' := MainWrapper(env, job, i)(ctx, w).0;
            && Unharmed(ctx, w, w')
            && (StatusOf(w.state) == Success && EndOf(ctx, w'.now) == None && RunsAtSuccess(job, i) ==>
                  BodyRuns(i, w, w'))
  {
    hide MainWrapper, IsStepEnabled, BodyFails, StatusOf, StatusBut;
    var w' := MainWrapper(env, job, i)(ctx, w).0;
    if IsAsked(env, job, i, ctx, w.now) {
      StepComesTo(env, job, i, ctx, w);
      if StatusOf(w.state) == Success && EndOf(ctx, w'.now) == None {
        var (id, t) := (IdOf(job, i), AskedAt(job, i, w.now));
        SuccessBut(w.state, id);
        EnabledAtSuccess(job.steps[i].condition, t);
        var r := w'.state.results[id];
        StillSucceeds(w.state, w'.state, id, r);
        if RunsAtSuccess(job, i) {
          assert w'.state.trace[|w'.state.trace| - 1].action == Body(i);
        }
      }
    } else {
      StepNotAsked(env, job, i, ctx, w);
    }
  }

  lemma SuccessBut(s: State, id: string)
    requires StatusOf(s) == Success
    ensures StatusBut(s, id) == Success
  {
  }

  lemma EnabledAtSuccess(c: Condition, now: nat)
    ensures IsStepEnabled(c, Success, now) == c.value(Success, now)
  {
  }

  lemma StillSucceeds(s: State, t: State, id: string, r: StepResult)
    requires StatusOf(s) == Success && t.cancelled == s.cancelled && t.failed == s.failed
    requires t.results == s.results[id := r] && r.conclusion != Failed
    ensures StatusOf(t) == Success
  {
  }

  /** The step's condition holds whenever the job succeeds. */
  ghost predicate RunsAtSuccess(job: Job, i: nat) {
    i < |job.steps| && job.steps[i].Step? && forall now :: job.steps[i].condition.value(Success, now) == Some(true)
  }

  ghost predicate BodyRuns(i: nat, w: JobWorld, w': JobWorld) {
    exists e | |w.state.trace| <= e < |w'.state.trace| :: w'.state.trace[e].action == Body(i)
  }

  /** Every step from k on that is to run while the job succeeds has run. */
  ghost predicate BodiesRun(job: Job, k: nat, w: JobWorld, w': JobWorld) {
    forall j | k <= j < |job.steps| && RunsAtSuccess(job, j) :: BodyRuns(j, w, w')
  }

  lemma BodyRunsWithin(i: nat, a: JobWorld, b: JobWorld, c: JobWorld, d: JobWorld)
    requires Later(a, b) && BodyRuns(i, b, c) && Later(c, d)
    ensures BodyRuns(i, a, d)
  {
    var e :| |b.state.trace| <= e < |c.state.trace| && c.state.trace[e].action == Body(i);
    assert d.state.trace[e] == c.state.trace[e];
  }

  lemma BodiesRunFirst(job: Job, k: nat, a: JobWorld, b: JobWorld, c: JobWorld, d: JobWorld)
    requires k < |job.steps| && Later(a, b) && Later(b, c) && Later(c, d)
    requires RunsAtSuccess(job, k) ==> BodyRuns(k, b, c)
    requires BodiesRun(job, k + 1, c, d)
    ensures BodiesRun(job, k, a, d)
  {
    hide BodyRuns, RunsAtSuccess, Later;
    forall j | k <= j < |job.steps| && RunsAtSuccess(job, j) ensures BodyRuns(j, a, d) {
      if j == k {
        BodyRunsWithin(j, a, b, c, d);
      } else {
        assert Later(a, c) && Later(d, d) by { LaterAgain(a, b, c, d); }
        BodyRunsWithin(j, a, c, d, d);
      }
    }
  }

  lemma LaterAgain(a: JobWorld, b: JobWorld, c: JobWorld, d: JobWorld)
    requires Later(a, b) && Later(b, c)
    ensures Later(a, c) && Later(d, d)
  {
  }

  lemma {:induction false} AllLater(env: Environment, job: Job, k: nat, ctx: Context, w: JobWorld)
    requires OnlyBodiesFail(env) && EvaluableAtSuccess(job) && AllUsable(job) && k <= |job.steps|
    ensures Later(w, RunAll(MainFrom(env, job, k), ctx, w))
    decreases |job.steps| - k
  {
    hide OnlyBodiesFail, EvaluableAtSuccess, MainWrapper, MainFrom, StatusOf, BodyRuns, RunsAtSuccess;
    if k < |job.steps| {
      MainFromStep(env, job, k);
      MainUnharmed(env, job, k, ctx, w);
      AllLater(env, job, k + 1, ctx, MainWrapper(env, job, k)(ctx, w).0);
    }
  }

  /** The main steps from k on. */
  lemma {:induction false} MainFromUnharmed(env: Environment, job: Job, k: nat, ctx: Context, w: JobWorld)
    requires OnlyBodiesFail(env) && EvaluableAtSuccess(job) && AllUsable(job) && k <= |job.steps|
    ensures var w' := RunMain(env, MainFrom(env, job, k), ctx, w).0;
            && Unharmed(ctx, w, w')
            && (StatusOf(w.state) == Success && EndOf(ctx, w'.now) == None ==> BodiesRun(job, k, w, w'))
    decreases |job.steps| - k
  {
    hide OnlyBodiesFail, EvaluableAtSuccess, MainWrapper, MainFrom, BodiesRun, RunsAtSuccess;
    var (w1, ended) := Check(ctx, w);
    var w' := RunMain(env, MainFrom(env, job, k), ctx, w).0;
    SameIsUnharmed(ctx, w, w1);
    if k == |job.steps| {
      SameIsUnharmed(ctx, w, w');
      assert BodiesRun(job, k, w, w') by { NoBodiesLeft(job, w, w'); }
    } else if ended.Some? {
      var flagged := w1.(state := MarkInterrupted(w1.state, ended));
      AllLater(env, job, k, Fresh(env, w1.now, ctx.errors), flagged);
      assert EndOf(ctx, w'.now).Some?;
    } else {
      MainFromStep(env, job, k);
      var w2 := MainWrapper(env, job, k)(ctx, w1).0;
      MainUnharmed(env, job, k, ctx, w1);
      MainFromUnharmed(env, job, k + 1, ctx, w2);
      hide StatusOf, BodyRuns;
      UnharmedTransitive(ctx, w, w1, w2);
      UnharmedTransitive(ctx, w, w2, w');
      if StatusOf(w.state) == Success && EndOf(ctx, w'.now) == None {
        BodiesRunFirst(job, k, w, w1, w2, w');
      }
    }
  }

  lemma NoBodiesLeft(job: Job, w: JobWorld, w': JobWorld)
    ensures BodiesRun(job, |job.steps|, w, w')
  {
  }

  lemma MainsUnharmed(env: Environment, job: Job, ctx: Context, w: JobWorld)
    requires OnlyBodiesFail(env) && EvaluableAtSuccess(job) && AllUsable(job)
    ensures var w' := RunMain(env, MainExecutors(env, job), ctx, w).0;
            && Unharmed(ctx, w, w')
            && (StatusOf(w.state) == Success && EndOf(ctx, w'.now) == None ==> BodiesRun(job, 0, w, w'))
  {
    hide OnlyBodiesFail, EvaluableAtSuccess, MainExecutors, BodiesRun, StatusOf, Quiet;
    var es := MainExecutors(env, job);
    var w' := RunMain(env, es, ctx, w).0;
    var (w1, ended) := Check(ctx, w);
    SameIsUnharmed(ctx, w, w1);
    assert es[1..] == MainFrom(env, job, 0);
    ExecutorsAreHarmless(env, MatrixLog, 0);
    if ended.Some? {
      var flagged := w1.(state := MarkInterrupted(w1.state, ended));
      var detached := Fresh(env, w1.now, ctx.errors);
      var w2 := Quiet(env, MatrixLog)(detached, flagged).0;
      assert Unharmed(detached, flagged, w2);
      AllLater(env, job, 0, detached, w2);
      assert Later(w, w') && EndOf(ctx, w'.now).Some?;
    } else {
      var w2 := Quiet(env, MatrixLog)(ctx, w1).0;
      assert Unharmed(ctx, w1, w2);
      MainFromUnharmed(env, job, 0, ctx, w2);
      UnharmedTransitive(ctx, w, w1, w2);
      UnharmedTransitive(ctx, w, w2, w');
      if StatusOf(w.state) == Success && EndOf(ctx, w'.now) == None {
        BodiesRunLater(job, w, w2, w', w');
      }
    }
  }

  lemma BodiesRunLater(job: Job, a: JobWorld, b: JobWorld, c: JobWorld, d: JobWorld)
    requires Later(a, b) && BodiesRun(job, 0, b, c) && Later(c, d)
    ensures BodiesRun(job, 0, a, d)
  {
    hide BodyRuns, RunsAtSuccess, Later;
    forall j | 0 <= j < |job.steps| && RunsAtSuccess(job, j) ensures BodyRuns(j, a, d) {
      BodyRunsWithin(j, a, b, c, d);
    }
  }

  lemma {:induction false} PipelineUnharmed(es: seq<JobExecutor>, ctx: Context, w: JobWorld)
    requires forall i | 0 <= i < |es| :: Harmless(es[i])
    ensures Unharmed(ctx, w, RunPipeline(es, ctx, w).0)
    decreases |es|
  {
    if es == [] {
      SameIsUnharmed(ctx, w, w);
    } else {
      hide Unharmed, StatusOf;
      assert Harmless(es[0]);
      var (w1, err) := es[0](ctx, w);
      var (w2, ended) := Check(ctx, w1);
      SameIsUnharmed(ctx, w1, w2);
      UnharmedTransitive(ctx, w, w1, w2);
      if |es| > 1 && err == None && ended == None {
        assert forall i | 0 <= i < |es[1..]| :: es[1..][i] == es[i + 1];
        PipelineUnharmed(es[1..], ctx, w2);
        UnharmedTransitive(ctx, w, w2, RunPipeline(es, ctx, w).0);
      }
    }
  }

  lemma PresUnharmed(env: Environment, job: Job, ctx: Context, w: JobWorld)
    requires OnlyBodiesFail(env)
    ensures Unharmed(ctx, w, RunPipeline(PreExecutors(env, job), ctx, w).0)
  {
    hide Harmless, OnlyBodiesFail, Unharmed, RunPipeline;
    var es := PreExecutors(env, job);
    ExecutorsAreHarmless(env, Setup, 0);
    ExecutorsAreHarmless(env, StartedHook, 0);
    ExecutorsAreHarmless(env, PrepareActions, 0);
    ExecutorsAreHarmless(env, CompleteName, 0);
    forall i | 0 <= i < |es| ensures Harmless(es[i]) {
      if 3 <= i < |es| - 1 {
        assert es[(i - 3) + 3] == PreWrapper(env, i - 3);
        ExecutorsAreHarmless(env, Setup, i - 3);
      }
    }
    PipelineUnharmed(es, ctx, w);
  }

  lemma {:induction false} PostsUnharmed(env: Environment, k: nat, ctx: Context, w: JobWorld)
    requires OnlyBodiesFail(env) && k > 0
    ensures Unharmed(ctx, w, RunPosts(env, k, ctx, w).0)
  {
    hide Unharmed, OnlyBodiesFail;
    ExecutorsAreHarmless(env, Setup, k - 1);
    var w1 := PostWrapper(env, k - 1)(ctx, w).0;
    assert Unharmed(ctx, w, w1);
    if k > 1 {
      PostsUnharmed(env, k - 1, ctx, w1);
      UnharmedTransitive(ctx, w, w1, RunPosts(env, k, ctx, w).0);
    }
  }

  /** Both looks at the context come before the post steps. */
  lemma BeforePostsUnharmed(env: Environment, ctx: Context, w: JobWorld)
    ensures var (w2, postCtx) := BeforePosts(env, ctx, w);
            && Unharmed(ctx, w, w2) && w2.now == w.now + 2
            && (EndOf(ctx, w2.now) == None ==> postCtx == ctx)
  {
    hide StatusOf;
    SameIsUnharmed(ctx, w, BeforePosts(env, ctx, w).0);
  }

  /** What is unharmed under the context of the post steps is so under the job's. */
  lemma UnderPostContext(ctx: Context, postCtx: Context, a: JobWorld, b: JobWorld)
    requires Unharmed(postCtx, a, b) && (EndOf(ctx, a.now) == None ==> postCtx == ctx)
    ensures Unharmed(ctx, a, b)
  {
    hide StatusOf;
  }

  lemma PostPartUnharmed(env: Environment, job: Job, ctx: Context, w: JobWorld)
    requires OnlyBodiesFail(env) && |job.steps| > 0
    ensures Unharmed(ctx, w, RunPostPart(env, job, ctx, w).0)
  {
    hide Unharmed, OnlyBodiesFail, BeforePosts, RunPosts, Reporting, Act, StatusOf;
    var (w2, postCtx) := BeforePosts(env, ctx, w);
    BeforePostsUnharmed(env, ctx, w);
    var w3 := RunPosts(env, |job.steps|, postCtx, w2).0;
    PostsUnharmed(env, |job.steps|, postCtx, w2);
    ExecutorsAreHarmless(env, CompletedHook, 0);
    ExecutorsAreHarmless(env, Stop, 0);
    var w4 := Reporting(env, CompletedHook)(postCtx, w3).0;
    assert Unharmed(postCtx, w3, w4);
    UnharmedTransitive(postCtx, w2, w3, w4);
    UnderPostContext(ctx, postCtx, w2, w4);
    UnharmedTransitive(ctx, w, w2, w4);
    var w5 := Teardown(env, job)(postCtx, w4).0;
    if StopsContainer(job, postCtx, w4.state) {
      StopUnharmed(env, ctx, Fresh(env, w4.now, postCtx.errors), w4);
      UnharmedTransitive(ctx, w, w4, w5);
    }
  }

  /** The container is stopped under a context of its own, which changes nothing here. */
  lemma StopUnharmed(env: Environment, ctx: Context, own: Context, w: JobWorld)
    ensures Unharmed(ctx, w, Act(env, Stop)(own, w).0)
  {
    ActComesTo(env, Stop, own, w);
    SameStatusOf(w.state, Act(env, Stop)(own, w).0.state);
    hide Act, StatusOf;
  }

  lemma StartedUnharmed(env: Environment, job: Job, ctx: Context, w: JobWorld)
    requires OnlyBodiesFail(env) && EvaluableAtSuccess(job) && AllUsable(job) && |job.steps| > 0
    ensures var w' := RunStarted(env, job, ctx, w).0;
            && Unharmed(ctx, w, w')
            && (StatusOf(w.state) == Success && EndOf(ctx, w'.now) == None ==> BodiesRun(job, 0, w, w'))
  {
    hide RunPipeline, RunMain, RunPostPart, Act, PreExecutors, MainExecutors, OnlyBodiesFail, EvaluableAtSuccess,
      BodiesRun, StatusOf;
    var w0 := RunPipeline(PreExecutors(env, job), ctx, w).0;
    PresUnharmed(env, job, ctx, w);
    var w1 := RunMain(env, MainExecutors(env, job), ctx, w0).0;
    MainsUnharmed(env, job, ctx, w0);
    var w2 := RunPostPart(env, job, ctx, w1).0;
    PostPartUnharmed(env, job, ctx, w1);
    var w3 := Act(env, InterpolateOutputs)(ctx, w2).0;
    ActUnharmed(env, InterpolateOutputs, ctx, w2);
    var w' := Act(env, Close)(ctx, w3).0;
    ActUnharmed(env, Close, ctx, w3);
    UnharmedTransitive(ctx, w1, w2, w3);
    UnharmedTransitive(ctx, w1, w3, w');
    UnharmedTransitive(ctx, w, w0, w1);
    UnharmedTransitive(ctx, w, w1, w');
    if StatusOf(w.state) == Success && EndOf(ctx, w'.now) == None {
      BodiesRunLater(job, w, w0, w1, w');
    }
  }

  /** A job in which only bodies fail, each to be continued after, succeeds: whatever its bodies do, every
      action sees it succeed, and no step that is to run while it does is left out. */
  lemma ContinuedJobSucceeds(env: Environment, job: Job, ctx: Context, w: JobWorld)
    requires OnlyBodiesFail(env) && EvaluableAtSuccess(job) && StatusOf(w.state) == Success
    requires EndOf(ctx, RunJob(env, job, ctx, w).0.now) == None
    ensures var r := RunJob(env, job, ctx, w).0;
            && StatusOf(r.state) == Success
            && (forall e | |w.state.trace| <= e < |r.state.trace| :: r.state.trace[e].status == Success)
            && BodiesRun(job, 0, w, r)
  {
    hide RunStarted, Act, OnlyBodiesFail, BodiesRun, StatusOf;
    var r := RunJob(env, job, ctx, w).0;
    if job.steps == [] {
      assert BodiesRun(job, 0, w, r) by { NoBodiesLeft(job, w, r); }
    } else {
      assert AllUsable(job);
      hide EvaluableAtSuccess;
      OneUnharmed(env, Start, ctx, w);
      var w1 := Act(env, Start)(ctx, w).0;
      var (w2, ended) := Check(ctx, w1);
      SameIsUnharmed(ctx, w1, w2);
      UnharmedTransitive(ctx, w, w1, w2);
      if ended == None {
        StartedUnharmed(env, job, ctx, w2);
        UnharmedTransitive(ctx, w, w2, r);
        BodiesRunLater(job, w, w2, r, r);
      }
    }
  }
}
