/** Step ids: when the status of a run only rises, whatever its surroundings. */
module JobIds {
  import opened Basics
  import opened Executors
  import opened JobModel
  import opened JobStatus

  /** No two main steps share an id, counting the index that stands for a missing one. */
  predicate DistinctIds(job: Job) {
    forall i, j | 0 <= i < j < |job.steps| :: IdOf(job, i) != IdOf(job, j)
  }

  /** Surroundings in which only step i's body fails, with a cancellation that its context knows nothing
      of. */
  function StrayCancel(i: nat): Environment {
    Environment(
      (a, t) => if a == Body(i) then Some(Interrupted(Canceled)) else None,
      t => None, t => false, t => Some(false), t => None, t => None)
  }

  const ENDLESS: Context := Context(None, 0)

  /** The condition of every step can be evaluated at any status and moment. */
  ghost predicate AllEvaluable(job: Job) {
    forall i | 0 <= i < |job.steps| :: job.steps[i].Step? && IsEvaluable(job.steps[i].condition)
  }

  ghost predicate IsEvaluable(c: Condition) {
    forall status, now :: c.value(status, now).Some?
  }

  /** The condition holds whenever the job succeeds. */
  ghost predicate AlwaysAtSuccess(c: Condition) {
    forall now :: c.value(Success, now) == Some(true)
  }

  /** Step i runs while the job succeeds, and every condition can be evaluated. */
  ghost predicate StrayRuns(i: nat, job: Job) {
    i < |job.steps| && AllEvaluable(job) && AlwaysAtSuccess(job.steps[i].condition)
  }

  /** Nothing but a step's result can make the job fail. */
  predicate Unflagged(w: JobWorld) {
    !w.state.cancelled && !w.state.failed
  }

  lemma QuietAct(i: nat, a: Action, w: JobWorld)
    ensures var (w', err) := Act(StrayCancel(i), a)(ENDLESS, w);
            && w'.state == Invoked(a, ENDLESS, w).state && StatusOf(w'.state) == StatusOf(w.state)
            && w.state.trace <= w'.state.trace
            && err == if a == Body(i) then Some(Interrupted(Canceled)) else None
  {
    assert Recorded(StrayCancel(i), ENDLESS, Invoked(a, ENDLESS, w)) == Invoked(a, ENDLESS, w);
  }

  /** From w to w' the trace grows and one result is set, failed or not; no flag is. */
  ghost predicate SetsResult(id: string, fails: bool, w: JobWorld, w': JobWorld) {
    && Unflagged(w') && w.state.trace <= w'.state.trace
    && w'.state.results.Keys == w.state.results.Keys + {id}
    && (forall x | x in w.state.results && x != id :: w'.state.results[x] == w.state.results[x])
    && (w'.state.results[id].conclusion == Failed <==> fails)
  }

  /** Only the time and the trace differ before, and only the time after. */
  lemma SetsResultAround(id: string, fails: bool, w: JobWorld, u: JobWorld, v: JobWorld, w': JobWorld)
    requires w.state.trace <= u.state.trace && u.state.results == w.state.results
    requires SetsResult(id, fails, u, v) && w'.state == v.state
    ensures SetsResult(id, fails, w, w')
  {
  }

  lemma QuietRunStep(i: nat, k: nat, id: string, c: Condition, w: JobWorld)
    requires Unflagged(w) && IsEvaluable(c) && (k == i ==> AlwaysAtSuccess(c) && KeepsStatus(w, id))
    requires k == i ==> StatusOf(w.state) == Success
    ensures var (w', err) := RunStepExecutor(StrayCancel(i), k, id, c)(ENDLESS, w);
            SetsResult(id, k == i, w, w') && err == if k == i then Some(Interrupted(Canceled)) else None
  {
    hide StatusOf, Act, StrayCancel, Concluded, BodyError;
    var w1 := WithResult(w, id, StepResult(Succeeded, Succeeded));
    QuietAct(i, Body(k), w1);
    var w2 := Act(StrayCancel(i), Body(k))(ENDLESS, w1).0;
    StrayConcluded(i, if k == i then Some(Interrupted(Canceled)) else None, w2.now);
    assert c.value(StatusOf(w1.state), w1.now).Some?;
    assert k == i ==> c.value(Success, w1.now) == Some(true);
  }

  lemma StrayConcluded(i: nat, err: Option<Error>, now: nat)
    ensures var env := StrayCancel(i);
            && BodyError(env, err, now) == err && env.fileCommands(now) == None
            && env.continueOnError(now) == Some(false)
            && Concluded(env, err, now) ==
               if err == None then (StepResult(Succeeded, Succeeded), None) else (StepResult(Failed, Failed), err)
  {
  }

  lemma SuccessKeepsStatus(w: JobWorld, id: string)
    requires StatusOf(w.state) == Success
    ensures KeepsStatus(w, id)
  {
    var w1 := WithResult(w, id, StepResult(Succeeded, Succeeded));
    assert forall x | x in w1.state.results && x != id :: w1.state.results[x] == w.state.results[x];
  }

  lemma QuietMainOf(i: nat, job: Job, k: nat, w: JobWorld)
    requires StrayRuns(i, job) && k < |job.steps| && Unflagged(w)
    requires k == i ==> StatusOf(w.state) == Success
    ensures var (w', err) := MainOf(StrayCancel(i), job, k)(ENDLESS, w);
            SetsResult(IdOf(job, k), k == i, w, w') && err == if k == i then Some(Interrupted(Canceled)) else None
  {
    hide IdOf, Act, RunStepExecutor, StatusOf, SetsResult, KeepsStatus, IsEvaluable, AlwaysAtSuccess, StrayCancel;
    var env, id := StrayCancel(i), IdOf(job, k);
    var (w', err) := MainOf(env, job, k)(ENDLESS, w);
    var v := Act(env, Prepare(k))(ENDLESS, w).0;
    QuietAct(i, Prepare(k), w);
    var u := if job.steps[k].preparesAction then Check(ENDLESS, v).0 else w;
    assert job.steps[k].Step? && IsEvaluable(job.steps[k].condition);
    if k == i { SuccessKeepsStatus(u, id); }
    QuietRunStep(i, k, id, job.steps[k].condition, u);
    SetsResultAround(id, k == i, w, u, w', w');
  }

  /** One main step of such a run. */
  lemma QuietMain(i: nat, job: Job, k: nat, w: JobWorld)
    requires StrayRuns(i, job) && k < |job.steps| && Unflagged(w)
    requires k == i ==> StatusOf(w.state) == Success
    ensures var w' := MainWrapper(StrayCancel(i), job, k)(ENDLESS, w).0;
            && SetsResult(IdOf(job, k), k == i, w, w')
            && |w.state.trace| < |w'.state.trace| && w'.state.trace[|w.state.trace|].status == StatusOf(w.state)
  {
    assert job.steps[k].Step?;
    hide IdOf, MainOf, SetsResult, StatusOf, StrayRuns, StrayCancel;
    var env, w0 := StrayCancel(i), Invoked(Main(k), ENDLESS, w);
    SameStatus(w, w0);
    QuietMainOf(i, job, k, w0);
    var (v, err) := MainOf(env, job, k)(ENDLESS, w0);
    var w' := MainWrapper(env, job, k)(ENDLESS, w).0;
    StrayReport(v, err);
    SetsResultAround(IdOf(job, k), k == i, w, w0, v, w');
    SetsResultAround(IdOf(job, k), k == i, w0, w0, v, w');
    FirstOfTrace(IdOf(job, k), k == i, w, w0, w');
  }

  lemma SameStatus(w: JobWorld, w': JobWorld)
    requires w'.state.results == w.state.results
    requires w'.state.cancelled == w.state.cancelled && w'.state.failed == w.state.failed
    ensures StatusOf(w'.state) == StatusOf(w.state)
  {
  }

  /** A cancellation that the context knows nothing of leaves no mark. */
  lemma StrayReport(w: JobWorld, err: Option<Error>)
    requires err == None || err == Some(Interrupted(Canceled))
    ensures ReportStep(ENDLESS, w, err).state == w.state
  {
  }

  lemma FirstOfTrace(id: string, fails: bool, w: JobWorld, w0: JobWorld, w': JobWorld)
    requires SetsResult(id, fails, w0, w')
    requires |w0.state.trace| > |w.state.trace| && w0.state.trace[|w.state.trace|].status == StatusOf(w.state)
    ensures |w.state.trace| < |w'.state.trace| && w'.state.trace[|w.state.trace|].status == StatusOf(w.state)
  {
  }

  /** The results before step k of such a run. */
  ghost predicate OnlyStrayFailed(i: nat, job: Job, w: JobWorld) {
    Unflagged(w) && i < |job.steps| && forall id | id in w.state.results && w.state.results[id].conclusion == Failed ::
      id == IdOf(job, i)
  }

  lemma NoneFailed(i: nat, job: Job, k: nat, w: JobWorld, w': JobWorld)
    requires k < |job.steps| && OnlyStrayFailed(i, job, w) && SetsResult(IdOf(job, k), false, w, w')
    requires IdOf(job, k) == IdOf(job, i) || StatusOf(w.state) == Success
    ensures StatusOf(w'.state) == Success
  {
    hide IdOf;
  }

  /** One step after the failed one. */
  lemma StepAfter(i: nat, job: Job, k: nat, w: JobWorld)
    requires StrayRuns(i, job) && i < k < |job.steps| && OnlyStrayFailed(i, job, w)
    ensures var w' := MainWrapper(StrayCancel(i), job, k)(ENDLESS, w).0;
            && OnlyStrayFailed(i, job, w') && w.state.trace <= w'.state.trace
            && (IdOf(job, k) == IdOf(job, i) || StatusOf(w.state) == Success ==> StatusOf(w'.state) == Success)
  {
    hide MainWrapper, IdOf, StatusOf, SetsResult, OnlyStrayFailed;
    StrayUnflagged(i, job, w);
    QuietMain(i, job, k, w);
    var w' := MainWrapper(StrayCancel(i), job, k)(ENDLESS, w).0;
    AfterStray(i, job, k, w, w');
    if IdOf(job, k) == IdOf(job, i) || StatusOf(w.state) == Success {
      NoneFailed(i, job, k, w, w');
    }
  }

  lemma StrayUnflagged(i: nat, job: Job, w: JobWorld)
    requires OnlyStrayFailed(i, job, w)
    ensures Unflagged(w)
  {
  }

  lemma AfterStray(i: nat, job: Job, k: nat, w: JobWorld, w': JobWorld)
    requires k < |job.steps| && OnlyStrayFailed(i, job, w) && SetsResult(IdOf(job, k), false, w, w')
    ensures OnlyStrayFailed(i, job, w') && w.state.trace <= w'.state.trace
  {
    hide IdOf;
  }

  lemma Looked(i: nat, job: Job, w: JobWorld)
    requires OnlyStrayFailed(i, job, w)
    ensures var w' := Check(ENDLESS, w).0;
            OnlyStrayFailed(i, job, w') && StatusOf(w'.state) == StatusOf(w.state) && w'.state == w.state
    ensures Check(ENDLESS, w).1 == None
  {
  }

  lemma NextMain(env: Environment, job: Job, k: nat, w: JobWorld)
    requires AllUsable(job) && k <= |job.steps|
    ensures var w1, r := Check(ENDLESS, w).0, RunMain(env, MainFrom(env, job, k), ENDLESS, w);
            if k == |job.steps| then r.0 == w1
            else r == RunMain(env, MainFrom(env, job, k + 1), ENDLESS, MainWrapper(env, job, k)(ENDLESS, w1).0)
  {
    hide MainWrapper, MainFrom;
    if k < |job.steps| { MainFromStep(env, job, k); }
  }

  /** From step k on, past a step with the failed step's id, nothing is failed in the end. */
  lemma {:induction false} FailureForgotten(i: nat, job: Job, k: nat, j: nat, w: JobWorld)
    requires StrayRuns(i, job) && AllUsable(job) && i < k <= |job.steps| && OnlyStrayFailed(i, job, w)
    requires (k <= j < |job.steps| && IdOf(job, j) == IdOf(job, i)) || StatusOf(w.state) == Success
    ensures var r := RunMain(StrayCancel(i), MainFrom(StrayCancel(i), job, k), ENDLESS, w).0;
            StatusOf(r.state) == Success && w.state.trace <= r.state.trace
    decreases |job.steps| - k
  {
    hide MainWrapper, IdOf, StatusOf, OnlyStrayFailed, StrayRuns, StrayCancel, RunMain, MainFrom, Check;
    var w1 := Check(ENDLESS, w).0;
    Looked(i, job, w);
    NextMain(StrayCancel(i), job, k, w);
    if k < |job.steps| {
      StepAfter(i, job, k, w1);
      var w2 := MainWrapper(StrayCancel(i), job, k)(ENDLESS, w1).0;
      FailureForgotten(i, job, k + 1, j, w2);
    }
  }

  /** Something started while the job counted as failed, and in the end it does not. */
  ghost predicate Forgets(w: JobWorld, r: JobWorld) {
    && StatusOf(r.state) == Success && w.state.trace <= r.state.trace
    && exists e | |w.state.trace| <= e < |r.state.trace| :: r.state.trace[e].status == Failure
  }

  lemma {:induction false} StrayForgotten(i: nat, job: Job, k: nat, j: nat, w: JobWorld)
    requires StrayRuns(i, job) && AllUsable(job) && k <= i < j < |job.steps| && IdOf(job, j) == IdOf(job, i)
    requires OnlyStrayFailed(i, job, w) && StatusOf(w.state) == Success
    ensures Forgets(w, RunMain(StrayCancel(i), MainFrom(StrayCancel(i), job, k), ENDLESS, w).0)
    decreases i - k
  {
    hide MainWrapper, IdOf, StrayCancel, StrayRuns, RunMain, MainFrom, Check;
    var env, w1 := StrayCancel(i), Check(ENDLESS, w).0;
    Looked(i, job, w);
    NextMain(env, job, k, w);
    QuietMain(i, job, k, w1);
    var w2 := MainWrapper(env, job, k)(ENDLESS, w1).0;
    if k < i {
      NoneFailed(i, job, k, w1, w2);
      StrayForgotten(i, job, k + 1, j, w2);
    } else {
      FailedNow(i, job, w1, w2);
      Looked(i, job, w2);
      var w3 := Check(ENDLESS, w2).0;
      NextMain(env, job, k + 1, w2);
      QuietMain(i, job, k + 1, w3);
      StepAfter(i, job, k + 1, w3);
      var w4 := MainWrapper(env, job, k + 1)(ENDLESS, w3).0;
      FailureForgotten(i, job, k + 2, j, w4);
    }
  }

  lemma FailedNow(i: nat, job: Job, w: JobWorld, w': JobWorld)
    requires i < |job.steps| && OnlyStrayFailed(i, job, w) && StatusOf(w.state) == Success
    requires SetsResult(IdOf(job, i), true, w, w')
    ensures OnlyStrayFailed(i, job, w') && StatusOf(w'.state) == Failure
  {
    hide IdOf;
  }

  const NOTHING_YET: JobWorld := World(0, State(false, false, map[], map[], []))

  /** With two steps of one id some run of the main steps forgets a failure. */
  lemma SharedIdForgetsFrom(job: Job, i: nat, j: nat, w: JobWorld)
    requires StrayRuns(i, job) && AllUsable(job) && i < j < |job.steps| && IdOf(job, i) == IdOf(job, j)
    requires Unflagged(w) && w.state.results == map[]
    ensures var r := RunMain(StrayCancel(i), MainExecutors(StrayCancel(i), job), ENDLESS, w).0;
            Forgets(w, r)
  {
    hide IdOf, StrayRuns, MainExecutors, MainFrom, RunMain, OnlyStrayFailed, StrayCancel, Quiet, StatusOf;
    var env := StrayCancel(i);
    var w2 := Quiet(env, MatrixLog)(ENDLESS, Check(ENDLESS, w).0).0;
    MatrixLogged(i, job, w);
    StrayForgotten(i, job, 0, j, w2);
    FirstExecutor(env, job, w);
    ForgetsLater(w, w2, RunMain(env, MainFrom(env, job, 0), ENDLESS, w2).0);
  }

  lemma MatrixLogged(i: nat, job: Job, w: JobWorld)
    requires i < |job.steps| && Unflagged(w) && w.state.results == map[]
    ensures var w2 := Quiet(StrayCancel(i), MatrixLog)(ENDLESS, Check(ENDLESS, w).0).0;
            OnlyStrayFailed(i, job, w2) && StatusOf(w2.state) == Success && w.state.trace <= w2.state.trace
  {
    hide IdOf, Act;
    QuietAct(i, MatrixLog, Check(ENDLESS, w).0);
  }

  lemma ForgetsLater(w: JobWorld, w2: JobWorld, r: JobWorld)
    requires w.state.trace <= w2.state.trace && Forgets(w2, r)
    ensures Forgets(w, r)
  {
  }

  /** So the status of those main steps does not only rise. */
  lemma SharedIdForgets(job: Job, i: nat, j: nat)
    requires StrayRuns(i, job) && AllUsable(job) && i < j < |job.steps| && IdOf(job, i) == IdOf(job, j)
    ensures var env := StrayCancel(i);
            !Rising(job, NOTHING_YET, RunMain(env, MainExecutors(env, job), ENDLESS, NOTHING_YET).0)
  {
    hide RunMain, MainExecutors, StrayRuns, IdOf;
    SharedIdForgetsFrom(job, i, j, NOTHING_YET);
  }

  lemma FirstExecutor(env: Environment, job: Job, w: JobWorld)
    requires AllUsable(job)
    ensures RunMain(env, MainExecutors(env, job), ENDLESS, w) ==
            RunMain(env, MainFrom(env, job, 0), ENDLESS, Quiet(env, MatrixLog)(ENDLESS, Check(ENDLESS, w).0).0)
  {
    hide MainWrapper;
  }

  // ---------------------------------------------------------------- before and after the main steps

  /** Nothing changes but the time and the trace, which grows. */
  predicate Undisturbed(w: JobWorld, w': JobWorld) {
    && w'.state.cancelled == w.state.cancelled && w'.state.failed == w.state.failed
    && w'.state.results == w.state.results && w.state.trace <= w'.state.trace
  }

  ghost predicate Undisturbing(e: JobExecutor) {
    forall w: JobWorld :: Undisturbed(w, e(ENDLESS, w).0) && e(ENDLESS, w).1 == None
  }

  lemma QuietExecutors(i: nat, a: Action, k: nat)
    requires !a.Body?
    ensures var env := StrayCancel(i);
            && Undisturbing(Act(env, a)) && Undisturbing(Quiet(env, a)) && Undisturbing(Reporting(env, a))
            && Undisturbing(PreWrapper(env, k)) && Undisturbing(PostWrapper(env, k))
  {
    hide Act;
    var env := StrayCancel(i);
    forall w: JobWorld
      ensures Undisturbed(w, Act(env, a)(ENDLESS, w).0) && Act(env, a)(ENDLESS, w).1 == None
      ensures Undisturbed(w, PreWrapper(env, k)(ENDLESS, w).0) && PreWrapper(env, k)(ENDLESS, w).1 == None
      ensures Undisturbed(w, PostWrapper(env, k)(ENDLESS, w).0) && PostWrapper(env, k)(ENDLESS, w).1 == None
    {
      QuietAct(i, a, w);
      QuietAct(i, Pre(k), w);
      QuietAct(i, Post(k), w);
    }
  }

  lemma {:induction false} QuietPipeline(es: seq<JobExecutor>, w: JobWorld)
    requires forall k | 0 <= k < |es| :: Undisturbing(es[k])
    ensures Undisturbed(w, RunPipeline(es, ENDLESS, w).0)
    decreases |es|
  {
    if es != [] {
      assert Undisturbing(es[0]);
      if |es| > 1 {
        assert forall k | 0 <= k < |es[1..]| :: es[1..][k] == es[k + 1];
        QuietPipeline(es[1..], Check(ENDLESS, es[0](ENDLESS, w).0).0);
      }
    }
  }

  lemma QuietPres(i: nat, job: Job)
    ensures var es := PreExecutors(StrayCancel(i), job);
            forall k | 0 <= k < |es| :: Undisturbing(es[k])
  {
    hide Undisturbing, StrayCancel;
    var es := PreExecutors(StrayCancel(i), job);
    QuietExecutors(i, Setup, 0);
    QuietExecutors(i, StartedHook, 0);
    QuietExecutors(i, PrepareActions, 0);
    QuietExecutors(i, CompleteName, 0);
    forall k | 0 <= k < |es| ensures Undisturbing(es[k]) {
      if 3 <= k < |es| - 1 {
        assert es[(k - 3) + 3] == PreWrapper(StrayCancel(i), k - 3);
        QuietExecutors(i, Setup, k - 3);
      }
    }
  }

  lemma {:induction false} QuietPosts(i: nat, n: nat, w: JobWorld)
    requires n > 0
    ensures Undisturbed(w, RunPosts(StrayCancel(i), n, ENDLESS, w).0)
  {
    hide StrayCancel, PostWrapper;
    QuietExecutors(i, Stop, n - 1);
    if n > 1 {
      QuietPosts(i, n - 1, PostWrapper(StrayCancel(i), n - 1)(ENDLESS, w).0);
    }
  }

  lemma QuietPostPart(i: nat, job: Job, w: JobWorld)
    requires |job.steps| > 0
    ensures Undisturbed(w, RunPostPart(StrayCancel(i), job, ENDLESS, w).0)
  {
    hide RunPosts, Act, Reporting;
    var env := StrayCancel(i);
    var (w2, postCtx) := BeforePosts(env, ENDLESS, w);
    assert postCtx == ENDLESS && Undisturbed(w, w2);
    QuietPosts(i, |job.steps|, w2);
    QuietExecutors(i, CompletedHook, 0);
    QuietExecutors(i, Stop, 0);
    var w4 := Reporting(env, CompletedHook)(ENDLESS, RunPosts(env, |job.steps|, ENDLESS, w2).0).0;
    assert Undisturbed(w, w4);
    assert Fresh(env, w4.now, 0) == ENDLESS;
  }

  lemma UndisturbedStatus(w: JobWorld, w': JobWorld)
    requires Undisturbed(w, w')
    ensures StatusOf(w'.state) == StatusOf(w.state)
  {
  }

  /** Nor does the status over a whole run. */
  lemma SharedIdForgetsRun(job: Job, i: nat, j: nat)
    requires StrayRuns(i, job) && AllUsable(job) && i < j < |job.steps| && IdOf(job, i) == IdOf(job, j)
    ensures !Rising(job, NOTHING_YET, RunJob(StrayCancel(i), job, ENDLESS, NOTHING_YET).0)
  {
    hide RunPipeline, RunMain, RunPostPart, Act, PreExecutors, MainExecutors, StrayRuns, IdOf, StatusOf,
      StrayCancel;
    var env, w := StrayCancel(i), NOTHING_YET;
    QuietExecutors(i, Start, 0);
    QuietExecutors(i, InterpolateOutputs, 0);
    QuietExecutors(i, Close, 0);
    var w1 := Check(ENDLESS, Act(env, Start)(ENDLESS, w).0).0;
    var w2 := RunPipeline(PreExecutors(env, job), ENDLESS, w1).0;
    QuietPres(i, job);
    QuietPipeline(PreExecutors(env, job), w1);
    var w3 := RunMain(env, MainExecutors(env, job), ENDLESS, w2).0;
    SharedIdForgetsFrom(job, i, j, w2);
    var w4 := RunPostPart(env, job, ENDLESS, w3).0;
    QuietPostPart(i, job, w3);
    var w5 := Act(env, InterpolateOutputs)(ENDLESS, w4).0;
    var w6 := Act(env, Close)(ENDLESS, w5).0;
    assert Undisturbed(w3, w6);
    UndisturbedStatus(w3, w6);
    assert w6 == RunStarted(env, job, ENDLESS, w1).0 == RunJob(env, job, ENDLESS, w).0;
    hide *;
    ForgottenIsNotRising(job, w, w2, w3, w6);
  }

  lemma ForgottenIsNotRising(job: Job, w: JobWorld, w2: JobWorld, w3: JobWorld, w6: JobWorld)
    requires w.state.trace <= w2.state.trace && Forgets(w2, w3) && w3.state.trace <= w6.state.trace
    requires StatusOf(w6.state) == StatusOf(w3.state)
    ensures !Rising(job, w, w6)
  {
    var e :| |w2.state.trace| <= e < |w3.state.trace| && w3.state.trace[e].status == Failure;
    assert w6.state.trace[e] == w3.state.trace[e];
  }

  // ---------------------------------------------------------------- distinct ids

  /** The status rises over the main steps of every run. */
  ghost predicate MainsRise(job: Job)
    requires AllUsable(job)
  {
    forall env, ctx, w: JobWorld | w.state.results == map[] ::
      Rising(job, w, RunMain(env, MainExecutors(env, job), ctx, w).0)
  }

  /** It rises over the whole of every run. */
  ghost predicate RunsRise(job: Job) {
    forall env, ctx, w: JobWorld | w.state.results == map[] :: Rising(job, w, RunJob(env, job, ctx, w).0)
  }

  /** Whether a condition holds while the job succeeds does not change over time. */
  ghost predicate SteadyAtSuccess(job: Job)
    requires AllUsable(job)
  {
    forall i, t, u | 0 <= i < |job.steps| ::
      job.steps[i].condition.value(Success, t) == job.steps[i].condition.value(Success, u)
  }

  /** Whatever its conditions, the status of a job rises when no step that can run while the job succeeds has
      a later step of its id. */
  lemma FailuresKeptRise(job: Job)
    requires AllUsable(job) && KeepsFailures(job)
    ensures MainsRise(job) && RunsRise(job)
  {
    hide RunMain, MainExecutors, RunJob, Rising, KeepsFailures, IdOf;
    forall env, ctx, w: JobWorld | w.state.results == map[]
      ensures Rising(job, w, RunMain(env, MainExecutors(env, job), ctx, w).0)
      ensures Rising(job, w, RunJob(env, job, ctx, w).0)
    {
      assert AnchoredResults(job, 0, w.state.results);
      MainsRising(env, job, ctx, w);
      StatusOnlyRises(env, job, ctx, w);
    }
  }

  /** And for conditions that can be evaluated and are steady at success, it rises in every run, and over the
      main steps of every run, only then. */
  lemma RisesIffFailuresKept(job: Job)
    requires AllUsable(job) && AllEvaluable(job) && SteadyAtSuccess(job)
    ensures MainsRise(job) <==> KeepsFailures(job)
    ensures RunsRise(job) <==> KeepsFailures(job)
  {
    if KeepsFailures(job) {
      FailuresKeptRise(job);
    } else {
      var i, j :| 0 <= i < j < |job.steps| && IdOf(job, i) == IdOf(job, j) && !NeverAtSuccess(job.steps[i].condition);
      SteadyHolds(job, i);
      hide RunMain, MainExecutors, RunJob, Rising, IdOf, StrayRuns;
      SharedIdForgets(job, i, j);
      SharedIdForgetsRun(job, i, j);
    }
  }

  lemma SteadyHolds(job: Job, i: nat)
    requires AllUsable(job) && AllEvaluable(job) && SteadyAtSuccess(job)
    requires i < |job.steps| && !NeverAtSuccess(job.steps[i].condition)
    ensures StrayRuns(i, job)
  {
    var c := job.steps[i].condition;
    var t :| c.value(Success, t) == Some(true);
    forall now ensures c.value(Success, now) == Some(true) {
      assert c.value(Success, now) == c.value(Success, t);
    }
  }

  /** Where every step runs while the job succeeds, that is that the ids are distinct. */
  lemma RisesIffDistinctIds(job: Job)
    requires AllUsable(job) && AllEvaluable(job)
    requires forall i | 0 <= i < |job.steps| :: AlwaysAtSuccess(job.steps[i].condition)
    ensures MainsRise(job) <==> DistinctIds(job)
    ensures RunsRise(job) <==> DistinctIds(job)
  {
    hide IdOf, MainsRise, RunsRise;
    assert forall i | 0 <= i < |job.steps| :: job.steps[i].condition.value(Success, 0) == Some(true);
    RisesIffFailuresKept(job);
  }

  /** A step that runs on failure only may share its id with a later step. */
  lemma FailureStepMayShare(first: Condition, cleanup: Condition)
    requires NeverAtSuccess(cleanup)
    ensures var job := Job([Step("a", first, false), Step("b", cleanup, false), Step("b", first, false)], true);
            !DistinctIds(job) && MainsRise(job) && RunsRise(job)
  {
    var job := Job([Step("a", first, false), Step("b", cleanup, false), Step("b", first, false)], true);
    assert IdOf(job, 0) == "a" && IdOf(job, 1) == "b" == IdOf(job, 2);
    assert "a"[0] != "b"[0];
    FailuresKeptRise(job);
  }

  /** The step has an id of its own. */
  predicate HasId(job: Job, i: nat)
    requires i < |job.steps|
  {
    job.steps[i].Step? && job.steps[i].id != ""
  }

  /** Ids are distinct exactly when those given are, and none is the index that stands for another's. */
  lemma DistinctIdsSpelledOut(job: Job)
    ensures DistinctIds(job) <==>
            && (forall i, j | 0 <= i < j < |job.steps| && HasId(job, i) && HasId(job, j) ::
                  job.steps[i].id != job.steps[j].id)
            && (forall i, j | 0 <= i < |job.steps| && 0 <= j < |job.steps| && HasId(job, i) && !HasId(job, j) ::
                  job.steps[i].id != Decimal(j))
  {
    hide Decimal;
    assert forall i | 0 <= i < |job.steps| :: IdOf(job, i) == if HasId(job, i) then job.steps[i].id else Decimal(i);
    if DistinctIds(job) {
      forall i, j | 0 <= i < |job.steps| && 0 <= j < |job.steps| && HasId(job, i) && !HasId(job, j)
        ensures IdOf(job, i) != IdOf(job, j)
      {
        assert i < j || j < i;
      }
      forall i, j | 0 <= i < j < |job.steps| && HasId(job, i) && HasId(job, j)
        ensures job.steps[i].id != job.steps[j].id
      {
        assert IdOf(job, i) != IdOf(job, j);
      }
    } else {
      var i, j :| 0 <= i < j < |job.steps| && IdOf(job, i) == IdOf(job, j);
      if !HasId(job, i) && !HasId(job, j) { DecimalInjective(i, j); }
    }
  }

  /** An id given to one step can be the index that stands for another's. */
  lemma IndexClash(c: Condition)
    ensures !DistinctIds(Job([Step("1", c, false), Step("", c, false)], true))
  {
    var job := Job([Step("1", c, false), Step("", c, false)], true);
    assert IdOf(job, 0) == "1" == IdOf(job, 1);
  }
}
