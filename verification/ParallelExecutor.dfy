/** The parallel executor: a work channel, workers, an error channel and a collector, as a state
    machine whose steps are those of the goroutines, in any interleaving. */
module ParallelExecutor {
  import opened Basics
  import opened Executors

  datatype Worker =
    | Ready                                  // at the top of its loop
    | Running(task: nat)                     // inside an executor
    | Reporting(task: nat, outcome: Option<Error>)  // about to send its outcome
    | Finished

  datatype Report = Report(task: nat, outcome: Option<Error>)

  datatype Phase = Sending | Collecting | Returned(result: Option<Error>)

  /** n executors are sent in order: `sent` of them so far. `ran` and `outcomes` record, in order, the
      executors that were started and the reports that were collected. */
  datatype State = State(n: nat, sent: nat, queue: seq<nat>, closed: bool, workers: seq<Worker>,
                         reports: seq<Report>, phase: Phase, firstErr: Option<Error>, ctx: Option<ContextError>,
                         ran: seq<nat>, collected: seq<Report>)

  /** Both channels have room for every executor. */
  function Capacity(s: State): nat {
    s.n
  }

  function WorkerCount(parallel: int): nat {
    if 1 > parallel then 1 else parallel
  }

  function Init(parallel: int, n: nat, ctx: Option<ContextError>): State
    requires n > 0
  {
    State(n, 0, [], false, seq(WorkerCount(parallel), _ => Ready), [], Sending, None, ctx, [], [])
  }

  /** The steps of the program, and the environment cancelling the context. */
  datatype Step =
    | Send
    | Close
    | Take(w: nat)
    | Complete(w: nat, outcome: Option<Error>)  // the executor returns, or panics and is recovered
    | SendReport(w: nat)
    | Exit(w: nat)
    | Collect
    | Finish
    | Cancel(err: ContextError)

  predicate Enabled(s: State, step: Step) {
    match step
    case Send => s.phase == Sending && s.sent < s.n && |s.queue| < Capacity(s)
    case Close => s.phase == Sending && s.sent == s.n
    case Take(w) => w < |s.workers| && s.workers[w] == Ready && s.queue != []
    case Complete(w, _) => w < |s.workers| && s.workers[w].Running?
    case SendReport(w) => w < |s.workers| && s.workers[w].Reporting? && |s.reports| < Capacity(s)
    case Exit(w) => w < |s.workers| && s.workers[w] == Ready && s.queue == [] && s.closed
    case Collect => s.phase == Collecting && |s.collected| < s.n && s.reports != []
    case Finish => s.phase == Collecting && |s.collected| == s.n
    case Cancel(_) => s.ctx == None
  }

  function Next(s: State, step: Step): State
    requires Enabled(s, step)
  {
    match step
    case Send => s.(queue := s.queue + [s.sent], sent := s.sent + 1)
    case Close => s.(closed := true, phase := Collecting)
    case Take(w) =>
      s.(workers := s.workers[w := Running(s.queue[0])], queue := s.queue[1..], ran := s.ran + [s.queue[0]])
    case Complete(w, outcome) => s.(workers := s.workers[w := Reporting(s.workers[w].task, outcome)])
    case SendReport(w) =>
      s.(workers := s.workers[w := Ready], reports := s.reports + [Report(s.workers[w].task, s.workers[w].outcome)])
    case Exit(w) => s.(workers := s.workers[w := Finished])
    case Collect =>
      s.(reports := s.reports[1..], collected := s.collected + [s.reports[0]],
         firstErr := if s.firstErr == None then s.reports[0].outcome else s.firstErr)
    case Finish => s.(phase := Returned(if s.ctx.Some? then Some(Interrupted(s.ctx.value)) else s.firstErr))
    case Cancel(err) => s.(ctx := Some(err))
  }

  predicate IsProgramStep(step: Step) {
    !step.Cancel?
  }

  // ---------------------------------------------------------------- counting workers

  predicate Busy(w: Worker) {
    w.Running? || w.Reporting?
  }

  function BusyCount(ws: seq<Worker>): (n: nat)
    ensures n <= |ws|
    ensures n == 0 <==> forall i | 0 <= i < |ws| :: !Busy(ws[i])
  {
    if ws == [] then 0 else (if Busy(ws[0]) then 1 else 0) + BusyCount(ws[1..])
  }

  function RunningCount(ws: seq<Worker>): (n: nat)
    ensures n <= |ws|
  {
    if ws == [] then 0 else (if ws[0].Running? then 1 else 0) + RunningCount(ws[1..])
  }

  /** Steps a worker has to go before it is finished, if it takes no further executor. */
  function Left(w: Worker): nat {
    match w
    case Finished => 0
    case Ready => 1
    case Reporting(_, _) => 3
    case Running(_) => 4
  }

  function LeftSum(ws: seq<Worker>): nat {
    if ws == [] then 0 else Left(ws[0]) + LeftSum(ws[1..])
  }

  lemma {:induction false} UpdateCounts(ws: seq<Worker>, i: nat, w: Worker)
    requires i < |ws|
    ensures BusyCount(ws[i := w]) == BusyCount(ws) - (if Busy(ws[i]) then 1 else 0) + (if Busy(w) then 1 else 0)
    ensures LeftSum(ws[i := w]) == LeftSum(ws) - Left(ws[i]) + Left(w)
  {
    if i == 0 {
      assert ws[0 := w][1..] == ws[1..];
    } else {
      assert ws[i := w][1..] == ws[1..][i - 1 := w];
      UpdateCounts(ws[1..], i - 1, w);
    }
  }

  lemma {:induction false} ReadyCounts(k: nat)
    ensures BusyCount(seq(k, _ => Ready)) == 0 && LeftSum(seq(k, _ => Ready)) == k
  {
    if k > 0 {
      assert seq(k, _ => Ready)[1..] == seq(k - 1, _ => Ready);
      ReadyCounts(k - 1);
    }
  }

  // ---------------------------------------------------------------- the invariant

  function Range(k: nat): (r: seq<nat>)
    ensures |r| == k && forall i | 0 <= i < k :: r[i] == i
  {
    seq(k, i => i)
  }

  /** The first error among the collected outcomes. */
  function FirstError(collected: seq<Report>): (e: Option<Error>)
    ensures e == None <==> forall r | r in collected :: r.outcome == None
  {
    if collected == [] then None
    else
      var init, last := collected[..|collected| - 1], collected[|collected| - 1];
      assert collected == init + [last];
      if FirstError(init) != None then FirstError(init) else last.outcome
  }

  /** All reports so far, those collected first. */
  function Reports(s: State): seq<Report> {
    s.collected + s.reports
  }

  ghost predicate IsReported(rs: seq<Report>, t: nat) {
    exists i | 0 <= i < |rs| :: rs[i].task == t
  }

  ghost predicate IsHeld(ws: seq<Worker>, t: nat) {
    exists w | 0 <= w < |ws| :: Busy(ws[w]) && ws[w].task == t
  }

  /** No task is in two hands: workers hold distinct tasks, reports are of distinct tasks, and no task
      is both held and reported. */
  ghost predicate Exclusive(ws: seq<Worker>, rs: seq<Report>) {
    && (forall i, j | 0 <= i < j < |rs| :: rs[i].task != rs[j].task)
    && (forall v, w | 0 <= v < w < |ws| && Busy(ws[v]) && Busy(ws[w]) :: ws[v].task != ws[w].task)
    && (forall w, i | 0 <= w < |ws| && Busy(ws[w]) && 0 <= i < |rs| :: ws[w].task != rs[i].task)
  }

  /** Of the k started tasks each is held or reported, and no other task is. */
  ghost predicate Accounted(ws: seq<Worker>, rs: seq<Report>, k: nat) {
    && (forall t: nat | t < k :: IsHeld(ws, t) || IsReported(rs, t))
    && (forall w | 0 <= w < |ws| && Busy(ws[w]) :: ws[w].task < k)
    && (forall i | 0 <= i < |rs| :: rs[i].task < k)
  }

  ghost predicate Hands(ws: seq<Worker>, rs: seq<Report>, k: nat) {
    Exclusive(ws, rs) && Accounted(ws, rs, k)
  }

  lemma HeldElsewhere(ws: seq<Worker>, w: nat, x: Worker, t: nat)
    requires w < |ws| && IsHeld(ws, t) && !(Busy(ws[w]) && ws[w].task == t)
    ensures IsHeld(ws[w := x], t)
  {
    var v :| 0 <= v < |ws| && Busy(ws[v]) && ws[v].task == t;
    assert ws[w := x][v] == ws[v];
  }

  lemma TakeHands(ws: seq<Worker>, rs: seq<Report>, k: nat, w: nat)
    requires Hands(ws, rs, k) && w < |ws| && ws[w] == Ready
    ensures Hands(ws[w := Running(k)], rs, k + 1)
  {
    var ws' := ws[w := Running(k)];
    forall t: nat | t < k + 1 ensures IsHeld(ws', t) || IsReported(rs, t) {
      if t == k {
        assert Busy(ws'[w]) && ws'[w].task == t;
      } else if IsHeld(ws, t) {
        HeldElsewhere(ws, w, Running(k), t);
      }
    }
  }

  lemma CompleteHands(ws: seq<Worker>, rs: seq<Report>, k: nat, w: nat, outcome: Option<Error>)
    requires Hands(ws, rs, k) && w < |ws| && ws[w].Running?
    ensures Hands(ws[w := Reporting(ws[w].task, outcome)], rs, k)
  {
    var ws' := ws[w := Reporting(ws[w].task, outcome)];
    forall t: nat | t < k && IsHeld(ws, t) ensures IsHeld(ws', t) {
      if ws[w].task == t {
        assert Busy(ws'[w]) && ws'[w].task == t;
      } else {
        HeldElsewhere(ws, w, ws'[w], t);
      }
    }
  }

  lemma ReportHands(ws: seq<Worker>, rs: seq<Report>, k: nat, w: nat)
    requires Hands(ws, rs, k) && w < |ws| && ws[w].Reporting?
    ensures Hands(ws[w := Ready], rs + [Report(ws[w].task, ws[w].outcome)], k)
  {
    var ws', rs' := ws[w := Ready], rs + [Report(ws[w].task, ws[w].outcome)];
    forall t: nat | t < k ensures IsHeld(ws', t) || IsReported(rs', t) {
      if ws[w].task == t {
        assert rs'[|rs|].task == t;
      } else if IsHeld(ws, t) {
        HeldElsewhere(ws, w, Ready, t);
      } else {
        var i :| 0 <= i < |rs| && rs[i].task == t;
        assert rs'[i].task == t;
      }
    }
  }

  lemma IdleHands(ws: seq<Worker>, rs: seq<Report>, k: nat, w: nat)
    requires Hands(ws, rs, k) && w < |ws| && ws[w] == Ready
    ensures Hands(ws[w := Finished], rs, k)
  {
    forall t: nat | t < k && IsHeld(ws, t) ensures IsHeld(ws[w := Finished], t) {
      HeldElsewhere(ws, w, Finished, t);
    }
  }

  /** Queued, running, reported and collected executors add up to those that were sent. */
  predicate Conserved(s: State) {
    && |s.queue| + BusyCount(s.workers) + |s.reports| + |s.collected| == s.sent
    && |s.ran| == BusyCount(s.workers) + |s.reports| + |s.collected|
  }

  ghost predicate Inv(s: State) {
    && s.n > 0 && s.workers != []
    && s.sent <= s.n
    && s.ran + s.queue == Range(s.sent)
    && (s.closed <==> s.phase != Sending) && (s.closed ==> s.sent == s.n)
    && (forall w | 0 <= w < |s.workers| && s.workers[w] == Finished :: s.closed && s.queue == [])
    && Conserved(s)
    && s.firstErr == FirstError(s.collected)
    && (s.phase.Returned? ==> |s.collected| == s.n)
    && Hands(s.workers, Reports(s), |s.ran|)
  }

  lemma InitInv(parallel: int, n: nat, ctx: Option<ContextError>)
    requires n > 0
    ensures Inv(Init(parallel, n, ctx))
  {
    ReadyCounts(WorkerCount(parallel));
  }

  /** The next executor to be taken is the first not yet started. */
  lemma QueueHead(s: State)
    requires Inv(s) && s.queue != []
    ensures s.queue[0] == |s.ran|
  {
    assert (s.ran + s.queue)[|s.ran|] == s.queue[0];
  }

  lemma StepHands(s: State, step: Step)
    requires Inv(s) && Enabled(s, step)
    ensures Hands(Next(s, step).workers, Reports(Next(s, step)), |Next(s, step).ran|)
  {
    var s' := Next(s, step);
    hide Hands;
    match step {
      case Take(w) =>
        QueueHead(s);
        TakeHands(s.workers, Reports(s), |s.ran|, w);
      case Complete(w, outcome) =>
        CompleteHands(s.workers, Reports(s), |s.ran|, w, outcome);
      case SendReport(w) =>
        ReportHands(s.workers, Reports(s), |s.ran|, w);
        assert Reports(s') == Reports(s) + [Report(s.workers[w].task, s.workers[w].outcome)];
      case Exit(w) =>
        IdleHands(s.workers, Reports(s), |s.ran|, w);
      case Collect =>
        assert Reports(s') == Reports(s);
      case _ =>
    }
  }

  lemma StepQueue(s: State, step: Step)
    requires Inv(s) && Enabled(s, step)
    ensures Next(s, step).ran + Next(s, step).queue == Range(Next(s, step).sent)
  {
    if step == Send {
      assert s.ran + (s.queue + [s.sent]) == (s.ran + s.queue) + [s.sent] == Range(s.sent + 1);
    } else if step.Take? {
      assert s.ran + [s.queue[0]] + s.queue[1..] == s.ran + s.queue;
    }
  }

  lemma StepFirstError(s: State, step: Step)
    requires Inv(s) && Enabled(s, step)
    ensures Next(s, step).firstErr == FirstError(Next(s, step).collected)
  {
    if step == Collect {
      var c := s.collected + [s.reports[0]];
      assert c[..|c| - 1] == s.collected;
    }
  }

  lemma StepConserved(s: State, step: Step)
    requires Inv(s) && Enabled(s, step)
    ensures Conserved(Next(s, step))
  {
    hide Hands, FirstError;
    if step.Take? || step.Complete? || step.SendReport? || step.Exit? {
      UpdateCounts(s.workers, step.w, Next(s, step).workers[step.w]);
    }
  }

  /** Every step, of any goroutine or of the environment, keeps the invariant. */
  lemma StepInv(s: State, step: Step)
    requires Inv(s) && Enabled(s, step)
    ensures Inv(Next(s, step))
  {
    StepHands(s, step);
    StepQueue(s, step);
    StepFirstError(s, step);
    StepConserved(s, step);
    hide Hands, FirstError, Conserved;
  }

  // ---------------------------------------------------------------- what holds in every reachable state

  /** No channel send ever blocks. */
  lemma SendsNeverBlock(s: State)
    requires Inv(s)
    ensures s.phase == Sending && s.sent < s.n ==> Enabled(s, Send)
    ensures forall w | 0 <= w < |s.workers| && s.workers[w].Reporting? :: Enabled(s, SendReport(w))
  {
    forall w | 0 <= w < |s.workers| && s.workers[w].Reporting? ensures Enabled(s, SendReport(w)) {
      assert Busy(s.workers[w]);
    }
  }

  /** Until the call returns, some goroutine can move, an executor being able to return. */
  lemma NoDeadlock(s: State)
    requires Inv(s) && !s.phase.Returned?
    ensures exists step :: IsProgramStep(step) && Enabled(s, step)
  {
    SendsNeverBlock(s);
    if s.phase == Sending {
      var step := if s.sent < s.n then Send else Close;
      assert IsProgramStep(step) && Enabled(s, step);
    } else if |s.collected| == s.n {
      assert Enabled(s, Finish) && IsProgramStep(Finish);
    } else if s.reports != [] {
      assert Enabled(s, Collect) && IsProgramStep(Collect);
    } else if BusyCount(s.workers) > 0 {
      var w :| 0 <= w < |s.workers| && Busy(s.workers[w]);
      var step := if s.workers[w].Running? then Complete(w, None) else SendReport(w);
      assert IsProgramStep(step) && Enabled(s, step);
    } else {
      assert !Busy(s.workers[0]) && s.queue != [];
      var step := Take(0);
      assert IsProgramStep(step) && Enabled(s, step);
    }
  }

  /** At most max(1, parallel) executors run at a time. */
  lemma {:induction false} RunningBounded(ws: seq<Worker>)
    ensures RunningCount(ws) <= BusyCount(ws) <= |ws|
  {
    if ws != [] {
      RunningBounded(ws[1..]);
    }
  }

  // ---------------------------------------------------------------- termination

  /** The number of program steps still to come. */
  function StepsLeft(s: State): int {
    5 * (s.n - s.sent) + 4 * |s.queue| + LeftSum(s.workers) + |s.reports| +
    (match s.phase case Sending => 2 case Collecting => 1 case Returned(_) => 0)
  }

  /** Every program step, whoever takes it, leaves exactly one fewer to go. */
  lemma StepsCountDown(s: State, step: Step)
    requires Inv(s) && Enabled(s, step)
    ensures StepsLeft(Next(s, step)) == StepsLeft(s) - (if IsProgramStep(step) then 1 else 0)
  {
    hide Hands, FirstError;
    if step.Take? || step.Complete? || step.SendReport? || step.Exit? {
      UpdateCounts(s.workers, step.w, Next(s, step).workers[step.w]);
    }
  }

  // ---------------------------------------------------------------- runs

  predicate IsRun(s: State, steps: seq<Step>)
    decreases |steps|
  {
    steps == [] || (Enabled(s, steps[0]) && IsRun(Next(s, steps[0]), steps[1..]))
  }

  function After(s: State, steps: seq<Step>): State
    requires IsRun(s, steps)
    decreases |steps|
  {
    if steps == [] then s else After(Next(s, steps[0]), steps[1..])
  }

  function ProgramSteps(steps: seq<Step>): nat {
    if steps == [] then 0 else (if IsProgramStep(steps[0]) then 1 else 0) + ProgramSteps(steps[1..])
  }

  lemma StepKeepsCounts(s: State, step: Step)
    requires Enabled(s, step)
    ensures Next(s, step).n == s.n && |Next(s, step).workers| == |s.workers|
  {
  }

  lemma {:induction false} RunInv(s: State, steps: seq<Step>)
    requires Inv(s) && IsRun(s, steps)
    ensures Inv(After(s, steps))
    ensures After(s, steps).n == s.n && |After(s, steps).workers| == |s.workers|
    ensures ProgramSteps(steps) + StepsLeft(After(s, steps)) == StepsLeft(s)
    decreases |steps|
  {
    if steps != [] {
      hide Inv, StepsLeft, Enabled;
      StepInv(s, steps[0]);
      StepsCountDown(s, steps[0]);
      StepKeepsCounts(s, steps[0]);
      hide Next;
      RunInv(Next(s, steps[0]), steps[1..]);
    }
  }

  /** Over every interleaving: the program takes at most 5n + 2 + max(1, parallel) steps; until it has
      returned it can take another; the executors started are the first ones, each once and in order;
      and no more than max(1, parallel) run at once. */
  lemma EveryRun(parallel: int, n: nat, ctx: Option<ContextError>, steps: seq<Step>)
    requires n > 0 && IsRun(Init(parallel, n, ctx), steps)
    ensures var s := After(Init(parallel, n, ctx), steps);
            && ProgramSteps(steps) <= 5 * n + 2 + WorkerCount(parallel)
            && (!s.phase.Returned? ==> exists step :: IsProgramStep(step) && Enabled(s, step))
            && s.ran == Range(|s.ran|) && |s.ran| <= n
            && RunningCount(s.workers) <= WorkerCount(parallel)
            && Conserved(s)
  {
    hide After, IsRun, Enabled;
    var s0 := Init(parallel, n, ctx);
    InitInv(parallel, n, ctx);
    ReadyCounts(WorkerCount(parallel));
    RunInv(s0, steps);
    var s := After(s0, steps);
    if !s.phase.Returned? {
      NoDeadlock(s);
    }
    RunningBounded(s.workers);
    StartedInOrder(s);
  }

  lemma StartedInOrder(s: State)
    requires Inv(s)
    ensures s.ran == Range(|s.ran|) && |s.ran| <= s.n && Conserved(s)
  {
    forall i | 0 <= i < |s.ran| ensures s.ran[i] == i {
      assert (s.ran + s.queue)[i] == s.ran[i];
    }
  }

  /** t was reported exactly once among the collected reports, with this outcome. */
  ghost predicate ReportedOnce(s: State, t: nat, outcome: Option<Error>) {
    exists i | 0 <= i < |s.collected| ::
      && s.collected[i] == Report(t, outcome)
      && forall j | 0 <= j < |s.collected| && s.collected[j].task == t :: j == i
  }

  ghost predicate HasReported(s: State, t: nat) {
    exists outcome :: ReportedOnce(s, t, outcome)
  }

  lemma AllReported(s: State)
    requires Inv(s) && |s.collected| == s.n
    ensures s.ran == Range(s.n) && s.queue == []
    ensures forall t: nat | t < s.n :: HasReported(s, t)
    ensures forall r | r in s.collected :: r.task < s.n
  {
    assert s.sent == s.n && s.queue == [] && s.reports == [] && BusyCount(s.workers) == 0;
    assert Reports(s) == s.collected;
    assert s.ran + [] == s.ran;
    forall t: nat | t < s.n ensures HasReported(s, t) {
      assert IsReported(s.collected, t);
      var i :| 0 <= i < |s.collected| && s.collected[i].task == t;
      assert ReportedOnce(s, t, s.collected[i].outcome);
    }
  }

  /** A whole call, over every interleaving: when it is about to return, every executor has been started
      exactly once and has reported exactly once, and it returns nil exactly when every executor's
      outcome is nil and the context is live; else the context's error or the first one collected. */
  lemma WholeCall(parallel: int, n: nat, ctx: Option<ContextError>, steps: seq<Step>)
    requires n > 0 && IsRun(Init(parallel, n, ctx), steps)
    requires Enabled(After(Init(parallel, n, ctx), steps), Finish)
    ensures var s := After(Init(parallel, n, ctx), steps);
            var result := Next(s, Finish).phase.result;
            && s.ran == Range(n)
            && (forall t: nat | t < n :: HasReported(s, t))
            && (result == None <==> s.ctx == None && forall t: nat | t < n :: ReportedOnce(s, t, None))
            && (s.ctx.Some? ==> result == Some(Interrupted(s.ctx.value)))
            && (s.ctx == None ==> result == FirstError(s.collected))
  {
    hide Inv, IsRun, After, StepsLeft, FirstError;
    InitInv(parallel, n, ctx);
    RunInv(Init(parallel, n, ctx), steps);
    var s := After(Init(parallel, n, ctx), steps);
    AllReported(s);
    FirstErrorKept(s);
    NilOutcomes(s);
  }

  lemma FirstErrorKept(s: State)
    requires Inv(s)
    ensures s.firstErr == FirstError(s.collected)
    ensures FirstError(s.collected) == None <==> forall r | r in s.collected :: r.outcome == None
  {
  }

  /** Every executor reported nil exactly when every report is. */
  lemma NilOutcomes(s: State)
    requires Inv(s) && |s.collected| == s.n
    ensures (forall t: nat | t < s.n :: ReportedOnce(s, t, None)) <==> forall r | r in s.collected :: r.outcome == None
  {
    AllReported(s);
    hide Inv;
    if forall t: nat | t < s.n :: ReportedOnce(s, t, None) {
      forall r | r in s.collected ensures r.outcome == None {
        var j :| 0 <= j < |s.collected| && s.collected[j] == r;
        assert ReportedOnce(s, r.task, None);
      }
    }
    if forall r | r in s.collected :: r.outcome == None {
      forall t: nat | t < s.n ensures ReportedOnce(s, t, None) {
        assert HasReported(s, t);
        var outcome :| ReportedOnce(s, t, outcome);
        assert Report(t, outcome) in s.collected;
      }
    }
  }

  lemma {:induction false} RunSnoc(s: State, steps: seq<Step>, step: Step)
    requires IsRun(s, steps) && Enabled(After(s, steps), step)
    ensures IsRun(s, steps + [step]) && After(s, steps + [step]) == Next(After(s, steps), step)
    decreases |steps|
  {
    if steps == [] {
      assert steps + [step] == [step] && [step][1..] == [];
    } else {
      assert (steps + [step])[1..] == steps[1..] + [step];
      RunSnoc(Next(s, steps[0]), steps[1..], step);
    }
  }

  /** A scheduler chooses the next step by all the steps so far, and only an enabled one. */
  ghost predicate IsScheduler(parallel: int, n: nat, ctx: Option<ContextError>, schedule: seq<Step> -> Step)
    requires n > 0
  {
    var s0 := Init(parallel, n, ctx);
    forall steps | IsRun(s0, steps) && !After(s0, steps).phase.Returned? :: Enabled(After(s0, steps), schedule(steps))
  }

  /** The result a call that has come to an end must give. */
  ghost predicate IsResult(s: State, result: Option<Error>) {
    && (result == None <==> s.ctx == None && forall t: nat | t < s.n :: ReportedOnce(s, t, None))
    && (s.ctx.Some? ==> result == Some(Interrupted(s.ctx.value)))
    && (s.ctx == None ==> result == FirstError(s.collected))
  }

  lemma FinishGivesResult(parallel: int, n: nat, ctx: Option<ContextError>, steps: seq<Step>)
    requires n > 0 && IsRun(Init(parallel, n, ctx), steps)
    requires Enabled(After(Init(parallel, n, ctx), steps), Finish)
    ensures var s := Next(After(Init(parallel, n, ctx), steps), Finish);
            s.phase.Returned? && IsResult(s, s.phase.result)
  {
    hide FirstError, IsRun, After;
    var s := After(Init(parallel, n, ctx), steps);
    WholeCall(parallel, n, ctx, steps);
    InitInv(parallel, n, ctx);
    RunInv(Init(parallel, n, ctx), steps);
    forall t: nat, outcome ensures ReportedOnce(Next(s, Finish), t, outcome) <==> ReportedOnce(s, t, outcome) {
      SameReports(s, t, outcome);
    }
  }

  lemma SameReports(s: State, t: nat, outcome: Option<Error>)
    requires Enabled(s, Finish)
    ensures ReportedOnce(Next(s, Finish), t, outcome) <==> ReportedOnce(s, t, outcome)
  {
    assert Next(s, Finish).collected == s.collected;
  }

  /** Only finishing returns. */
  lemma OnlyFinishReturns(s: State, step: Step)
    requires Enabled(s, step) && !s.phase.Returned?
    ensures Next(s, step).phase.Returned? ==> step == Finish
  {
  }

  /** The executor under any scheduler: it returns, every executor has run and reported once, and the
      result is nil exactly when all outcomes are and the context is live. */
  method Execute(parallel: int, n: nat, ctx: Option<ContextError>, schedule: seq<Step> -> Step)
      returns (steps: seq<Step>, s: State, result: Option<Error>)
    requires n > 0 && IsScheduler(parallel, n, ctx, schedule)
    ensures IsRun(Init(parallel, n, ctx), steps) && s == After(Init(parallel, n, ctx), steps)
    ensures s.phase == Returned(result) && s.n == n
    ensures s.ran == Range(n) && forall t: nat | t < n :: HasReported(s, t)
    ensures IsResult(s, result)
  {
    hide Enabled, Next, Inv, IsResult, StepsLeft;
    ghost var s0 := Init(parallel, n, ctx);
    s, steps := Init(parallel, n, ctx), [];
    InitInv(parallel, n, ctx);
    while !s.phase.Returned?
      invariant IsRun(s0, steps) && s == After(s0, steps)
      invariant Inv(s) && s.n == n
      invariant s.phase.Returned? ==> IsResult(s, s.phase.result) && |s.collected| == s.n
      decreases StepsLeft(s), if s.ctx == None then 1 else 0
    {
      var step := schedule(steps);
      StepInv(s, step);
      StepsCountDown(s, step);
      OnlyFinishReturns(s, step);
      RunSnoc(s0, steps, step);
      if step == Finish { FinishGivesResult(parallel, n, ctx, steps); }
      StepDown(s, step);
      s := Next(s, step);
      steps := steps + [step];
    }
    AllReported(s);
    result := s.phase.result;
  }

  /** A step counts down, or cancels a live context; and a call returns with every report collected. */
  lemma StepDown(s: State, step: Step)
    requires Inv(s) && Enabled(s, step) && !s.phase.Returned?
    ensures var s' := Next(s, step);
            && s'.n == s.n
            && (step.Cancel? ==> s.ctx == None && s'.ctx != None)
            && StepsLeft(s') >= 0
            && (s'.phase.Returned? ==> |s'.collected| == s'.n)
  {
    StepInv(s, step);
  }
}
