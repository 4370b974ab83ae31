/** What a step's output comes to, told from the commands it holds outside stopped regions. */
module OutputEffects {
  import opened Basics
  import opened Commands
  import opened LineWriting
  import opened Output

  /** The commands that the lines are received as, in order. */
  function Issued(lines: seq<string>): seq<Command> {
    if lines == [] then []
    else Issued(lines[..|lines| - 1]) + match Received(lines[|lines| - 1]) case Some(c) => [c] case None => []
  }

  /** One after the other. */
  function After(cfg: Settings, e: Effects, cmds: seq<Command>): Effects {
    if cmds == [] then e else Perform(cfg, After(cfg, e, cmds[..|cmds| - 1]), cmds[|cmds| - 1])
  }

  lemma {:induction false} PerformAllSnoc(cfg: Settings, e: Effects, lines: seq<string>, line: string)
    ensures PerformAll(cfg, e, lines + [line]) ==
            match Received(line)
            case Some(c) => Perform(cfg, PerformAll(cfg, e, lines), c)
            case None => PerformAll(cfg, e, lines)
    decreases |lines|
  {
    hide Received, Perform;
    if lines == [] {
      assert [] + [line] == [line];
    } else {
      assert (lines + [line])[1..] == lines[1..] + [line];
      var next := match Received(lines[0]) case Some(c) => Perform(cfg, e, c) case None => e;
      PerformAllSnoc(cfg, next, lines[1..], line);
    }
  }

  lemma {:induction false} PerformAllIsAfter(cfg: Settings, e: Effects, lines: seq<string>)
    ensures PerformAll(cfg, e, lines) == After(cfg, e, Issued(lines))
  {
    if lines != [] {
      var init, last := lines[..|lines| - 1], lines[|lines| - 1];
      hide Received, Perform, PerformAll;
      assert lines == init + [last];
      PerformAllIsAfter(cfg, e, init);
      PerformAllSnoc(cfg, e, init, last);
      match Received(last) {
        case Some(c) => assert (Issued(init) + [c])[..|Issued(init)|] == Issued(init);
        case None => assert Issued(init) + [] == Issued(init);
      }
    }
  }

  /** The property `name` of a command. */
  function NameOfCommand(c: Command): string {
    if "name" in c.properties then c.properties["name"] else ""
  }

  // ---------------------------------------------------------------- what is set

  /** A place that holds a value: a variable of either environment, an output or a state value of a step. */
  datatype Slot =
    | EnvVar(key: string)
    | GlobalVar(key: string)
    | OutputOf(step: string, name: string)
    | StateOf(step: string, name: string)

  function Held(e: Effects, slot: Slot): Option<string> {
    match slot
    case EnvVar(key) => if key in e.env then Some(e.env[key]) else None
    case GlobalVar(key) => if key in e.globalEnv then Some(e.globalEnv[key]) else None
    case OutputOf(step, name) =>
      if step in e.outputs && name in e.outputs[step] then Some(e.outputs[step][name]) else None
    case StateOf(step, name) =>
      if step in e.saved && name in e.saved[step] then Some(e.saved[step][name]) else None
  }

  /** The command, given the effects before it, is one that sets the slot. */
  predicate Sets(cfg: Settings, before: Effects, c: Command, slot: Slot) {
    var name := NameOfCommand(c);
    match slot
    case EnvVar(key) =>
      c.name == "set-env" && OptedIn(cfg, before.env, before.globalEnv) && key == cfg.keyFor(before.env.Keys, name)
    case GlobalVar(key) =>
      c.name == "set-env" && OptedIn(cfg, before.env, before.globalEnv) &&
      key == cfg.keyFor(before.globalEnv.Keys, name)
    case OutputOf(step, output) =>
      c.name == "set-output" && step in before.outputs &&
      if (cfg.currentStep, name) in cfg.outputMappings
      then cfg.outputMappings[(cfg.currentStep, name)] == (step, output)
      else step == cfg.currentStep && output == name
    case StateOf(step, state) => c.name == "save-state" && step == cfg.currentStep != "" && state == name
  }

  predicate SetsAt(cfg: Settings, e: Effects, cmds: seq<Command>, i: nat, slot: Slot)
    requires i < |cmds|
  {
    Sets(cfg, After(cfg, e, cmds[..i]), cmds[i], slot)
  }

  ghost predicate LastToSet(cfg: Settings, e: Effects, cmds: seq<Command>, i: nat, slot: Slot)
    requires i < |cmds|
  {
    SetsAt(cfg, e, cmds, i, slot) && forall j: nat | i < j < |cmds| :: !SetsAt(cfg, e, cmds, j, slot)
  }

  /** The argument of the last command that sets the slot, or what it held at first if none does. */
  ghost predicate IsLastArgument(cfg: Settings, e: Effects, cmds: seq<Command>, slot: Slot, held: Option<string>) {
    || (exists i: nat | i < |cmds| :: LastToSet(cfg, e, cmds, i, slot) && held == Some(cmds[i].arg))
    || (held == Held(e, slot) && forall i: nat | i < |cmds| :: !SetsAt(cfg, e, cmds, i, slot))
  }

  lemma OneCommandSets(cfg: Settings, e: Effects, c: Command, slot: Slot)
    ensures Held(Perform(cfg, e, c), slot) == if Sets(cfg, e, c, slot) then Some(c.arg) else Held(e, slot)
  {
    hide *;
    match slot {
      case EnvVar(key) => VariablesSet(cfg, e, c, key);
      case GlobalVar(key) => VariablesSet(cfg, e, c, key);
      case OutputOf(step, name) => OutputsSet(cfg, e, c, step, name);
      case StateOf(step, name) => StateSet(cfg, e, c, step, name);
    }
  }

  /** A command leaves alone what is not its own. */
  lemma OthersKept(cfg: Settings, e: Effects, c: Command)
    ensures var r := Perform(cfg, e, c);
            && (c.name != "set-env" ==> r.env == e.env && r.globalEnv == e.globalEnv)
            && (c.name != "add-path" ==> r.extraPath == e.extraPath)
            && (c.name != "add-mask" ==> r.masks == e.masks)
  {
    hide OptedIn, PathsWith, Merged, ValueIn, OutputTarget, IsUnsecure;
  }

  lemma OthersStay(cfg: Settings, e: Effects, c: Command)
    ensures var r := Perform(cfg, e, c);
            && (c.name != "set-output" ==> r.outputs == e.outputs)
            && (c.name != "save-state" ==> r.saved == e.saved)
  {
    hide OptedIn, PathsWith, Merged, ValueIn, OutputTarget, IsUnsecure;
  }

  lemma EnvironmentSet(cfg: Settings, e: Effects, c: Command)
    requires c.name == "set-env"
    ensures var r, name := Perform(cfg, e, c), ValueIn(c.properties, "name");
            if OptedIn(cfg, e.env, e.globalEnv) then
              r.env == Merged(cfg, e.env, name, c.arg) && r.globalEnv == Merged(cfg, e.globalEnv, name, c.arg)
            else r.env == e.env && r.globalEnv == e.globalEnv
  {
    hide OptedIn, PathsWith, Merged, ValueIn, OutputTarget;
  }

  function WithOutput(cfg: Settings, outputs: map<string, Env>, c: Command): map<string, Env> {
    var (step, output) := OutputTarget(cfg, ValueIn(c.properties, "name"));
    if step in outputs then outputs[step := outputs[step][output := c.arg]] else outputs
  }

  lemma OutputSet(cfg: Settings, e: Effects, c: Command)
    requires c.name == "set-output"
    ensures Perform(cfg, e, c).outputs == WithOutput(cfg, e.outputs, c)
  {
    hide OptedIn, PathsWith, Merged, ValueIn;
    assert c.name[1] == 'e' && |c.name| == 10;
  }

  function WithState(cfg: Settings, saved: map<string, Env>, c: Command): map<string, Env> {
    var state := if cfg.currentStep in saved then saved[cfg.currentStep] else map[];
    saved[cfg.currentStep := state[ValueIn(c.properties, "name") := c.arg]]
  }

  lemma StateSaved(cfg: Settings, e: Effects, c: Command)
    requires c.name == "save-state"
    ensures Perform(cfg, e, c).saved == if cfg.currentStep != "" then WithState(cfg, e.saved, c) else e.saved
  {
    hide OptedIn, PathsWith, Merged, OutputTarget, ValueIn;
    assert c.name[1] == 'a' && |c.name| == 10 && "set-output"[1] == 'e';
  }

  lemma PathAdded(cfg: Settings, e: Effects, c: Command)
    requires c.name == "add-path"
    ensures Perform(cfg, e, c).extraPath ==
            if OptedIn(cfg, e.env, e.globalEnv) then PathsWith(e.extraPath, c.arg) else e.extraPath
  {
    hide OptedIn, PathsWith, Merged, OutputTarget, ValueIn;
    assert |c.name| == 8;
  }

  lemma MaskAdded(cfg: Settings, e: Effects, c: Command)
    requires c.name == "add-mask"
    ensures Perform(cfg, e, c).masks == e.masks + [c.arg]
  {
    hide OptedIn, PathsWith, Merged, OutputTarget, ValueIn;
    assert |c.name| == 8 && c.name[4] == 'm' && "add-path"[4] == 'p';
  }

  lemma VariablesSet(cfg: Settings, e: Effects, c: Command, key: string)
    ensures Held(Perform(cfg, e, c), EnvVar(key)) ==
            if Sets(cfg, e, c, EnvVar(key)) then Some(c.arg) else Held(e, EnvVar(key))
    ensures Held(Perform(cfg, e, c), GlobalVar(key)) ==
            if Sets(cfg, e, c, GlobalVar(key)) then Some(c.arg) else Held(e, GlobalVar(key))
  {
    hide OptedIn, Perform;
    OthersKept(cfg, e, c);
    if c.name == "set-env" { EnvironmentSet(cfg, e, c); }
  }

  lemma OutputsSet(cfg: Settings, e: Effects, c: Command, step: string, name: string)
    ensures Held(Perform(cfg, e, c), OutputOf(step, name)) ==
            if Sets(cfg, e, c, OutputOf(step, name)) then Some(c.arg) else Held(e, OutputOf(step, name))
  {
    hide OptedIn, Perform;
    OthersStay(cfg, e, c);
    if c.name == "set-output" { OutputSet(cfg, e, c); }
  }

  lemma StateSet(cfg: Settings, e: Effects, c: Command, step: string, name: string)
    ensures Held(Perform(cfg, e, c), StateOf(step, name)) ==
            if Sets(cfg, e, c, StateOf(step, name)) then Some(c.arg) else Held(e, StateOf(step, name))
  {
    hide OptedIn, Perform;
    OthersStay(cfg, e, c);
    if c.name == "save-state" { StateSaved(cfg, e, c); }
  }

  lemma SetsAtInit(cfg: Settings, e: Effects, cmds: seq<Command>, i: nat, slot: Slot)
    requires cmds != [] && i < |cmds| - 1
    ensures SetsAt(cfg, e, cmds, i, slot) == SetsAt(cfg, e, cmds[..|cmds| - 1], i, slot)
  {
    hide Sets, After;
    assert cmds[..|cmds| - 1][..i] == cmds[..i];
  }

  lemma LastArgumentStep(cfg: Settings, e: Effects, cmds: seq<Command>, slot: Slot, before: Option<string>)
    requires cmds != [] && IsLastArgument(cfg, e, cmds[..|cmds| - 1], slot, before)
    ensures var n := |cmds| - 1;
            IsLastArgument(cfg, e, cmds, slot, if SetsAt(cfg, e, cmds, n, slot) then Some(cmds[n].arg) else before)
  {
    hide SetsAt, Held;
    var n, init := |cmds| - 1, cmds[..|cmds| - 1];
    forall i: nat | i < n ensures SetsAt(cfg, e, cmds, i, slot) == SetsAt(cfg, e, init, i, slot) {
      SetsAtInit(cfg, e, cmds, i, slot);
    }
    if SetsAt(cfg, e, cmds, n, slot) {
      assert LastToSet(cfg, e, cmds, n, slot);
    } else if i: nat :| i < n && LastToSet(cfg, e, init, i, slot) && before == Some(init[i].arg) {
      assert LastToSet(cfg, e, cmds, i, slot);
    }
  }

  lemma {:induction false} AfterHoldsLast(cfg: Settings, e: Effects, cmds: seq<Command>, slot: Slot)
    ensures IsLastArgument(cfg, e, cmds, slot, Held(After(cfg, e, cmds), slot))
  {
    hide Sets, Perform, Held;
    if cmds != [] {
      var n, init := |cmds| - 1, cmds[..|cmds| - 1];
      AfterHoldsLast(cfg, e, init, slot);
      OneCommandSets(cfg, After(cfg, e, init), cmds[n], slot);
      hide IsLastArgument;
      LastArgumentStep(cfg, e, cmds, slot, Held(After(cfg, e, init), slot));
    }
  }

  // ---------------------------------------------------------------- masks, paths, refusals

  /** The arguments of the add-mask commands, in order. */
  function MaskArguments(cmds: seq<Command>): seq<string> {
    if cmds == [] then []
    else (if cmds[0].name == "add-mask" then [cmds[0].arg] else []) + MaskArguments(cmds[1..])
  }

  /** Those of the add-path commands that were let through. */
  function PathArguments(cfg: Settings, e: Effects, cmds: seq<Command>): seq<string> {
    if cmds == [] then []
    else
      var before, last := After(cfg, e, cmds[..|cmds| - 1]), cmds[|cmds| - 1];
      PathArguments(cfg, e, cmds[..|cmds| - 1]) +
      if last.name == "add-path" && OptedIn(cfg, before.env, before.globalEnv) then [last.arg] else []
  }

  /** A command that would set the environment or the path comes where neither may be set. */
  predicate RefusedAt(cfg: Settings, e: Effects, cmds: seq<Command>, i: nat)
    requires i < |cmds|
  {
    var before := After(cfg, e, cmds[..i]);
    (cmds[i].name == "set-env" || cmds[i].name == "add-path") && !OptedIn(cfg, before.env, before.globalEnv)
  }

  lemma {:induction false} MaskArgumentsSnoc(cmds: seq<Command>, c: Command)
    ensures MaskArguments(cmds + [c]) == MaskArguments(cmds) + if c.name == "add-mask" then [c.arg] else []
  {
    if cmds == [] {
      assert [] + [c] == [c] && [c][1..] == [];
    } else {
      assert (cmds + [c])[1..] == cmds[1..] + [c];
      MaskArgumentsSnoc(cmds[1..], c);
    }
  }

  lemma OneCommandElse(cfg: Settings, e: Effects, c: Command)
    ensures var r := Perform(cfg, e, c);
            && r.masks == e.masks + (if c.name == "add-mask" then [c.arg] else [])
            && r.outputs.Keys == e.outputs.Keys
            && r.extraPath == (if c.name == "add-path" && OptedIn(cfg, e.env, e.globalEnv)
                               then PathsWith(e.extraPath, c.arg) else e.extraPath)
  {
    hide OptedIn, PathsWith, Perform;
    OthersKept(cfg, e, c);
    OthersStay(cfg, e, c);
    assert e.masks + [] == e.masks;
    if c.name == "add-mask" { MaskAdded(cfg, e, c); }
    if c.name == "add-path" { PathAdded(cfg, e, c); }
    if c.name == "set-output" { OutputSet(cfg, e, c); }
  }

  lemma OneCommandRefused(cfg: Settings, e: Effects, c: Command)
    ensures Perform(cfg, e, c).refused ==
            if e.refused == None && (c.name == "set-env" || c.name == "add-path") &&
               !OptedIn(cfg, e.env, e.globalEnv)
            then Some(c.name) else e.refused
  {
    hide OptedIn, PathsWith, Merged, ValueIn, OutputTarget;
  }

  lemma {:induction false} MasksAfter(cfg: Settings, e: Effects, cmds: seq<Command>)
    ensures After(cfg, e, cmds).masks == e.masks + MaskArguments(cmds)
    ensures After(cfg, e, cmds).outputs.Keys == e.outputs.Keys
  {
    hide Perform, MaskArguments;
    if cmds == [] {
      assert MaskArguments([]) == [] && e.masks + [] == e.masks by { NoMasks(); }
    } else {
      var init, last := cmds[..|cmds| - 1], cmds[|cmds| - 1];
      MasksAfter(cfg, e, init);
      OneCommandElse(cfg, After(cfg, e, init), last);
      assert cmds == init + [last];
      MaskArgumentsSnoc(init, last);
      ConcatAssociative(e.masks, MaskArguments(init), if last.name == "add-mask" then [last.arg] else []);
    }
  }

  lemma NoMasks()
    ensures MaskArguments([]) == []
  {
  }

  lemma {:induction false} PathsAfter(cfg: Settings, e: Effects, cmds: seq<Command>)
    ensures After(cfg, e, cmds).extraPath == AddAll(e.extraPath, PathArguments(cfg, e, cmds))
  {
    hide Perform, PathsWith, OptedIn;
    if cmds != [] {
      var init, last := cmds[..|cmds| - 1], cmds[|cmds| - 1];
      PathsAfter(cfg, e, init);
      OneCommandElse(cfg, After(cfg, e, init), last);
      var adds := PathArguments(cfg, e, init);
      assert (adds + [last.arg])[..|adds|] == adds && adds + [] == adds;
    }
  }

  /** The command that was refused first, unless an earlier refusal was still to be reported. */
  ghost predicate IsFirstRefusal(cfg: Settings, e: Effects, cmds: seq<Command>, refused: Option<string>) {
    if e.refused.Some? then refused == e.refused
    else
      || (exists i: nat | i < |cmds| ::
            && RefusedAt(cfg, e, cmds, i) && refused == Some(cmds[i].name)
            && forall j: nat | j < i :: !RefusedAt(cfg, e, cmds, j))
      || (refused == None && forall i: nat | i < |cmds| :: !RefusedAt(cfg, e, cmds, i))
  }

  lemma RefusedAtInit(cfg: Settings, e: Effects, cmds: seq<Command>, i: nat)
    requires cmds != [] && i < |cmds| - 1
    ensures RefusedAt(cfg, e, cmds, i) == RefusedAt(cfg, e, cmds[..|cmds| - 1], i)
  {
    hide After, OptedIn;
    assert cmds[..|cmds| - 1][..i] == cmds[..i];
  }

  lemma FirstRefusalStep(cfg: Settings, e: Effects, cmds: seq<Command>, before: Option<string>)
    requires cmds != [] && IsFirstRefusal(cfg, e, cmds[..|cmds| - 1], before)
    ensures var n := |cmds| - 1;
            IsFirstRefusal(cfg, e, cmds,
                           if before == None && RefusedAt(cfg, e, cmds, n) then Some(cmds[n].name) else before)
  {
    var n, init := |cmds| - 1, cmds[..|cmds| - 1];
    hide RefusedAt;
    forall i: nat | i < n ensures RefusedAt(cfg, e, cmds, i) == RefusedAt(cfg, e, init, i) {
      RefusedAtInit(cfg, e, cmds, i);
    }
    if e.refused == None && before.Some? {
      var i: nat :| i < n && RefusedAt(cfg, e, init, i) && before == Some(init[i].name) &&
                    forall j: nat | j < i :: !RefusedAt(cfg, e, init, j);
      assert RefusedAt(cfg, e, cmds, i);
    }
  }

  lemma {:induction false} RefusedAfter(cfg: Settings, e: Effects, cmds: seq<Command>)
    ensures IsFirstRefusal(cfg, e, cmds, After(cfg, e, cmds).refused)
  {
    hide Perform, OptedIn;
    if cmds != [] {
      var init := cmds[..|cmds| - 1];
      RefusedAfter(cfg, e, init);
      OneCommandRefused(cfg, After(cfg, e, init), cmds[|init|]);
      hide IsFirstRefusal;
      FirstRefusalStep(cfg, e, cmds, After(cfg, e, init).refused);
    }
  }

  // ---------------------------------------------------------------- the opt-in

  predicate AllSpaces(v: string) {
    forall c | c in v :: IsSpace(c)
  }

  lemma {:induction false} TrimSpaceCuts(v: string) returns (i: nat, j: nat)
    ensures i <= j <= |v| && TrimSpace(v) == v[i..j] && AllSpaces(v[..i]) && AllSpaces(v[j..])
    decreases |v|
  {
    hide IsSpace;
    if v != "" && IsSpace(v[0]) {
      i, j := TrimSpaceCuts(v[1..]);
      assert v[1..][i..j] == v[i + 1..j + 1] && v[..i + 1] == [v[0]] + v[1..][..i] && v[1..][j..] == v[j + 1..];
      i, j := i + 1, j + 1;
    } else if v != "" && IsSpace(v[|v| - 1]) {
      var init, last := v[..|v| - 1], v[|v| - 1];
      i, j := TrimSpaceCuts(init);
      assert init[i..j] == v[i..j] && init[..i] == v[..i] && v[j..] == init[j..] + [last];
    } else {
      i, j := 0, |v|;
    }
  }

  /** Trimming goes on to the first and the last character that are not space. */
  lemma {:induction false} TrimSpaceOf(v: string, i: nat, j: nat)
    requires i < j <= |v| && AllSpaces(v[..i]) && AllSpaces(v[j..]) && !IsSpace(v[i]) && !IsSpace(v[j - 1])
    ensures TrimSpace(v) == v[i..j]
    decreases |v|
  {
    hide IsSpace;
    if i > 0 {
      assert v[..i][0] == v[0] && v[1..][..i - 1] == v[..i][1..] && v[1..][j - 1..] == v[j..];
      TrimSpaceOf(v[1..], i - 1, j - 1);
      assert v[1..][i - 1..j - 1] == v[i..j];
    } else if j < |v| {
      var init := v[..|v| - 1];
      assert v[j..][|v| - 1 - j] == v[|v| - 1] && init[j..] == v[j..][..|init| - j] && init[..i] == v[..i];
      TrimSpaceOf(init, i, j);
      assert init[i..j] == v[i..j];
    }
  }

  /** The word true in any casing. */
  predicate SpellsTrue(t: string) {
    |t| == 4 && t[0] in "tT" && t[1] in "rR" && t[2] in "uU" && t[3] in "eE"
  }

  lemma SpelledLower(t: string)
    requires |t| == 4
    ensures Lower(t[0]) == 't' && Lower(t[1]) == 'r' && Lower(t[2]) == 'u' && Lower(t[3]) == 'e' <==> SpellsTrue(t)
    ensures SpellsTrue(t) ==> !IsSpace(t[0]) && !IsSpace(t[3])
  {
  }

  /** A truthy value is the word true, in any casing, among white space. */
  lemma TruthyIff(v: string)
    ensures IsTruthyEnv(v) <==>
            exists i: nat | i + 4 <= |v| :: SpellsTrue(v[i..i + 4]) && AllSpaces(v[..i]) && AllSpaces(v[i + 4..])
  {
    hide IsSpace, SpellsTrue, Lower, AllSpaces;
    if IsTruthyEnv(v) {
      var i, j := TrimSpaceCuts(v);
      SpelledLower(v[i..j]);
      assert SpellsTrue(v[i..i + 4]);
    }
    if i: nat :| i + 4 <= |v| && SpellsTrue(v[i..i + 4]) && AllSpaces(v[..i]) && AllSpaces(v[i + 4..]) {
      SpelledLower(v[i..i + 4]);
      TrimSpaceOf(v, i, i + 4);
    }
  }

  /** Environment and path may be set where the variable says so in any of the three environments. */
  lemma OptedInIff(cfg: Settings, env: Env, globalEnv: Env)
    ensures var name := "ACTIONS_ALLOW_UNSECURE_COMMANDS";
            OptedIn(cfg, env, globalEnv) <==>
            || (name in cfg.stepEnv && IsTruthyEnv(cfg.stepEnv[name]))
            || (name in env && IsTruthyEnv(env[name]))
            || (name in globalEnv && IsTruthyEnv(globalEnv[name]))
  {
    assert TrimSpace("") == "";
    assert !IsTruthyEnv("");
    hide IsTruthyEnv;
  }

  // ---------------------------------------------------------------- the whole output

  /** The commands of a stream of output, outside its stopped regions. */
  function CommandsOf(stream: string): seq<Command> {
    Issued(Unstopped(Lines(stream)))
  }

  /** What any output comes to: the masks it adds, in order; for every variable, output and state value its
      last setting that was let through; the paths it adds; and the first refusal. */
  lemma OutputComesTo(cfg: Settings, e: Effects, stream: string, slot: Slot)
    ensures var r, cmds := EffectsOf(cfg, e, stream), CommandsOf(stream);
            && r.masks == e.masks + MaskArguments(cmds)
            && r.outputs.Keys == e.outputs.Keys
            && IsLastArgument(cfg, e, cmds, slot, Held(r, slot))
            && r.extraPath == AddAll(e.extraPath, PathArguments(cfg, e, cmds))
            && IsFirstRefusal(cfg, e, cmds, r.refused)
  {
    hide *;
    EffectsAreAfter(cfg, e, stream);
    MasksAfter(cfg, e, CommandsOf(stream));
    AfterHoldsLast(cfg, e, CommandsOf(stream), slot);
    PathsAfter(cfg, e, CommandsOf(stream));
    RefusedAfter(cfg, e, CommandsOf(stream));
  }

  lemma EffectsAreAfter(cfg: Settings, e: Effects, stream: string)
    ensures EffectsOf(cfg, e, stream) == After(cfg, e, CommandsOf(stream))
  {
    hide PerformAll, After, Issued, Unstopped;
    PerformAllIsAfter(cfg, e, Unstopped(Lines(stream)));
  }

  lemma {:induction false} IssuedHas(lines: seq<string>, line: string)
    requires line in lines && Received(line).Some?
    ensures Received(line).value in Issued(lines)
  {
    hide Received;
    var init, last := lines[..|lines| - 1], lines[|lines| - 1];
    assert lines == init + [last];
    if line != last { IssuedHas(init, line); }
  }

  lemma {:induction false} MaskArgumentsHas(cmds: seq<Command>, c: Command)
    requires c in cmds && c.name == "add-mask"
    ensures c.arg in MaskArguments(cmds)
  {
    if c != cmds[0] {
      assert cmds == [cmds[0]] + cmds[1..];
      MaskArgumentsHas(cmds[1..], c);
    }
  }

  /** From the printer to the mask: a value that is printed with add-mask outside every stopped region, and
      is not one that a reader cuts elsewhere, is among the masks. */
  lemma PrintedMaskIsAdded(cfg: Settings, e: Effects, stream: string, value: string, ending: string)
    requires ending != "" && AllBreaks(ending) && !Ambiguous(false, value)
    requires Print("add-mask", [], value) + ending in Unstopped(Lines(stream))
    ensures value in EffectsOf(cfg, e, stream).masks
  {
    var line := Print("add-mask", [], value) + ending;
    assert Recoverable("add-mask", [], value) by { NothingPrinted(); }
    CommandRoundTrip("add-mask", [], value, ending);
    hide *;
    IssuedHas(Unstopped(Lines(stream)), line);
    assert CommandsOf(stream) == Issued(Unstopped(Lines(stream))) by { IsIssued(stream); }
    MaskArgumentsHas(CommandsOf(stream), Received(line).value);
    OutputComesTo(cfg, e, stream, EnvVar(""));
  }

  lemma IsIssued(stream: string)
    ensures CommandsOf(stream) == Issued(Unstopped(Lines(stream)))
  {
  }
}
