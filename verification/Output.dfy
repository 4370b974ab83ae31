/** What a step's output does: the command handler behind the line writer. */
module Output {
  import opened Basics
  import opened Commands
  import opened LineWriting

  type Env = map<string, string>

  /** What stays fixed while a step's output is read. KeyFor gives the name under which a variable is
      stored, given the names stored: the name itself, or on a platform whose environment ignores case a
      stored one that differs in case only. */
  datatype Settings = Settings(
    keyFor: (set<string>, string) -> string,
    stepEnv: Env,
    currentStep: string,
    outputMappings: map<(string, string), (string, string)>)

  /** What commands change. Refused names the first disabled command since it was last taken. */
  datatype Effects = Effects(
    env: Env,
    globalEnv: Env,
    extraPath: seq<string>,
    masks: seq<string>,
    outputs: map<string, Env>,
    saved: map<string, Env>,
    refused: Option<string>)

  // ---------------------------------------------------------------- the opt-in

  function TrimSpace(v: string): string
    decreases |v|
  {
    if v != "" && IsSpace(v[0]) then TrimSpace(v[1..])
    else if v != "" && IsSpace(v[|v| - 1]) then TrimSpace(v[..|v| - 1])
    else v
  }

  function Lower(c: char): char {
    if 'A' <= c <= 'Z' then c - 'A' + 'a' else c
  }

  predicate IsTruthyEnv(v: string) {
    var t := TrimSpace(v);
    |t| == 4 && Lower(t[0]) == 't' && Lower(t[1]) == 'r' && Lower(t[2]) == 'u' && Lower(t[3]) == 'e'
  }

  const allowUnsecureCommandsVar := "ACTIONS_ALLOW_UNSECURE_COMMANDS"

  function ValueIn(env: Env, name: string): string {
    if name in env then env[name] else ""
  }

  predicate OptedIn(cfg: Settings, env: Env, globalEnv: Env) {
    || IsTruthyEnv(ValueIn(cfg.stepEnv, allowUnsecureCommandsVar))
    || IsTruthyEnv(ValueIn(env, allowUnsecureCommandsVar))
    || IsTruthyEnv(ValueIn(globalEnv, allowUnsecureCommandsVar))
  }

  // ---------------------------------------------------------------- one command

  predicate IsUnsecure(name: string) {
    name == "set-env" || name == "add-path"
  }

  function Without(paths: seq<string>, path: string): seq<string> {
    if paths == [] then [] else (if paths[0] == path then [] else [paths[0]]) + Without(paths[1..], path)
  }

  function PathsWith(paths: seq<string>, path: string): seq<string> {
    [path] + Without(paths, path)
  }

  function OutputTarget(cfg: Settings, name: string): (string, string) {
    if (cfg.currentStep, name) in cfg.outputMappings then cfg.outputMappings[(cfg.currentStep, name)]
    else (cfg.currentStep, name)
  }

  function Merged(cfg: Settings, env: Env, name: string, value: string): Env {
    env[cfg.keyFor(env.Keys, name) := value]
  }

  /** The effect of an unescaped command outside any stopped region. */
  function Perform(cfg: Settings, e: Effects, c: Command): Effects {
    var name := ValueIn(c.properties, "name");
    if IsUnsecure(c.name) && !OptedIn(cfg, e.env, e.globalEnv) then
      e.(refused := if e.refused == None then Some(c.name) else e.refused)
    else if c.name == "set-env" then
      e.(env := Merged(cfg, e.env, name, c.arg), globalEnv := Merged(cfg, e.globalEnv, name, c.arg))
    else if c.name == "add-path" then e.(extraPath := PathsWith(e.extraPath, c.arg))
    else if c.name == "add-mask" then e.(masks := e.masks + [c.arg])
    else if c.name == "set-output" then
      var (step, output) := OutputTarget(cfg, name);
      if step in e.outputs then e.(outputs := e.outputs[step := e.outputs[step][output := c.arg]]) else e
    else if c.name == "save-state" && cfg.currentStep != "" then
      var state := if cfg.currentStep in e.saved then e.saved[cfg.currentStep] else map[];
      e.(saved := e.saved[cfg.currentStep := state[name := c.arg]])
    else e
  }

  /** The run context's fields that commands change. */
  class RunContext {
    const cfg: Settings
    var env: Env
    var globalEnv: Env
    var extraPath: seq<string>
    var masks: seq<string>
    var outputs: map<string, Env>
    var saved: map<string, Env>
    var unsecureCommandErr: Option<string>

    constructor (cfg: Settings, e: Effects)
      ensures this.cfg == cfg && Value() == e
    {
      this.cfg := cfg;
      env, globalEnv, extraPath, masks := e.env, e.globalEnv, e.extraPath, e.masks;
      outputs, saved, unsecureCommandErr := e.outputs, e.saved, e.refused;
    }

    function Value(): Effects reads this {
      Effects(env, globalEnv, extraPath, masks, outputs, saved, unsecureCommandErr)
    }

    method RefuseUnsecureCommand(command: string) returns (refused: bool)
      modifies this`unsecureCommandErr
      ensures refused == !OptedIn(cfg, env, globalEnv)
      ensures unsecureCommandErr ==
              if refused && old(unsecureCommandErr) == None then Some(command) else old(unsecureCommandErr)
    {
      if OptedIn(cfg, env, globalEnv) {
        return false;
      }
      if unsecureCommandErr == None {
        unsecureCommandErr := Some(command);
      }
      return true;
    }

    method TakeUnsecureCommandError() returns (err: Option<string>)
      modifies this`unsecureCommandErr
      ensures err == old(unsecureCommandErr) && unsecureCommandErr == None
    {
      err := unsecureCommandErr;
      unsecureCommandErr := None;
    }

    method SetEnv(kvPairs: map<string, string>, arg: string)
      modifies this`env, this`globalEnv
      ensures env == Merged(cfg, old(env), ValueIn(kvPairs, "name"), arg)
      ensures globalEnv == Merged(cfg, old(globalEnv), ValueIn(kvPairs, "name"), arg)
    {
      var name := ValueIn(kvPairs, "name");
      env := env[cfg.keyFor(env.Keys, name) := arg];
      globalEnv := globalEnv[cfg.keyFor(globalEnv.Keys, name) := arg];
    }

    method SetOutput(kvPairs: map<string, string>, arg: string)
      modifies this`outputs
      ensures Value() == Perform(cfg, old(Value()), Command("set-output", kvPairs, arg))
    {
      var stepID, outputName := cfg.currentStep, ValueIn(kvPairs, "name");
      if (stepID, outputName) in cfg.outputMappings {
        var mapping := cfg.outputMappings[(stepID, outputName)];
        stepID, outputName := mapping.0, mapping.1;
      }
      if stepID !in outputs {
        return;
      }
      outputs := outputs[stepID := outputs[stepID][outputName := arg]];
    }

    /** The path goes to the front, once. */
    method AddPath(arg: string)
      modifies this`extraPath
      ensures extraPath == PathsWith(old(extraPath), arg)
    {
      var paths := [arg];
      var i := 0;
      while i < |extraPath|
        invariant i <= |extraPath| && extraPath == old(extraPath)
        invariant paths == [arg] + Without(extraPath[..i], arg)
      {
        assert extraPath[..i + 1] == extraPath[..i] + [extraPath[i]];
        WithoutAppend(extraPath[..i], [extraPath[i]], arg);
        if extraPath[i] != arg {
          paths := paths + [extraPath[i]];
        }
        i := i + 1;
      }
      assert extraPath[..i] == extraPath;
      extraPath := paths;
    }

    method SaveState(kvPairs: map<string, string>, arg: string)
      modifies this`saved
      ensures Value() == Perform(cfg, old(Value()), Command("save-state", kvPairs, arg))
    {
      var stepID := cfg.currentStep;
      NotUnsecure();
      hide OptedIn, ValueIn, IsUnsecure;
      if stepID != "" {
        ghost var state := if stepID in saved then saved[stepID] else map[];
        ghost var before := saved;
        if stepID !in saved {
          saved := saved[stepID := map[]];
        }
        saved := saved[stepID := saved[stepID][ValueIn(kvPairs, "name") := arg]];
        assert saved == before[stepID := state[ValueIn(kvPairs, "name") := arg]];
      }
    }
  }

  lemma NotUnsecure()
    ensures !IsUnsecure("save-state") && !IsUnsecure("set-output")
  {
  }

  lemma {:induction false} WithoutAppend(xs: seq<string>, ys: seq<string>, path: string)
    ensures Without(xs + ys, path) == Without(xs, path) + Without(ys, path)
  {
    if xs == [] {
      assert xs + ys == ys;
    } else {
      assert (xs + ys)[1..] == xs[1..] + ys;
      WithoutAppend(xs[1..], ys, path);
    }
  }

  // ---------------------------------------------------------------- the handler

  /** The effects so far and the token that ends the stopped region, if one is open; and the raw lines
      that the next handler logged. */
  datatype State = State(effects: Effects, resume: string, raw: seq<string>)

  /** Within a stopped region only the resume token counts, and it is compared with the name as printed. */
  function HandleCommand(cfg: Settings, s: State, line: string): State {
    match TryParseRawActionCommand(line)
    case None => s
    case Some(parsed) =>
      if s.resume != "" then (if parsed.name == s.resume then s.(resume := "") else s)
      else
        var c := Unescaped(parsed);
        if c.name == "stop-commands" then s.(resume := c.arg)
        else s.(effects := Perform(cfg, s.effects, c))
  }

  class CommandHandler {
    const rc: RunContext
    var resumeCommand: string

    constructor (rc: RunContext)
      ensures this.rc == rc && resumeCommand == ""
    {
      this.rc, resumeCommand := rc, "";
    }

    /** One line; handlers after this one always see it too. */
    method Handle(line: string) returns (more: bool)
      modifies this, rc
      ensures more
      ensures var s := HandleCommand(rc.cfg, State(old(rc.Value()), old(resumeCommand), []), line);
              rc.Value() == s.effects && resumeCommand == s.resume
    {
      more := true;
      var parsed := TryParseRawActionCommand(line);
      if parsed == None {
        return;
      }
      if resumeCommand != "" {
        if parsed.value.name == resumeCommand {
          resumeCommand := "";
        }
        return;
      }
      var command, kvPairs, arg := parsed.value.name, Unescaped(parsed.value).properties,
        UnescapeCommandData(parsed.value.arg);
      if command == "set-env" || command == "add-path" {
        var refused := rc.RefuseUnsecureCommand(command);
        if refused {
          return;
        }
      }
      if command == "set-env" {
        rc.SetEnv(kvPairs, arg);
      } else if command == "set-output" {
        rc.SetOutput(kvPairs, arg);
      } else if command == "add-path" {
        rc.AddPath(arg);
      } else if command == "add-mask" {
        rc.masks := rc.masks + [arg];
      } else if command == "stop-commands" {
        resumeCommand := arg;
      } else if command == "save-state" {
        rc.SaveState(kvPairs, arg);
      }
    }
  }

  /** The handlers of a step's log writer: commands first, then the raw log. */
  function LogHandlers(cfg: Settings): seq<Handler<State>> {
    [(s: State, line: string) => (HandleCommand(cfg, s, line), true),
     (s: State, line: string) => (s.(raw := s.raw + [line]), true)]
  }

  function HandleAll(cfg: Settings, s: State, lines: seq<string>): State
    decreases |lines|
  {
    if lines == [] then s
    else
      var next := HandleCommand(cfg, s, lines[0]);
      HandleAll(cfg, next.(raw := next.raw + [lines[0]]), lines[1..])
  }

  lemma {:induction false} LogHandlersHandleAll(cfg: Settings, s: State, lines: seq<string>)
    ensures HandleLines(LogHandlers(cfg), s, lines) == HandleAll(cfg, s, lines)
    decreases |lines|
  {
    if lines != [] {
      var hs, next := LogHandlers(cfg), HandleCommand(cfg, s, lines[0]);
      var logged := next.(raw := next.raw + [lines[0]]);
      assert hs[0](s, lines[0]) == (next, true);
      assert hs[1..][0](next, lines[0]) == (logged, true);
      assert HandleLine(hs[1..][1..], logged, lines[0]) == logged;
      assert HandleLine(hs[1..], next, lines[0]) == logged;
      LogHandlersHandleAll(cfg, logged, lines[1..]);
    }
  }

  // ---------------------------------------------------------------- stopped regions

  /** The non-empty token a line outside a stopped region opens one with. */
  function StopToken(line: string): Option<string> {
    match Received(line)
    case Some(c) => if c.name == "stop-commands" && c.arg != "" then Some(c.arg) else None
    case None => None
  }

  predicate Resumes(line: string, token: string) {
    var parsed := TryParseRawActionCommand(line);
    parsed.Some? && parsed.value.name == token
  }

  /** The lines after the first that resumes. */
  function AfterResume(lines: seq<string>, token: string): (rest: seq<string>)
    ensures |rest| <= |lines|
  {
    if lines == [] then []
    else if Resumes(lines[0], token) then lines[1..]
    else AfterResume(lines[1..], token)
  }

  lemma {:induction false} AfterResumeIsSuffix(lines: seq<string>, token: string)
    ensures var rest := AfterResume(lines, token); rest == lines[|lines| - |rest|..]
  {
    hide Resumes;
    if lines != [] && !Resumes(lines[0], token) {
      AfterResumeIsSuffix(lines[1..], token);
    }
  }

  /** The lines without every region from its opening line to its resume line, both included. */
  function Unstopped(lines: seq<string>): seq<string>
    decreases |lines|
  {
    if lines == [] then []
    else match StopToken(lines[0])
      case Some(token) => Unstopped(AfterResume(lines[1..], token))
      case None => [lines[0]] + Unstopped(lines[1..])
  }

  /** The effects of lines when there is no way to stop commands. */
  function PerformAll(cfg: Settings, e: Effects, lines: seq<string>): Effects
    decreases |lines|
  {
    if lines == [] then e
    else PerformAll(cfg, match Received(lines[0]) case Some(c) => Perform(cfg, e, c) case None => e, lines[1..])
  }

  /** A stopped region has no effect, and its resume line ends it. */
  lemma {:induction false} RegionHasNoEffect(cfg: Settings, s: State, lines: seq<string>)
    requires s.resume != ""
    ensures var rest := AfterResume(lines, s.resume);
            HandleAll(cfg, s, lines).effects == HandleAll(cfg, State(s.effects, "", []), rest).effects
    decreases |lines|
  {
    if lines != [] {
      var next := HandleCommand(cfg, s, lines[0]);
      var logged := next.(raw := next.raw + [lines[0]]);
      if Resumes(lines[0], s.resume) {
        RawIsOnlyLogged(cfg, logged, State(s.effects, "", []), lines[1..]);
      } else {
        RegionHasNoEffect(cfg, logged, lines[1..]);
      }
    }
  }

  lemma {:induction false} RawIsOnlyLogged(cfg: Settings, s: State, t: State, lines: seq<string>)
    requires s.effects == t.effects && s.resume == t.resume
    ensures HandleAll(cfg, s, lines).effects == HandleAll(cfg, t, lines).effects
    decreases |lines|
  {
    if lines != [] {
      var s', t' := HandleCommand(cfg, s, lines[0]), HandleCommand(cfg, t, lines[0]);
      RawIsOnlyLogged(cfg, s'.(raw := s'.raw + [lines[0]]), t'.(raw := t'.raw + [lines[0]]), lines[1..]);
    }
  }

  /** The handler's effects are those of the lines outside stopped regions, each on its own. */
  lemma {:induction false} StoppedRegionsAreInert(cfg: Settings, e: Effects, raw: seq<string>, lines: seq<string>)
    ensures HandleAll(cfg, State(e, "", raw), lines).effects == PerformAll(cfg, e, Unstopped(lines))
    decreases |lines|
  {
    if lines != [] {
      var s := State(e, "", raw);
      var next, line := HandleCommand(cfg, s, lines[0]), lines[0];
      var logged := next.(raw := next.raw + [line]);
      match StopToken(line) {
        case Some(token) =>
          assert logged.resume == token && logged.effects == e;
          RegionHasNoEffect(cfg, logged, lines[1..]);
          StoppedRegionsAreInert(cfg, e, [], AfterResume(lines[1..], token));
        case None =>
          assert logged.resume == "";
          KeptLine(cfg, e, line, Unstopped(lines[1..]));
          StoppedRegionsAreInert(cfg, logged.effects, logged.raw, lines[1..]);
      }
    }
  }

  lemma KeptLine(cfg: Settings, e: Effects, line: string, rest: seq<string>)
    requires StopToken(line) == None
    ensures PerformAll(cfg, e, [line] + rest) ==
            PerformAll(cfg, HandleCommand(cfg, State(e, "", []), line).effects, rest)
  {
    assert ([line] + rest)[1..] == rest;
  }

  lemma {:induction false} UnstoppedAgain(lines: seq<string>)
    ensures Unstopped(Unstopped(lines)) == Unstopped(lines)
    decreases |lines|
  {
    if lines != [] {
      match StopToken(lines[0]) {
        case Some(token) => UnstoppedAgain(AfterResume(lines[1..], token));
        case None =>
          UnstoppedAgain(lines[1..]);
          assert Unstopped(lines)[1..] == Unstopped(lines[1..]);
      }
    }
  }

  lemma {:induction false} UnstoppedIsLineSplit(lines: seq<string>)
    requires IsLineSplit(lines)
    ensures IsLineSplit(Unstopped(lines))
    decreases |lines|
  {
    if lines != [] {
      SplitTail(lines);
      match StopToken(lines[0]) {
        case Some(token) =>
          AfterResumeIsSuffix(lines[1..], token);
          SplitSuffix(lines[1..], |lines[1..]| - |AfterResume(lines[1..], token)|);
          UnstoppedIsLineSplit(AfterResume(lines[1..], token));
        case None =>
          UnstoppedIsLineSplit(lines[1..]);
          if |lines| > 1 {
            LineThenLines(lines[0], Unstopped(lines[1..]));
          }
      }
    }
  }

  lemma {:induction false} SplitSuffix(lines: seq<string>, k: nat)
    requires IsLineSplit(lines) && k <= |lines|
    ensures IsLineSplit(lines[k..])
    decreases k
  {
    if k > 0 {
      SplitTail(lines);
      SplitSuffix(lines[1..], k - 1);
      assert lines[1..][k - 1..] == lines[k..];
    }
  }

  // ---------------------------------------------------------------- a step's whole output

  function EffectsOf(cfg: Settings, e: Effects, stream: string): Effects {
    PerformAll(cfg, e, Unstopped(Lines(stream)))
  }

  lemma {:induction false} RawLog(cfg: Settings, s: State, lines: seq<string>)
    ensures HandleAll(cfg, s, lines).raw == s.raw + lines
    decreases |lines|
  {
    if lines != [] {
      var next := HandleCommand(cfg, s, lines[0]);
      RawLog(cfg, next.(raw := next.raw + [lines[0]]), lines[1..]);
    }
  }

  /** Output in any chunks: its effects are a function of its bytes, and every byte reaches the raw log. */
  method StepOutput(cfg: Settings, e: Effects, chunks: seq<string>) returns (effects: Effects, raw: seq<string>)
    ensures effects == EffectsOf(cfg, e, Flatten(chunks))
    ensures Flatten(raw) == Flatten(chunks) && IsLineSplit(raw)
  {
    var w := new LineWriter<State>(LogHandlers(cfg), State(e, "", []));
    CopyAndFlush(w, chunks);
    ghost var lines := Lines(Flatten(chunks));
    assert "" + Flatten(chunks) == Flatten(chunks);
    LogHandlersHandleAll(cfg, State(e, "", []), lines);
    StoppedRegionsAreInert(cfg, e, [], lines);
    RawLog(cfg, State(e, "", []), lines);
    assert [] + lines == lines;
    LinesPartition(Flatten(chunks));
    LinesAreSplit(Flatten(chunks));
    effects, raw := w.state.effects, w.state.raw;
  }

  /** Cutting the stopped regions out of the stream of bytes changes none of its effects. */
  lemma RegionsCutOut(cfg: Settings, e: Effects, stream: string)
    ensures EffectsOf(cfg, e, Flatten(Unstopped(Lines(stream)))) == EffectsOf(cfg, e, stream)
  {
    var lines := Lines(stream);
    LinesAreSplit(stream);
    UnstoppedIsLineSplit(lines);
    SplitIsLines(Unstopped(lines));
    UnstoppedAgain(lines);
  }

  // ---------------------------------------------------------------- disabled commands

  /** A line that would set the environment or the path. */
  predicate AsksUnsecure(line: string) {
    Received(line).Some? && IsUnsecure(Received(line).value.name)
  }

  /** Without the opt-in no output, whatever it says, sets the environment or the path, or opts in; and
      an error is left exactly when some line outside the stopped regions asked for it. */
  lemma {:induction false} WithoutOptIn(cfg: Settings, e: Effects, lines: seq<string>)
    requires !OptedIn(cfg, e.env, e.globalEnv)
    ensures var r := PerformAll(cfg, e, lines);
            && r.env == e.env && r.globalEnv == e.globalEnv && r.extraPath == e.extraPath
            && (r.refused.Some? <==> e.refused.Some? || exists i | 0 <= i < |lines| :: AsksUnsecure(lines[i]))
    decreases |lines|
  {
    if lines != [] {
      hide OptedIn, Received, Perform, IsUnsecure;
      var next := match Received(lines[0]) case Some(c) => Perform(cfg, e, c) case None => e;
      if Received(lines[0]).Some? {
        OneWithoutOptIn(cfg, e, Received(lines[0]).value);
      }
      WithoutOptIn(cfg, next, lines[1..]);
      assert forall i | 0 < i < |lines| :: lines[i] == lines[1..][i - 1];
    }
  }

  lemma OneWithoutOptIn(cfg: Settings, e: Effects, c: Command)
    requires !OptedIn(cfg, e.env, e.globalEnv)
    ensures var r := Perform(cfg, e, c);
            && r.env == e.env && r.globalEnv == e.globalEnv && r.extraPath == e.extraPath
            && (r.refused.Some? <==> e.refused.Some? || IsUnsecure(c.name))
  {
    hide OptedIn, ValueIn, Merged, PathsWith, OutputTarget;
    if !IsUnsecure(c.name) {
      assert c.name != "set-env" && c.name != "add-path";
    }
  }

  // ---------------------------------------------------------------- the order of paths

  function AddAll(paths: seq<string>, adds: seq<string>): seq<string> {
    if adds == [] then paths else PathsWith(AddAll(paths, adds[..|adds| - 1]), adds[|adds| - 1])
  }

  /** One past the last position of a path in a list; zero when it is not there. */
  function LastUse(adds: seq<string>, path: string): nat {
    if adds == [] then 0
    else if adds[|adds| - 1] == path then |adds|
    else LastUse(adds[..|adds| - 1], path)
  }

  lemma {:induction false} LastUseFound(adds: seq<string>, path: string)
    ensures LastUse(adds, path) <= |adds|
    ensures LastUse(adds, path) > 0 <==> path in adds
  {
    if adds != [] {
      LastUseFound(adds[..|adds| - 1], path);
      assert adds == adds[..|adds| - 1] + [adds[|adds| - 1]];
    }
  }

  lemma {:induction false} WithoutKeeps(paths: seq<string>, path: string, x: string)
    ensures x in Without(paths, path) <==> x in paths && x != path
  {
    if paths != [] {
      WithoutKeeps(paths[1..], path, x);
      assert paths == [paths[0]] + paths[1..];
    }
  }

  ghost predicate ByLastUse(adds: seq<string>, paths: seq<string>) {
    forall i, j | 0 <= i < j < |paths| :: LastUse(adds, paths[i]) > LastUse(adds, paths[j])
  }

  lemma {:induction false} WithoutKeepsOrder(adds: seq<string>, paths: seq<string>, path: string)
    requires ByLastUse(adds, paths)
    ensures ByLastUse(adds, Without(paths, path))
  {
    if paths != [] {
      var rest := Without(paths[1..], path);
      assert forall i | 0 <= i < |paths[1..]| :: paths[1..][i] == paths[i + 1];
      WithoutKeepsOrder(adds, paths[1..], path);
      forall j | 0 <= j < |rest| ensures LastUse(adds, paths[0]) > LastUse(adds, rest[j]) {
        WithoutKeeps(paths[1..], path, rest[j]);
        var k :| 0 <= k < |paths[1..]| && paths[1..][k] == rest[j];
      }
    }
  }

  /** Paths added one by one stand once each, the most recently added first. */
  lemma {:induction false} RecentFirst(adds: seq<string>)
    ensures ByLastUse(adds, AddAll([], adds))
    ensures forall p :: p in AddAll([], adds) <==> p in adds
  {
    if adds != [] {
      var last, before := adds[|adds| - 1], adds[..|adds| - 1];
      var earlier := AddAll([], before);
      RecentFirst(before);
      assert adds == before + [last];
      WithoutKeepsOrder(before, earlier, last);
      var rest := Without(earlier, last);
      forall p ensures p in rest <==> p in earlier && p != last {
        WithoutKeeps(earlier, last, p);
      }
      forall j | 0 <= j < |rest| ensures LastUse(adds, rest[j]) == LastUse(before, rest[j]) <= |before| {
        assert rest[j] in rest;
        LastUseFound(before, rest[j]);
      }
      assert LastUse(adds, last) == |adds|;
    }
  }

  /** The paths that are not among those added. */
  function NotIn(paths: seq<string>, adds: seq<string>): seq<string> {
    if paths == [] then [] else (if paths[0] in adds then [] else [paths[0]]) + NotIn(paths[1..], adds)
  }

  lemma {:induction false} WithoutNotIn(paths: seq<string>, adds: seq<string>, last: string)
    ensures Without(NotIn(paths, adds), last) == NotIn(paths, adds + [last])
  {
    if paths != [] {
      WithoutNotIn(paths[1..], adds, last);
      var rest := NotIn(paths[1..], adds);
      if paths[0] in adds {
        assert [] + rest == rest;
      } else {
        assert ([paths[0]] + rest)[1..] == rest;
      }
    }
  }

  lemma {:induction false} NotInNothing(paths: seq<string>)
    ensures NotIn(paths, []) == paths
  {
    if paths != [] { NotInNothing(paths[1..]); }
  }

  /** Behind those added stand the paths from before that were not added again, in their order. */
  lemma {:induction false} OlderBehind(paths: seq<string>, adds: seq<string>)
    ensures AddAll(paths, adds) == AddAll([], adds) + NotIn(paths, adds)
  {
    if adds == [] {
      NotInNothing(paths);
      assert [] + paths == paths;
    } else {
      var before, last := adds[..|adds| - 1], adds[|adds| - 1];
      OlderBehind(paths, before);
      WithoutAppend(AddAll([], before), NotIn(paths, before), last);
      WithoutNotIn(paths, before, last);
      assert adds == before + [last];
      ConcatAssociative([last], Without(AddAll([], before), last), NotIn(paths, adds));
    }
  }
}
