/** The env-file parser, against the two ways an entry is written to such a file. */
module EnvFile {
  import opened Basics

  type Env = map<string, string>

  datatype ParseError = InvalidFormat(line: string) | DelimiterNotFound(delimiter: string)

  // ---------------------------------------------------------------- lines

  function DropCR(line: string): string {
    if line != "" && line[|line| - 1] == '\r' then line[..|line| - 1] else line
  }

  /** The lines of a text, as a line scanner yields them: without the line feed and a carriage return
      before it, and without a last line that is empty. */
  function ScanLines(text: string): seq<string>
    decreases |text|
  {
    if text == "" then [] else
      var i := IndexOf(text, '\n');
      [DropCR(text[..i])] + (if i < |text| then ScanLines(text[i + 1..]) else [])
  }

  predicate IsBlank(line: string) {
    forall c | c in line :: IsSpace(c)
  }

  /** The first position of "<<" in s, or the length of s. */
  function IndexOfHeredoc(s: string): (i: nat)
    ensures i <= |s| && (i < |s| ==> i + 1 < |s| && s[i] == '<' && s[i + 1] == '<')
    ensures forall j | 0 <= j < i && j + 1 < |s| :: !(s[j] == '<' && s[j + 1] == '<')
  {
    if s == "" then 0
    else if |s| > 1 && s[0] == '<' && s[1] == '<' then 0
    else 1 + IndexOfHeredoc(s[1..])
  }

  // ---------------------------------------------------------------- the parser

  /** The content up to the delimiter line, and the lines after it. */
  function Collect(lines: seq<string>, delimiter: string, content: string): Option<(string, seq<string>)>
    decreases |lines|
    ensures Collect(lines, delimiter, content).Some? ==> |Collect(lines, delimiter, content).value.1| < |lines|
  {
    if lines == [] then None
    else if lines[0] == delimiter then Some((content, lines[1..]))
    else Collect(lines[1..], delimiter, Joined(content, lines[0]))
  }

  function Joined(content: string, line: string): string {
    (if content != "" then content + "\n" else content) + line
  }

  /** The entries of the lines merged into env; at an error, those read so far. */
  function ParseLines(lines: seq<string>, env: Env): (Env, Option<ParseError>)
    decreases |lines|
  {
    if lines == [] then (env, None)
    else
      var line := lines[0];
      var single, multi := IndexOf(line, '='), IndexOfHeredoc(line);
      if IsBlank(line) then ParseLines(lines[1..], env)
      else if single < |line| && (multi == |line| || single < multi) then
        ParseLines(lines[1..], env[line[..single] := line[single + 1..]])
      else if multi < |line| then
        match Collect(lines[1..], line[multi + 2..], "")
        case None => (env, Some(DelimiterNotFound(line[multi + 2..])))
        case Some((content, rest)) => ParseLines(rest, env[line[..multi] := content])
      else (env, Some(InvalidFormat(line)))
  }

  /** The parser's nested loops over the scanner. */
  method ParseEnvFile(text: string, env: Env) returns (localEnv: Env, err: Option<ParseError>)
    ensures (localEnv, err) == ParseLines(ScanLines(text), env)
  {
    hide ScanLines, IndexOf, IndexOfHeredoc, IsBlank, Joined;
    var lines := ScanLines(text);
    localEnv := env;
    var i := 0;
    while i < |lines|
      invariant i <= |lines|
      invariant ParseLines(lines[i..], localEnv) == ParseLines(lines, env)
      decreases |lines| - i
    {
      var line := lines[i];
      assert lines[i..][1..] == lines[i + 1..];
      ghost var here := i;
      i := i + 1;
      if IsBlank(line) {
        continue;
      }
      var single, multi := IndexOf(line, '='), IndexOfHeredoc(line);
      if single < |line| && (multi == |line| || single < multi) {
        localEnv := localEnv[line[..single] := line[single + 1..]];
      } else if multi < |line| {
        var content, delimiter, found := "", line[multi + 2..], false;
        ghost var start := i;
        while i < |lines| && !found
          invariant start <= i <= |lines|
          invariant !found ==> Collect(lines[i..], delimiter, content) == Collect(lines[start..], delimiter, "")
          invariant found ==> Collect(lines[start..], delimiter, "") == Some((content, lines[i..]))
          decreases |lines| - i, !found
        {
          assert lines[i..][1..] == lines[i + 1..];
          if lines[i] == delimiter {
            found := true;
          } else {
            content := Joined(content, lines[i]);
          }
          i := i + 1;
        }
        if !found {
          return localEnv, Some(DelimiterNotFound(delimiter));
        }
        localEnv := localEnv[line[..multi] := content];
      } else {
        return localEnv, Some(InvalidFormat(line));
      }
    }
    err := None;
  }

  // ---------------------------------------------------------------- the printers

  /** An entry as `NAME=value`, or as the toolkit's exportVariable writes it. */
  datatype Entry = Single(name: string, value: string) | Heredoc(name: string, value: string, delimiter: string)

  function Print(e: Entry): string {
    match e
    case Single(name, value) => name + "=" + value + "\n"
    case Heredoc(name, value, delimiter) => name + "<<" + delimiter + "\n" + value + "\n" + delimiter + "\n"
  }

  function PrintAll(es: seq<Entry>): string {
    if es == [] then "" else Print(es[0]) + PrintAll(es[1..])
  }

  /** The pieces of a value between line feeds. */
  function SplitLines(value: string): (ls: seq<string>)
    ensures ls != []
    decreases |value|
  {
    var i := IndexOf(value, '\n');
    if i == |value| then [value] else [value[..i]] + SplitLines(value[i + 1..])
  }

  function DropCRs(lines: seq<string>): (ls: seq<string>)
    ensures |ls| == |lines| && forall i | 0 <= i < |ls| :: ls[i] == DropCR(lines[i])
  {
    seq(|lines|, i requires 0 <= i < |lines| => DropCR(lines[i]))
  }

  function JoinFrom(content: string, lines: seq<string>): string
    decreases |lines|
  {
    if lines == [] then content else JoinFrom(Joined(content, lines[0]), lines[1..])
  }

  /** A name that a printed line is cut at in the right place. */
  predicate IsName(name: string) {
    '=' !in name && '\n' !in name && IndexOfHeredoc(name) == |name|
  }

  /** The entry is printed on lines of its own, and its delimiter ends it. */
  predicate IsPrintable(e: Entry) {
    match e
    case Single(name, value) => IsName(name) && '\n' !in value
    case Heredoc(name, value, delimiter) =>
      && IsName(name) && (name == "" || name[|name| - 1] != '<')
      && '\n' !in delimiter && DropCR(delimiter) == delimiter
      && delimiter !in DropCRs(SplitLines(value))
  }

  /** The value that is read back. */
  function ReadBack(e: Entry): string {
    match e
    case Single(_, value) => DropCR(value)
    case Heredoc(_, value, _) => JoinFrom("", DropCRs(SplitLines(value)))
  }

  /** Later entries override earlier ones. */
  function Merge(env: Env, es: seq<Entry>, values: Entry -> string): Env
    decreases |es|
  {
    if es == [] then env else Merge(env[es[0].name := values(es[0])], es[1..], values)
  }

  // ---------------------------------------------------------------- scanning what was printed

  lemma {:induction false} IndexOfIn(line: string, c: char, rest: string)
    requires c !in line
    ensures IndexOf(line + [c] + rest, c) == |line|
  {
    if line == "" {
      assert line + [c] + rest == [c] + rest;
    } else {
      assert (line + [c] + rest)[1..] == line[1..] + [c] + rest;
      IndexOfIn(line[1..], c, rest);
    }
  }

  lemma ScanLine(line: string, rest: string)
    requires '\n' !in line
    ensures ScanLines(line + "\n" + rest) == [DropCR(line)] + ScanLines(rest)
  {
    var text := line + "\n" + rest;
    IndexOfIn(line, '\n', rest);
    assert text[..|line|] == line && text[|line| + 1..] == rest;
  }

  lemma Regroup(value: string, i: nat, rest: string)
    requires i < |value| && value[i] == '\n'
    ensures value + "\n" + rest == value[..i] + "\n" + (value[i + 1..] + "\n" + rest)
  {
    assert value == value[..i] + "\n" + value[i + 1..];
  }

  lemma DropCRsCons(line: string, lines: seq<string>)
    ensures DropCRs([line] + lines) == [DropCR(line)] + DropCRs(lines)
  {
  }

  lemma {:induction false} ScanValue(value: string, rest: string)
    ensures ScanLines(value + "\n" + rest) == DropCRs(SplitLines(value)) + ScanLines(rest)
    decreases |value|
  {
    var i := IndexOf(value, '\n');
    if i == |value| {
      ScanLine(value, rest);
      assert DropCRs(SplitLines(value)) == [DropCR(value)];
    } else {
      var line, more := value[..i], value[i + 1..];
      Regroup(value, i, rest);
      ScanLine(line, more + "\n" + rest);
      ScanValue(more, rest);
      DropCRsCons(line, SplitLines(more));
      ConcatAssociative([DropCR(line)], DropCRs(SplitLines(more)), ScanLines(rest));
    }
  }

  // ---------------------------------------------------------------- parsing what was printed

  lemma {:induction false} HeredocIndex(name: string, rest: string)
    requires IndexOfHeredoc(name) == |name| && (name == "" || name[|name| - 1] != '<')
    ensures IndexOfHeredoc(name + "<<" + rest) == |name|
  {
    var s := name + "<<" + rest;
    if name == "" {
      assert s == "<<" + rest;
    } else {
      assert s[1..] == name[1..] + "<<" + rest;
      assert s[0] == name[0] && s[1] == (if |name| > 1 then name[1] else '<');
      assert IndexOfHeredoc(name) == 1 + IndexOfHeredoc(name[1..]);
      HeredocIndex(name[1..], rest);
    }
  }

  lemma {:induction false} NoHeredocBefore(name: string, rest: string)
    requires IndexOfHeredoc(name) == |name|
    ensures IndexOfHeredoc(name + "=" + rest) > |name|
  {
    var s := name + "=" + rest;
    if name == "" {
      assert s[0] == '=';
    } else {
      assert s[1..] == name[1..] + "=" + rest;
      assert s[0] == name[0] && s[1] == (if |name| > 1 then name[1] else '=');
      assert IndexOfHeredoc(name) == 1 + IndexOfHeredoc(name[1..]);
      NoHeredocBefore(name[1..], rest);
    }
  }

  lemma ParseSingle(name: string, value: string, rest: seq<string>, env: Env)
    requires IsName(name)
    ensures ParseLines([name + "=" + value] + rest, env) == ParseLines(rest, env[name := value])
  {
    var line := name + "=" + value;
    assert line[|name|] == '=' && '=' in line && !IsBlank(line);
    IndexOfIn(name, '=', value);
    NoHeredocBefore(name, value);
    assert line[..|name|] == name && line[|name| + 1..] == value;
    assert ([line] + rest)[1..] == rest;
  }

  lemma {:induction false} CollectValue(lines: seq<string>, delimiter: string, rest: seq<string>, content: string)
    requires delimiter !in lines
    ensures Collect(lines + [delimiter] + rest, delimiter, content) == Some((JoinFrom(content, lines), rest))
    decreases |lines|
  {
    var all := lines + [delimiter] + rest;
    if lines == [] {
      assert all == [delimiter] + rest;
      assert all[1..] == rest;
    } else {
      assert all[0] == lines[0] && all[1..] == lines[1..] + [delimiter] + rest;
      CollectValue(lines[1..], delimiter, rest, Joined(content, lines[0]));
    }
  }

  lemma ParseHeredoc(name: string, delimiter: string, lines: seq<string>, rest: seq<string>, env: Env)
    requires IsName(name) && (name == "" || name[|name| - 1] != '<') && delimiter !in lines
    ensures ParseLines([name + "<<" + delimiter] + (lines + [delimiter] + rest), env) ==
            ParseLines(rest, env[name := JoinFrom("", lines)])
  {
    var line := name + "<<" + delimiter;
    var after := lines + [delimiter] + rest;
    assert line[|name|] == '<' && '<' in line && !IsBlank(line);
    HeredocIndex(name, delimiter);
    EqualsAfter(name, delimiter);
    CollectValue(lines, delimiter, rest, "");
    assert line[..|name|] == name && line[|name| + 2..] == delimiter;
    assert ([line] + after)[1..] == after;
  }

  lemma EqualsAfter(name: string, delimiter: string)
    requires '=' !in name
    ensures IndexOf(name + "<<" + delimiter, '=') > |name|
  {
    var line := name + "<<" + delimiter;
    var i := IndexOf(line, '=');
    assert forall j | 0 <= j < |name| :: line[j] == name[j] && name[j] in name;
    assert line[|name|] == '<';
  }

  /** One printed entry, then the rest of the file. */
  lemma ParsePrinted(e: Entry, rest: string, env: Env)
    requires IsPrintable(e)
    ensures ParseLines(ScanLines(Print(e) + rest), env) == ParseLines(ScanLines(rest), env[e.name := ReadBack(e)])
  {
    match e {
      case Single(name, value) =>
        var line := name + "=" + value;
        assert Print(e) + rest == line + "\n" + rest;
        ScanLine(line, rest);
        DropCRSingle(name, value);
        ParseSingle(name, DropCR(value), ScanLines(rest), env);
      case Heredoc(name, value, delimiter) =>
        var line := name + "<<" + delimiter;
        var tail := delimiter + "\n" + rest;
        assert Print(e) + rest == line + "\n" + (value + "\n" + tail);
        ScanLine(line, value + "\n" + tail);
        ScanValue(value, tail);
        ScanLine(delimiter, rest);
        DropCRHeredoc(name, delimiter);
        var lines := DropCRs(SplitLines(value));
        ConcatAssociative(lines, [delimiter], ScanLines(rest));
        ParseHeredoc(name, delimiter, lines, ScanLines(rest), env);
    }
  }

  lemma DropCRSingle(name: string, value: string)
    ensures DropCR(name + "=" + value) == name + "=" + DropCR(value)
  {
    var line := name + "=" + value;
    assert line[|line| - 1] == (if value == "" then '=' else value[|value| - 1]);
    if value != "" {
      assert line[..|line| - 1] == name + "=" + value[..|value| - 1];
    }
  }

  lemma DropCRHeredoc(name: string, delimiter: string)
    requires DropCR(delimiter) == delimiter
    ensures DropCR(name + "<<" + delimiter) == name + "<<" + delimiter
  {
    var line := name + "<<" + delimiter;
    assert line[|line| - 1] == (if delimiter == "" then '<' else delimiter[|delimiter| - 1]);
  }

  /** A file of printable entries parses, without error, to the last value read back for each name. */
  lemma {:induction false} ParsePrintedFile(es: seq<Entry>, env: Env)
    requires forall e | e in es :: IsPrintable(e)
    ensures ParseLines(ScanLines(PrintAll(es)), env) == (Merge(env, es, ReadBack), None)
    decreases |es|
  {
    if es != [] {
      ParsePrinted(es[0], PrintAll(es[1..]), env);
      ParsePrintedFile(es[1..], env[es[0].name := ReadBack(es[0])]);
    }
  }

  // ---------------------------------------------------------------- when a value survives

  function StripNewlines(value: string): string {
    if value != "" && value[0] == '\n' then StripNewlines(value[1..]) else value
  }

  predicate EndsInCR(line: string) {
    line != "" && line[|line| - 1] == '\r'
  }

  lemma {:induction false} JoinContent(content: string, value: string)
    requires content != ""
    ensures JoinFrom(content, SplitLines(value)) == content + "\n" + value
    decreases |value|
  {
    SplitLinesOnce(value);
    hide IndexOf, SplitLines, JoinFrom;
    var i := IndexOf(value, '\n');
    if i == |value| {
      JoinOne(content, value);
    } else {
      var line, more := value[..i], value[i + 1..];
      JoinStep(content, line, SplitLines(more));
      JoinContent(Joined(content, line), more);
      JoinedText(content, value, i);
    }
  }

  lemma JoinedText(content: string, value: string, i: nat)
    requires content != "" && i < |value| && value[i] == '\n'
    ensures Joined(content, value[..i]) + "\n" + value[i + 1..] == content + "\n" + value
  {
    assert value == value[..i] + ("\n" + value[i + 1..]);
  }

  lemma JoinStep(content: string, line: string, lines: seq<string>)
    ensures JoinFrom(content, [line] + lines) == JoinFrom(Joined(content, line), lines)
  {
    assert ([line] + lines)[1..] == lines;
  }

  lemma JoinOne(content: string, line: string)
    ensures JoinFrom(content, [line]) == Joined(content, line)
  {
    assert [line][1..] == [];
    assert JoinFrom(Joined(content, line), []) == Joined(content, line);
  }

  lemma {:induction false} JoinValue(value: string)
    ensures JoinFrom("", SplitLines(value)) == StripNewlines(value)
    decreases |value|
  {
    var i := IndexOf(value, '\n');
    if i == |value| {
      JoinOne("", value);
      assert Joined("", value) == value;
    } else {
      var line, more := value[..i], value[i + 1..];
      JoinStep("", line, SplitLines(more));
      assert Joined("", line) == line;
      assert value == line + "\n" + more;
      if i == 0 {
        JoinValue(more);
      } else {
        JoinContent(line, more);
        assert value[0] == line[0] && line[0] in line;
      }
    }
  }

  lemma StripNewlinesLength(value: string)
    ensures StripNewlines(value) == value <==> !(value != "" && value[0] == '\n')
    ensures |StripNewlines(value)| <= |value|
  {
  }

  lemma NoCRs(lines: seq<string>)
    requires forall l | l in lines :: !EndsInCR(l)
    ensures DropCRs(lines) == lines
  {
    forall i | 0 <= i < |lines| ensures DropCR(lines[i]) == lines[i] {
      assert lines[i] in lines;
    }
  }

  /** A heredoc value whose lines do not end in carriage returns is read back without the line feeds it
      begins with. */
  lemma HeredocReadBack(e: Entry)
    requires e.Heredoc? && forall l | l in SplitLines(e.value) :: !EndsInCR(l)
    ensures ReadBack(e) == StripNewlines(e.value)
  {
    NoCRs(SplitLines(e.value));
    JoinValue(e.value);
  }

  /** The length of the lines, each with a line feed. */
  function Size(lines: seq<string>): nat {
    if lines == [] then 0 else |lines[0]| + 1 + Size(lines[1..])
  }

  lemma {:induction false} SplitSize(value: string)
    ensures Size(SplitLines(value)) == |value| + 1
    decreases |value|
  {
    var i := IndexOf(value, '\n');
    if i < |value| {
      SplitSize(value[i + 1..]);
    }
  }

  lemma {:induction false} JoinSize(content: string, lines: seq<string>)
    ensures |JoinFrom(content, lines)| <= |content| + Size(lines)
    ensures content == "" && lines != [] ==> |JoinFrom(content, lines)| < Size(lines)
    decreases |lines|
  {
    if lines != [] { JoinSize(Joined(content, lines[0]), lines[1..]); }
  }

  lemma {:induction false} DropCRsSize(lines: seq<string>)
    ensures Size(DropCRs(lines)) <= Size(lines)
    ensures (exists l | l in lines :: EndsInCR(l)) ==> Size(DropCRs(lines)) < Size(lines)
    decreases |lines|
  {
    if lines != [] {
      assert lines == [lines[0]] + lines[1..];
      DropCRsCons(lines[0], lines[1..]);
      DropCRsSize(lines[1..]);
    }
  }

  /** What a caller can check before printing: no line ends in a carriage return, and a heredoc value does
      not begin with a line feed. */
  predicate Survives(e: Entry) {
    match e
    case Single(_, value) => !EndsInCR(value)
    case Heredoc(_, value, _) =>
      (forall l | l in SplitLines(value) :: !EndsInCR(l)) && !(value != "" && value[0] == '\n')
  }

  /** A value is read back as it was exactly under that condition. */
  lemma SurvivesIff(e: Entry)
    ensures ReadBack(e) == e.value <==> Survives(e)
  {
    if e.Heredoc? {
      var lines := SplitLines(e.value);
      if exists l | l in lines :: EndsInCR(l) {
        SplitSize(e.value);
        JoinSize("", DropCRs(lines));
        DropCRsSize(lines);
      } else {
        HeredocReadBack(e);
        StripNewlinesLength(e.value);
      }
    }
  }

  function ValueOf(e: Entry): string {
    e.value
  }

  lemma {:induction false} MergeSame(env: Env, es: seq<Entry>)
    requires forall e | e in es :: Survives(e)
    ensures Merge(env, es, ReadBack) == Merge(env, es, ValueOf)
    decreases |es|
  {
    if es != [] {
      assert es[0] in es && Survives(es[0]);
      SurvivesIff(es[0]);
      MergeSame(env[es[0].name := es[0].value], es[1..]);
    }
  }

  /** Round trip: printing any list of such entries and parsing the file gives the last-wins map. */
  lemma RoundTrip(es: seq<Entry>, env: Env)
    requires forall e | e in es :: IsPrintable(e) && Survives(e)
    ensures ParseLines(ScanLines(PrintAll(es)), env) == (Merge(env, es, ValueOf), None)
  {
    ParsePrintedFile(es, env);
    MergeSame(env, es);
  }

  // ---------------------------------------------------------------- exportVariable

  predicate Contains(s: string, t: string) {
    exists i: nat | i <= |s| :: OccursAt(t, s, i)
  }

  /** The toolkit refuses a name or value that holds the delimiter; else it appends the heredoc. */
  function ExportVariable(name: string, value: string, delimiter: string): Option<string> {
    if Contains(name, delimiter) || Contains(value, delimiter) then None
    else Some(Print(Heredoc(name, value, delimiter)))
  }

  lemma ContainsBeyond(s: string, t: string, k: nat)
    requires k <= |s| && Contains(s[k..], t)
    ensures Contains(s, t)
  {
    var i: nat :| i <= |s[k..]| && OccursAt(t, s[k..], i);
    assert s[k..][i..i + |t|] == s[k + i..k + i + |t|];
    assert OccursAt(t, s, k + i);
  }

  lemma ContainsStart(s: string, t: string)
    requires t <= s
    ensures Contains(s, t)
  {
    assert OccursAt(t, s, 0);
  }

  lemma SplitStep(value: string)
    ensures var i := IndexOf(value, '\n');
            && SplitLines(value)[0] == value[..i]
            && SplitLines(value)[1..] == if i == |value| then [] else SplitLines(value[i + 1..])
  {
    SplitLinesOnce(value);
    hide IndexOf, SplitLines;
    var i := IndexOf(value, '\n');
    if i == |value| {
      assert value[..i] == value && [value][1..] == [];
    } else {
      assert ([value[..i]] + SplitLines(value[i + 1..]))[1..] == SplitLines(value[i + 1..]);
    }
  }

  lemma SplitLinesOnce(value: string)
    ensures var i := IndexOf(value, '\n');
            SplitLines(value) == if i == |value| then [value] else [value[..i]] + SplitLines(value[i + 1..])
  {
    hide IndexOf;
  }

  /** Every line of a value, with or without a carriage return at its end, stands in it. */
  lemma {:induction false} LineOccurs(value: string, k: nat)
    requires k < |SplitLines(value)|
    ensures Contains(value, DropCR(SplitLines(value)[k]))
    decreases |value|
  {
    SplitStep(value);
    hide Contains, SplitLines, IndexOf;
    var i := IndexOf(value, '\n');
    if k == 0 {
      ContainsStart(value, DropCR(value[..i]));
    } else {
      LineOccurs(value[i + 1..], k - 1);
      ContainsBeyond(value, DropCR(SplitLines(value)[k]), i + 1);
    }
  }

  lemma DelimiterNotALine(value: string, delimiter: string)
    requires !Contains(value, delimiter)
    ensures delimiter !in DropCRs(SplitLines(value))
  {
    hide Contains;
    forall k | 0 <= k < |SplitLines(value)| ensures DropCRs(SplitLines(value))[k] != delimiter {
      LineOccurs(value, k);
    }
  }

  /** What the toolkit exports is read back as exported exactly when no line of the value ends in a
      carriage return and the value does not begin with a line feed. */
  lemma ExportedIsRead(name: string, value: string, delimiter: string, rest: string, env: Env)
    requires IsName(name) && (name == "" || name[|name| - 1] != '<')
    requires '\n' !in delimiter && DropCR(delimiter) == delimiter
    requires ExportVariable(name, value, delimiter).Some?
    ensures var read := ReadBack(Heredoc(name, value, delimiter));
            && ParseLines(ScanLines(ExportVariable(name, value, delimiter).value + rest), env) ==
               ParseLines(ScanLines(rest), env[name := read])
            && (read == value <==> Survives(Heredoc(name, value, delimiter)))
  {
    hide ParseLines, ScanLines, ReadBack, Survives, Print;
    DelimiterNotALine(value, delimiter);
    ParsePrinted(Heredoc(name, value, delimiter), rest, env);
    SurvivesIff(Heredoc(name, value, delimiter));
  }

  // ---------------------------------------------------------------- names that are misread

  /** A name that the line it begins is cut behind. */
  predicate IsHeredocName(name: string) {
    IsName(name) && (name == "" || name[|name| - 1] != '<')
  }

  lemma {:induction false} KeysStay(lines: seq<string>, env: Env)
    ensures env.Keys <= ParseLines(lines, env).0.Keys
    decreases |lines|
  {
    hide IndexOf, IndexOfHeredoc, IsBlank;
    if lines != [] {
      var line := lines[0];
      var single, multi := IndexOf(line, '='), IndexOfHeredoc(line);
      if IsBlank(line) {
        KeysStay(lines[1..], env);
      } else if single < |line| && (multi == |line| || single < multi) {
        KeysStay(lines[1..], env[line[..single] := line[single + 1..]]);
      } else if multi < |line| {
        match Collect(lines[1..], line[multi + 2..], "") {
          case None =>
          case Some((content, rest)) => KeysStay(rest, env[line[..multi] := content]);
        }
      }
    }
  }

  ghost predicate NoFeeds(lines: seq<string>) {
    forall i | 0 <= i < |lines| :: '\n' !in lines[i]
  }

  lemma {:induction false} ScannedLinesHaveNoFeed(text: string)
    ensures NoFeeds(ScanLines(text))
    decreases |text|
  {
    if text != "" {
      hide IndexOf, NoFeeds;
      var i := IndexOf(text, '\n');
      var rest := if i < |text| then ScanLines(text[i + 1..]) else [];
      if i < |text| { ScannedLinesHaveNoFeed(text[i + 1..]); } else { NoLinesNoFeeds(); }
      NoFeedsCons(DropCR(text[..i]), rest);
    } else {
      NoLinesNoFeeds();
    }
  }

  lemma NoLinesNoFeeds()
    ensures NoFeeds([])
  {
  }

  lemma NoFeedsCons(line: string, lines: seq<string>)
    requires '\n' !in line && NoFeeds(lines)
    ensures NoFeeds([line] + lines)
  {
  }

  lemma {:induction false} CollectLeavesSuffix(lines: seq<string>, delimiter: string, content: string)
    requires NoFeeds(lines)
    ensures var r := Collect(lines, delimiter, content); r.Some? ==> NoFeeds(r.value.1)
    decreases |lines|
  {
    if lines != [] {
      assert forall i | 0 <= i < |lines[1..]| :: lines[1..][i] == lines[i + 1];
      if lines[0] != delimiter { CollectLeavesSuffix(lines[1..], delimiter, Joined(content, lines[0])); }
    }
  }

  /** No name that is read holds a line feed. */
  lemma {:induction false} KeysHaveNoFeed(lines: seq<string>, env: Env)
    requires NoFeeds(lines) && forall k | k in env :: '\n' !in k
    ensures forall k | k in ParseLines(lines, env).0 :: '\n' !in k
    decreases |lines|
  {
    hide IndexOf, IndexOfHeredoc, IsBlank;
    if lines != [] {
      var line := lines[0];
      var single, multi := IndexOf(line, '='), IndexOfHeredoc(line);
      assert NoFeeds(lines[1..]) by {
        assert forall i | 0 <= i < |lines[1..]| :: lines[1..][i] == lines[i + 1];
      }
      if IsBlank(line) {
        KeysHaveNoFeed(lines[1..], env);
      } else if single < |line| && (multi == |line| || single < multi) {
        assert '\n' !in line[..single];
        KeysHaveNoFeed(lines[1..], env[line[..single] := line[single + 1..]]);
      } else if multi < |line| {
        CollectLeavesSuffix(lines[1..], line[multi + 2..], "");
        match Collect(lines[1..], line[multi + 2..], "") {
          case None =>
          case Some((content, rest)) =>
            assert '\n' !in line[..multi];
            KeysHaveNoFeed(rest, env[line[..multi] := content]);
        }
      }
    }
  }

  /** A first line that is cut before k gives a key shorter than k, or an error. */
  lemma CutEarly(line: string, lines: seq<string>, k: nat)
    requires !IsBlank(line) && k <= |line|
    requires IndexOf(line, '=') < k || IndexOfHeredoc(line) < k
    ensures var (r, err) := ParseLines([line] + lines, map[]);
            err.Some? || exists key | key in r :: |key| < k
  {
    hide IndexOf, IndexOfHeredoc, IsBlank;
    assert ([line] + lines)[1..] == lines;
    var single, multi := IndexOf(line, '='), IndexOfHeredoc(line);
    if single < |line| && (multi == |line| || single < multi) {
      KeysStay(lines, map[line[..single] := line[single + 1..]]);
      assert |line[..single]| < k;
    } else if multi < |line| {
      match Collect(lines, line[multi + 2..], "") {
        case None =>
        case Some((content, rest)) =>
          KeysStay(rest, map[line[..multi] := content]);
          assert |line[..multi]| < k;
      }
    }
  }

  lemma EarlyCut(name: string, delimiter: string)
    requires '\n' !in name && !IsHeredocName(name)
    ensures var line := name + "<<" + delimiter;
            !IsBlank(line) && (IndexOf(line, '=') < |name| || IndexOfHeredoc(line) < |name|)
  {
    var line := name + "<<" + delimiter;
    assert line[|name|] == '<' && '<' in line;
    assert forall k | 0 <= k < |name| :: line[k] == name[k];
    if '=' in name {
      var k :| 0 <= k < |name| && name[k] == '=';
      assert line[k] == '=';
    } else {
      var k := if IndexOfHeredoc(name) < |name| then IndexOfHeredoc(name) else |name| - 1;
      assert line[k] == '<' && line[k + 1] == '<';
    }
  }

  /** What exportVariable writes is read back as it was meant exactly when the name has no equals sign, no
      line feed and no "<<", and does not end in '<', no line of the value ends in a carriage return, and
      the value does not begin with a line feed. */
  lemma ExportReadIff(name: string, value: string, delimiter: string)
    requires '\n' !in delimiter && DropCR(delimiter) == delimiter
    requires ExportVariable(name, value, delimiter).Some?
    ensures ParseLines(ScanLines(ExportVariable(name, value, delimiter).value), map[]) ==
            (map[name := value], None) <==>
            IsHeredocName(name) && Survives(Heredoc(name, value, delimiter))
  {
    hide ParseLines, ScanLines, ReadBack, Survives, IsBlank, IndexOf, IndexOfHeredoc, IsName, Contains;
    var text := ExportVariable(name, value, delimiter).value;
    if IsHeredocName(name) {
      ExportedIsRead(name, value, delimiter, "", map[]);
      assert text + "" == text;
      NothingToScan(map[name := ReadBack(Heredoc(name, value, delimiter))]);
      assert map[][name := ReadBack(Heredoc(name, value, delimiter))] == map[name := value] ==>
        ReadBack(Heredoc(name, value, delimiter)) == value by {
        if map[][name := ReadBack(Heredoc(name, value, delimiter))] == map[name := value] {
          assert map[name := value][name] == value;
        }
      }
    } else if '\n' in name {
      ScannedLinesHaveNoFeed(text);
      KeysHaveNoFeed(ScanLines(text), map[]);
      assert name in map[name := value];
    } else {
      EarlyCut(name, delimiter);
      FirstLine(name, value, delimiter);
      var lines := ScanLines(value + "\n" + delimiter + "\n");
      CutEarly(name + "<<" + delimiter, lines, |name|);
      assert forall key | key in map[name := value] :: |key| == |name|;
    }
  }

  lemma NothingToScan(env: Env)
    ensures ParseLines(ScanLines(""), env) == (env, None)
  {
  }

  lemma FirstLine(name: string, value: string, delimiter: string)
    requires '\n' !in name && '\n' !in delimiter && DropCR(delimiter) == delimiter
    ensures ScanLines(Print(Heredoc(name, value, delimiter))) ==
            [name + "<<" + delimiter] + ScanLines(value + "\n" + delimiter + "\n")
  {
    hide ScanLines;
    var line, rest := name + "<<" + delimiter, value + "\n" + delimiter + "\n";
    assert Print(Heredoc(name, value, delimiter)) == line + "\n" + rest;
    ScanLine(line, rest);
    DropCRHeredoc(name, delimiter);
  }

  /** A value that begins with a line feed is exported and comes back without it. */
  lemma LeadingFeedIsLost()
    ensures ExportVariable("n", "\nx", "EOF").Some?
    ensures ParseLines(ScanLines(ExportVariable("n", "\nx", "EOF").value), map[]) == (map["n" := "x"], None)
  {
    NoEOF();
    FeedThenX();
    hide *;
    FeedExported();
  }

  lemma FeedThenX()
    ensures forall l | l in SplitLines("\nx") :: !EndsInCR(l)
    ensures StripNewlines("\nx") == "x" && IsName("n")
  {
    assert IndexOf("\nx", '\n') == 0 && IndexOf("x", '\n') == 1 && "\nx"[1..] == "x";
    assert SplitLines("x") == ["x"];
    assert SplitLines("\nx") == [""] + ["x"];
    assert StripNewlines("x") == "x";
    assert IndexOfHeredoc("") == 0 && IndexOfHeredoc("n") == 1;
  }

  lemma FeedExported()
    requires !Contains("n", "EOF") && !Contains("\nx", "EOF")
    requires (forall l | l in SplitLines("\nx") :: !EndsInCR(l)) && StripNewlines("\nx") == "x" && IsName("n")
    ensures ExportVariable("n", "\nx", "EOF").Some?
    ensures ParseLines(ScanLines(ExportVariable("n", "\nx", "EOF").value), map[]) == (map["n" := "x"], None)
  {
    hide ParseLines, ScanLines, ReadBack, Print, Contains, SplitLines, EndsInCR, StripNewlines, IsName;
    HeredocReadBack(Heredoc("n", "\nx", "EOF"));
    ExportedIsRead("n", "\nx", "EOF", "", map[]);
    var text := ExportVariable("n", "\nx", "EOF").value;
    assert text + "" == text;
    NothingToScan(map["n" := "x"]);
  }

  lemma NoEOF()
    ensures !Contains("n", "EOF") && !Contains("\nx", "EOF")
  {
  }

  /** A name with an equals sign is exported and read as another name. */
  lemma EqualsInNameIsMisread(value: string, delimiter: string)
    requires '\n' !in delimiter && DropCR(delimiter) == delimiter
    requires ExportVariable("a=b", value, delimiter).Some?
    ensures ParseLines(ScanLines(ExportVariable("a=b", value, delimiter).value), map[]) !=
            (map["a=b" := value], None)
  {
    ExportReadIff("a=b", value, delimiter);
    assert "a=b"[1] == '=' && '=' in "a=b";
  }

  // ---------------------------------------------------------------- blank lines

  lemma {:induction false} CollectAppend(lines: seq<string>, more: seq<string>, delimiter: string, content: string)
    requires Collect(lines, delimiter, content).Some?
    ensures Collect(lines + more, delimiter, content) ==
            Some((Collect(lines, delimiter, content).value.0, Collect(lines, delimiter, content).value.1 + more))
    decreases |lines|
  {
    assert (lines + more)[1..] == lines[1..] + more;
    if lines[0] != delimiter {
      CollectAppend(lines[1..], more, delimiter, Joined(content, lines[0]));
    }
  }

  /** What follows lines that end between two entries is parsed on top of them. */
  lemma {:induction false} ParseAppend(lines: seq<string>, more: seq<string>, env: Env)
    requires ParseLines(lines, env).1 == None
    ensures ParseLines(lines + more, env) == ParseLines(more, ParseLines(lines, env).0)
    decreases |lines|
  {
    hide IndexOf, IndexOfHeredoc, IsBlank;
    if lines == [] {
      assert lines + more == more;
    } else {
      var line, single, multi := lines[0], IndexOf(lines[0], '='), IndexOfHeredoc(lines[0]);
      assert (lines + more)[1..] == lines[1..] + more;
      if IsBlank(line) {
        ParseAppend(lines[1..], more, env);
      } else if single < |line| && (multi == |line| || single < multi) {
        ParseAppend(lines[1..], more, env[line[..single] := line[single + 1..]]);
      } else if multi < |line| {
        var (content, rest) := Collect(lines[1..], line[multi + 2..], "").value;
        CollectAppend(lines[1..], more, line[multi + 2..], "");
        ParseAppend(rest, more, env[line[..multi] := content]);
      }
    }
  }

  /** A blank line between two entries changes nothing. */
  lemma BlankIsSkipped(lines: seq<string>, blank: string, more: seq<string>, env: Env)
    requires ParseLines(lines, env).1 == None && forall c | c in blank :: IsSpace(c)
    ensures ParseLines(lines + ([blank] + more), env) == ParseLines(lines + more, env)
  {
    ParseAppend(lines, [blank] + more, env);
    ParseAppend(lines, more, env);
    hide IndexOf, IndexOfHeredoc;
    assert ([blank] + more)[1..] == more;
  }

  // ---------------------------------------------------------------- malformed files

  /** A line that is neither blank nor an entry ends the parse with an error; the entries before it stay. */
  lemma MalformedStops(lines: seq<string>, line: string, more: seq<string>, env: Env)
    requires ParseLines(lines, env).1 == None
    requires (exists c | c in line :: !IsSpace(c)) && '=' !in line
    requires forall k | 0 <= k < |line| - 1 :: !(line[k] == '<' && line[k + 1] == '<')
    ensures ParseLines(lines + ([line] + more), env) == (ParseLines(lines, env).0, Some(InvalidFormat(line)))
  {
    ParseAppend(lines, [line] + more, env);
    assert ([line] + more)[0] == line;
    assert IndexOf(line, '=') == |line| && IndexOfHeredoc(line) == |line| && !IsBlank(line);
  }

  /** So does a heredoc whose delimiter does not come. */
  lemma UnclosedStops(lines: seq<string>, name: string, delimiter: string, more: seq<string>, env: Env)
    requires ParseLines(lines, env).1 == None && IsHeredocName(name) && delimiter !in more
    ensures ParseLines(lines + ([name + "<<" + delimiter] + more), env) ==
            (ParseLines(lines, env).0, Some(DelimiterNotFound(delimiter)))
  {
    var line := name + "<<" + delimiter;
    ParseAppend(lines, [line] + more, env);
    HeredocIndex(name, delimiter);
    EqualsAfter(name, delimiter);
    NothingCollected(more, delimiter, "");
    assert line[|name|] == '<' && '<' in line && !IsBlank(line);
    assert line[|name| + 2..] == delimiter;
    assert ([line] + more)[0] == line && ([line] + more)[1..] == more;
  }

  lemma {:induction false} NothingCollected(lines: seq<string>, delimiter: string, content: string)
    requires delimiter !in lines
    ensures Collect(lines, delimiter, content) == None
    decreases |lines|
  {
    if lines != [] {
      assert lines[0] in lines;
      NothingCollected(lines[1..], delimiter, Joined(content, lines[0]));
    }
  }
}
