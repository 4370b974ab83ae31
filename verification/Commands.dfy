/** Workflow commands: the escapes, the patterns that recognise a command line, and the toolkit's printer. */
module Commands {
  import opened Basics

  // ---------------------------------------------------------------- escapes

  /** One character as the runner escapes it, all replacements at once. */
  function EscapeChar(c: char): string {
    match c
    case '%' => "%25"
    case '\r' => "%0D"
    case '\n' => "%0A"
    case _ => [c]
  }

  function EscapeCommandData(arg: string): string {
    if arg == "" then "" else EscapeChar(arg[0]) + EscapeCommandData(arg[1..])
  }

  /** The character an escape at the head of arg stands for, with the escape's length. */
  function DataEscape(arg: string): (char, nat)
    requires arg != ""
    ensures 0 < DataEscape(arg).1 <= |arg|
  {
    if |arg| >= 3 && arg[..3] == "%25" then ('%', 3)
    else if |arg| >= 3 && arg[..3] == "%0D" then ('\r', 3)
    else if |arg| >= 3 && arg[..3] == "%0A" then ('\n', 3)
    else (arg[0], 1)
  }

  function PropertyEscape(arg: string): (char, nat)
    requires arg != ""
    ensures 0 < PropertyEscape(arg).1 <= |arg|
  {
    if |arg| >= 3 && arg[..3] == "%3A" then (':', 3)
    else if |arg| >= 3 && arg[..3] == "%2C" then (',', 3)
    else DataEscape(arg)
  }

  /** What is written is not scanned again. */
  function UnescapeCommandData(arg: string): string {
    if arg == "" then "" else var (c, n) := DataEscape(arg); [c] + UnescapeCommandData(arg[n..])
  }

  function UnescapeCommandProperty(arg: string): string {
    if arg == "" then "" else var (c, n) := PropertyEscape(arg); [c] + UnescapeCommandProperty(arg[n..])
  }

  /** Every c in s replaced, as one pass of the toolkit does. */
  function ReplaceAll(s: string, c: char, to: string): string {
    if s == "" then "" else (if s[0] == c then to else [s[0]]) + ReplaceAll(s[1..], c, to)
  }

  /** The toolkit's passes, one after the other. */
  function EscapeData(s: string): string {
    ReplaceAll(ReplaceAll(ReplaceAll(s, '%', "%25"), '\r', "%0D"), '\n', "%0A")
  }

  function EscapeProperty(s: string): string {
    ReplaceAll(ReplaceAll(EscapeData(s), ':', "%3A"), ',', "%2C")
  }

  lemma {:induction false} ReplaceAppend(s: string, t: string, c: char, to: string)
    ensures ReplaceAll(s + t, c, to) == ReplaceAll(s, c, to) + ReplaceAll(t, c, to)
  {
    if s == "" {
      assert s + t == t;
    } else {
      assert (s + t)[1..] == s[1..] + t;
      ReplaceAppend(s[1..], t, c, to);
    }
  }

  lemma {:induction false} ReplaceNone(s: string, c: char, to: string)
    requires c !in s
    ensures ReplaceAll(s, c, to) == s
  {
    if s != "" { ReplaceNone(s[1..], c, to); }
  }

  lemma EscapeDataCons(s: string)
    requires s != ""
    ensures EscapeData(s) == EscapeChar(s[0]) + EscapeData(s[1..])
  {
    var h := if s[0] == '%' then "%25" else [s[0]];
    var t := ReplaceAll(s[1..], '%', "%25");
    assert ReplaceAll(s, '%', "%25") == h + t;
    ReplaceAppend(h, t, '\r', "%0D");
    var h' := if h == "\r" then "%0D" else h;
    ReplaceHead(h, '\r', "%0D");
    ReplaceAppend(h', ReplaceAll(t, '\r', "%0D"), '\n', "%0A");
    ReplaceHead(h', '\n', "%0A");
  }

  /** A head of one character, or one the pass leaves alone. */
  lemma ReplaceHead(h: string, c: char, to: string)
    requires |h| == 1 || c !in h
    ensures ReplaceAll(h, c, to) == if h == [c] then to else h
  {
    if c !in h {
      ReplaceNone(h, c, to);
    } else {
      assert h == [c] && h[1..] == "";
      assert ReplaceAll("", c, to) == "";
    }
  }

  /** Three passes escape as one simultaneous replacement does. */
  lemma {:induction false} SequentialDataEscape(s: string)
    ensures EscapeData(s) == EscapeCommandData(s)
  {
    if s != "" {
      EscapeDataCons(s);
      SequentialDataEscape(s[1..]);
    }
  }

  function EscapePropertyChar(c: char): string {
    match c
    case ':' => "%3A"
    case ',' => "%2C"
    case _ => EscapeChar(c)
  }

  /** Five passes escape each character on its own. */
  lemma EscapePropertyCons(s: string)
    requires s != ""
    ensures EscapeProperty(s) == EscapePropertyChar(s[0]) + EscapeProperty(s[1..])
  {
    EscapeDataCons(s);
    LastPasses(EscapeChar(s[0]), EscapeData(s[1..]));
  }

  lemma LastPasses(h: string, t: string)
    requires |h| == 1 || (':' !in h && ',' !in h)
    ensures ReplaceAll(ReplaceAll(h + t, ':', "%3A"), ',', "%2C") ==
            (if h == ":" then "%3A" else if h == "," then "%2C" else h) +
            ReplaceAll(ReplaceAll(t, ':', "%3A"), ',', "%2C")
  {
    hide ReplaceAll;
    ReplaceAppend(h, t, ':', "%3A");
    var h' := if h == ":" then "%3A" else h;
    ReplaceHead(h, ':', "%3A");
    ReplaceAppend(h', ReplaceAll(t, ':', "%3A"), ',', "%2C");
    ReplaceHead(h', ',', "%2C");
  }

  lemma DataEscapeRead(c: char, rest: string)
    ensures DataEscape(EscapeChar(c) + rest) == (c, |EscapeChar(c)|)
  {
    var e := EscapeChar(c) + rest;
    assert c in "%\r\n" ==> e[..3] == EscapeChar(c);
    assert |e| >= 3 ==> e[..3][0] == e[0];
  }

  lemma PropertyEscapeRead(c: char, rest: string)
    ensures PropertyEscape(EscapePropertyChar(c) + rest) == (c, |EscapePropertyChar(c)|)
  {
    var e := EscapePropertyChar(c) + rest;
    if c == ':' || c == ',' {
      assert e[..3] == EscapePropertyChar(c);
    } else {
      DataEscapeRead(c, rest);
      assert c in "%\r\n" ==> e[..3] == EscapeChar(c);
      assert |e| >= 3 ==> e[..3][0] == e[0];
    }
  }

  /** Unescaping inverts the runner's own escape, for every string. */
  lemma {:induction false} DataRoundTrip(s: string)
    ensures UnescapeCommandData(EscapeCommandData(s)) == s
  {
    if s != "" {
      DataEscapeRead(s[0], EscapeCommandData(s[1..]));
      DataRoundTrip(s[1..]);
    }
  }

  /** And the toolkit's. */
  lemma ToolkitDataRoundTrip(s: string)
    ensures UnescapeCommandData(EscapeData(s)) == s
  {
    SequentialDataEscape(s);
    DataRoundTrip(s);
  }

  lemma {:induction false} PropertyRoundTrip(s: string)
    ensures UnescapeCommandProperty(EscapeProperty(s)) == s
  {
    if s != "" {
      EscapePropertyCons(s);
      PropertyEscapeRead(s[0], EscapeProperty(s[1..]));
      PropertyRoundTrip(s[1..]);
    }
  }

  predicate IsBreak(c: char) {
    c == '\r' || c == '\n'
  }

  lemma {:induction false} EscapedHasNoBreak(s: string)
    ensures forall c | c in EscapeCommandData(s) :: !IsBreak(c)
  {
    if s != "" { EscapedHasNoBreak(s[1..]); }
  }

  predicate IsPlainChar(c: char) {
    !IsBreak(c) && c != ',' && c != ':'
  }

  lemma {:induction false} EscapedPropertyIsPlain(s: string)
    ensures forall c | c in EscapeProperty(s) :: IsPlainChar(c)
    ensures s != "" ==> EscapeProperty(s) != ""
  {
    if s != "" {
      hide EscapeProperty;
      EscapePropertyCons(s);
      EscapedPropertyIsPlain(s[1..]);
    }
  }

  lemma {:induction false} EscapedPropertyEquals(s: string)
    ensures '=' in EscapeProperty(s) <==> '=' in s
  {
    if s != "" {
      hide EscapeProperty;
      EscapePropertyCons(s);
      EscapedPropertyEquals(s[1..]);
      assert s == [s[0]] + s[1..];
    }
  }

  lemma {:induction false} UnescapeAddsNoEquals(s: string)
    requires '=' !in s
    ensures '=' !in UnescapeCommandProperty(s)
  {
    if s != "" { UnescapeAddsNoEquals(s[PropertyEscape(s).1..]); }
  }

  // ---------------------------------------------------------------- property lists

  function Split(s: string, c: char): (parts: seq<string>)
    ensures parts != []
    ensures forall i | 0 <= i < |parts| :: c !in parts[i] && forall x | x in parts[i] :: x in s
    decreases |s|
  {
    var i := IndexOf(s, c);
    if i == |s| then [s] else [s[..i]] + Split(s[i + 1..], c)
  }

  function Join(parts: seq<string>, c: char): string
    requires parts != []
  {
    if |parts| == 1 then parts[0] else parts[0] + [c] + Join(parts[1..], c)
  }

  lemma {:induction false} SplitCons(head: string, c: char, rest: string)
    requires c !in head
    ensures Split(head + [c] + rest, c) == [head] + Split(rest, c)
  {
    var s := head + [c] + rest;
    assert s[|head|] == c;
    assert forall j | 0 <= j < |head| :: s[j] == head[j] && head[j] in head;
    assert IndexOf(s, c) == |head|;
    assert s[..|head|] == head && s[|head| + 1..] == rest;
  }

  lemma {:induction false} SplitJoin(parts: seq<string>, c: char)
    requires parts != [] && forall i | 0 <= i < |parts| :: c !in parts[i]
    ensures Split(Join(parts, c), c) == parts
  {
    if |parts| == 1 {
      assert IndexOf(parts[0], c) == |parts[0]|;
    } else {
      SplitCons(parts[0], c, Join(parts[1..], c));
      SplitJoin(parts[1..], c);
    }
  }

  /** The pieces that are one key and one value; a later piece overrides. */
  function PairsOf(pieces: seq<string>, pairs: map<string, string>): (r: map<string, string>)
    decreases |pieces|
  {
    if pieces == [] then pairs else
      var kv := Split(pieces[0], '=');
      PairsOf(pieces[1..], if |kv| == 2 then pairs[kv[0] := kv[1]] else pairs)
  }

  method ParseKeyValuePairs(kvPairs: string, separator: char) returns (rtn: map<string, string>)
    ensures rtn == PairsOf(Split(kvPairs, separator), map[])
  {
    hide Split;
    rtn := map[];
    var pieces := Split(kvPairs, separator);
    var i := 0;
    while i < |pieces|
      invariant i <= |pieces|
      invariant PairsOf(pieces[i..], rtn) == PairsOf(pieces, map[])
    {
      var kv := Split(pieces[i], '=');
      assert pieces[i..][1..] == pieces[i + 1..];
      if |kv| == 2 {
        rtn := rtn[kv[0] := kv[1]];
      }
      i := i + 1;
    }
  }

  // ---------------------------------------------------------------- the patterns

  /** The two forms of a command line: `::name k=v,k=v::data` and `##[name k=v;k=v]data`. */
  datatype Form = Form(opening: string, closing: string, separator: char)

  const GA := Form("::", "::", ',')
  const ADO := Form("##[", "]", ';')

  /** The first carriage return or line feed at or after i. */
  function BreakFrom(line: string, i: nat): (e: nat)
    requires i <= |line|
    ensures i <= e <= |line| && (e < |line| ==> IsBreak(line[e]))
    ensures forall k | i <= k < e :: !IsBreak(line[k])
    decreases |line| - i
  {
    if i == |line| || IsBreak(line[i]) then i else BreakFrom(line, i + 1)
  }

  /** The closing mark is at j, and after it data to the line's end and at least one line break. */
  predicate ClosesAt(f: Form, line: string, j: nat) {
    && OccursAt(f.closing, line, j)
    && var e := BreakFrom(line, j + |f.closing|);
    && e < |line|
    && forall k | e <= k < |line| :: IsBreak(line[k])
  }

  /** The pattern matches with the name ending at n and the closing mark at j: at n itself when there are
      no properties, else after a space and at least one character. */
  predicate MatchesAt(f: Form, line: string, n: nat, j: nat) {
    && OccursAt(f.opening, line, 0)
    && |f.opening| < n <= j
    && ClosesAt(f, line, j)
    && (forall k | |f.opening| <= k < n :: line[k] != ' ')
    && (j == n || (line[n] == ' ' && n + 1 < j && forall k | n < k < j :: line[k] != '\n'))
  }

  /** Greedy matching tries the longer properties first, and none last. */
  function LastClose(f: Form, line: string, n: nat, j: nat): (r: Option<nat>)
    ensures r.Some? ==> r.value <= j && MatchesAt(f, line, n, r.value)
    ensures forall j': nat | j' <= j && MatchesAt(f, line, n, j') :: r.Some? && j' <= r.value
  {
    if MatchesAt(f, line, n, j) then Some(j)
    else if j == 0 then None
    else LastClose(f, line, n, j - 1)
  }

  /** The longer names first. */
  function LastName(f: Form, line: string, n: nat): (r: Option<(nat, nat)>)
    ensures r.Some? ==> r.value.0 <= n && MatchesAt(f, line, r.value.0, r.value.1)
    ensures forall n': nat, j | n' <= n && MatchesAt(f, line, n', j) :: r.Some? && NotAfter(n', j, r.value)
  {
    match LastClose(f, line, n, |line|)
    case Some(j) => Some((n, j))
    case None => if n == 0 then None else LastName(f, line, n - 1)
  }

  predicate NotAfter(n: nat, j: nat, p: (nat, nat)) {
    n < p.0 || (n == p.0 && j <= p.1)
  }

  function FindSubmatch(f: Form, line: string): (r: Option<(nat, nat)>)
    ensures r.Some? ==> MatchesAt(f, line, r.value.0, r.value.1)
    ensures forall n, j | MatchesAt(f, line, n, j) :: r.Some? && NotAfter(n, j, r.value)
  {
    LastName(f, line, |line|)
  }

  datatype Command = Command(name: string, properties: map<string, string>, arg: string)

  function Parts(f: Form, line: string, n: nat, j: nat): Command
    requires MatchesAt(f, line, n, j)
  {
    var i := j + |f.closing|;
    Command(line[|f.opening|..n],
            PairsOf(Split(if j == n then "" else line[n + 1..j], f.separator), map[]),
            line[i..BreakFrom(line, i)])
  }

  function TryParseRawActionCommand(line: string): Option<Command> {
    match FindSubmatch(GA, line)
    case Some((n, j)) => Some(Parts(GA, line, n, j))
    case None =>
      match FindSubmatch(ADO, line)
      case Some((n, j)) => Some(Parts(ADO, line, n, j))
      case None => None
  }

  /** The command with its data and properties unescaped, as the handler acts on it. */
  function Unescaped(c: Command): Command {
    c.(properties := map k | k in c.properties :: UnescapeCommandProperty(c.properties[k]),
       arg := UnescapeCommandData(c.arg))
  }

  function Received(line: string): Option<Command> {
    match TryParseRawActionCommand(line)
    case None => None
    case Some(c) => Some(Unescaped(c))
  }

  /** The line breaks a match ends in. */
  function Ending(f: Form, line: string, j: nat): string
    requires ClosesAt(f, line, j)
  {
    line[BreakFrom(line, j + |f.closing|)..]
  }

  function Whole(f: Form, name: string, list: string, arg: string, ending: string): string {
    Pieces(f.opening, name, list, f.closing, arg, ending)
  }

  function Pieces(a: string, b: string, c: string, d: string, e: string, f: string): string {
    a + (b + (c + (d + (e + f))))
  }

  /** A match divides the whole line into the pattern's groups. */
  lemma MatchIsWholeLine(f: Form, line: string, n: nat, j: nat)
    requires MatchesAt(f, line, n, j)
    ensures line == Whole(f, Parts(f, line, n, j).name, if j == n then "" else " " + line[n + 1..j],
                          Parts(f, line, n, j).arg, Ending(f, line, j))
  {
    hide PairsOf, Split, BreakFrom, Whole, OccursAt;
    CutMatch(f, line, n, j, BreakFrom(line, j + |f.closing|));
  }

  lemma CutMatch(f: Form, line: string, n: nat, j: nat, e: nat)
    requires OccursAt(f.opening, line, 0) && OccursAt(f.closing, line, j)
    requires |f.opening| <= n <= j && j + |f.closing| <= e <= |line|
    requires j > n ==> line[n] == ' '
    ensures line == Whole(f, line[|f.opening|..n], if j == n then "" else " " + line[n + 1..j],
                          line[j + |f.closing|..e], line[e..])
  {
    assert line[0..|f.opening|] == f.opening && line[j..j + |f.closing|] == f.closing;
    hide OccursAt, Pieces;
    Cut(line, |f.opening|, n, j, j + |f.closing|, e);
    SplitSpace(line, n, j);
  }

  lemma SplitSpace(line: string, n: nat, j: nat)
    requires n <= j <= |line| && (j > n ==> line[n] == ' ')
    ensures line[n..j] == if j == n then "" else " " + line[n + 1..j]
  {
  }

  lemma Cut(s: string, a: nat, b: nat, c: nat, d: nat, e: nat)
    requires a <= b <= c <= d <= e <= |s|
    ensures s == Pieces(s[0..a], s[a..b], s[b..c], s[c..d], s[d..e], s[e..])
  {
    assert s[0..] == s;
    SplitAt(s, 0, a);
    SplitAt(s, a, b);
    SplitAt(s, b, c);
    SplitAt(s, c, d);
    SplitAt(s, d, e);
  }

  // ---------------------------------------------------------------- the toolkit's printer

  datatype Property = Property(key: string, value: string)

  function NameOf(command: string): string {
    if command == "" then "missing.command" else command
  }

  function PrintProperty(p: Property): string {
    p.key + "=" + EscapeProperty(p.value)
  }

  /** Properties with an empty value are not printed. */
  function Printed(properties: seq<Property>): seq<Property> {
    if properties == [] then []
    else (if properties[0].value == "" then [] else [properties[0]]) + Printed(properties[1..])
  }

  function PrintEach(properties: seq<Property>): (r: seq<string>)
    ensures |r| == |properties|
    ensures forall i | 0 <= i < |r| :: r[i] == PrintProperty(properties[i])
  {
    if properties == [] then [] else [PrintProperty(properties[0])] + PrintEach(properties[1..])
  }

  function PrintList(properties: seq<Property>): string {
    if properties == [] then "" else Join(PrintEach(properties), ',')
  }

  function Middle(properties: seq<Property>): string {
    if properties == [] then "" else " " + PrintList(Printed(properties))
  }

  function Print(command: string, properties: seq<Property>, message: string): string {
    "::" + NameOf(command) + Middle(properties) + "::" + EscapeData(message)
  }

  lemma {:induction false} PrintedAppend(ps: seq<Property>, p: Property)
    ensures Printed(ps + [p]) == Printed(ps) + (if p.value == "" then [] else [p])
  {
    if ps == [] {
      assert ps + [p] == [p] && [p][1..] == [] && Printed([]) == [];
    } else {
      assert (ps + [p])[1..] == ps[1..] + [p];
      PrintedAppend(ps[1..], p);
      ConcatAssociative(if ps[0].value == "" then [] else [ps[0]], Printed(ps[1..]), if p.value == "" then [] else [p]);
    }
  }

  lemma {:induction false} JoinSnoc(parts: seq<string>, last: string, c: char)
    requires parts != []
    ensures Join(parts + [last], c) == Join(parts, c) + [c] + last
  {
    assert (parts + [last])[1..] == parts[1..] + [last];
    if |parts| > 1 {
      JoinSnoc(parts[1..], last, c);
      var j := Join(parts[1..], c);
      assert parts[0] + [c] + (j + [c] + last) == (parts[0] + [c] + j) + [c] + last;
    } else {
      assert Join([last], c) == last;
    }
  }

  lemma {:induction false} PrintEachAppend(ps: seq<Property>, p: Property)
    ensures PrintEach(ps + [p]) == PrintEach(ps) + [PrintProperty(p)]
  {
  }

  lemma PrintListSnoc(ps: seq<Property>, p: Property)
    ensures PrintList(ps + [p]) == (if ps == [] then "" else PrintList(ps) + ",") + PrintProperty(p)
  {
    PrintEachAppend(ps, p);
    if ps != [] { JoinSnoc(PrintEach(ps), PrintProperty(p), ','); }
  }

  lemma PrintListStep(ps: seq<Property>, i: nat)
    requires i < |ps|
    ensures var before, after := Printed(ps[..i]), Printed(ps[..i + 1]);
            if ps[i].value == "" then after == before
            else && after != []
                 && PrintList(after) == (if before == [] then "" else PrintList(before) + ",") + PrintProperty(ps[i])
  {
    hide PrintList, PrintProperty;
    assert ps[..i + 1] == ps[..i] + [ps[i]];
    PrintedAppend(ps[..i], ps[i]);
    PrintListSnoc(Printed(ps[..i]), ps[i]);
  }

  method ToString(command: string, properties: seq<Property>, message: string) returns (cmdStr: string)
    ensures cmdStr == Print(command, properties, message)
  {
    hide EscapeProperty, EscapeData, Join;
    var name := if command == "" then "missing.command" else command;
    cmdStr := "::" + name;
    if |properties| > 0 {
      var list, first, i := "", true, 0;
      while i < |properties|
        invariant i <= |properties|
        invariant first <==> Printed(properties[..i]) == []
        invariant list == PrintList(Printed(properties[..i]))
      {
        var p := properties[i];
        PrintListStep(properties, i);
        if p.value != "" {
          list := if first then "" else list + ",";
          first := false;
          list := list + (p.key + "=" + EscapeProperty(p.value));
        }
        i := i + 1;
      }
      assert properties[..i] == properties;
      cmdStr := cmdStr + (" " + list);
    }
    cmdStr := cmdStr + "::" + EscapeData(message);
  }

  // ---------------------------------------------------------------- a printed line

  predicate AllBreaks(s: string) {
    forall c | c in s :: IsBreak(c)
  }

  /** A line made of a name ending at n0, an optional space and list up to j0, the closing mark, data up
      to e0, and line breaks. Neither name nor list need be fit for the pattern. */
  predicate Layout(line: string, n0: nat, j0: nat, e0: nat) {
    && 2 < n0 <= j0 && j0 + 2 <= e0 < |line|
    && OccursAt("::", line, 0) && OccursAt("::", line, j0)
    && (n0 < j0 ==> line[n0] == ' ')
    && (forall k | j0 + 2 <= k < e0 :: !IsBreak(line[k]))
    && (forall k | e0 <= k < |line| :: IsBreak(line[k]))
  }

  predicate DoubleColonAt(s: string, k: nat) {
    k + 1 < |s| && s[k] == ':' && s[k + 1] == ':'
  }

  /** A space at the end and none before. */
  predicate EndsInFirstSpace(s: string) {
    s != "" && s[|s| - 1] == ' ' && ' ' !in s[..|s| - 1]
  }

  /** Where else than at the closing mark the pattern can cut the text from its second colon on: at any
      double colon after a property list, and after a bare name at any but the one right behind the
      first space, where no character is left for a property list. */
  predicate CutAt(listed: bool, text: string, k: nat) {
    DoubleColonAt(text, k) && (listed || !EndsInFirstSpace(text[..k]))
  }

  predicate HasCut(listed: bool, text: string) {
    exists k: nat | k < |text| :: CutAt(listed, text, k)
  }

  /** The data has such a place, its first character counted as following a colon. */
  predicate Ambiguous(listed: bool, data: string) {
    HasCut(listed, ":" + data)
  }

  /** The name and list are fit for the pattern. */
  predicate Fit(line: string, n0: nat, j0: nat)
    requires n0 <= j0 <= |line| && 2 <= n0
  {
    && (forall k | 2 <= k < n0 :: line[k] != ' ')
    && (n0 < j0 ==> n0 + 1 < j0 && forall k | n0 < k < j0 :: line[k] != '\n')
  }

  lemma BreakIs(line: string, i: nat, e: nat)
    requires i <= e < |line| && IsBreak(line[e]) && forall k | i <= k < e :: !IsBreak(line[k])
    ensures BreakFrom(line, i) == e
  {
  }

  /** A closing mark at or after the layout's own lies in the data. */
  lemma ClosesInData(line: string, n0: nat, j0: nat, e0: nat, j: nat)
    requires Layout(line, n0, j0, e0) && j0 <= j
    ensures ClosesAt(GA, line, j) <==> j + 2 <= e0 && OccursAt("::", line, j)
    ensures ClosesAt(GA, line, j) ==> BreakFrom(line, j + 2) == e0
  {
    if OccursAt("::", line, j) {
      assert line[j..j + 2][0] == line[j] && line[j..j + 2][1] == line[j + 1];
      assert j + 1 < e0;
      BreakIs(line, j + 2, e0);
    }
  }

  /** The layout is itself a match exactly when it is fit. */
  lemma LayoutMatches(line: string, n0: nat, j0: nat, e0: nat)
    requires Layout(line, n0, j0, e0)
    ensures MatchesAt(GA, line, n0, j0) <==> Fit(line, n0, j0)
  {
    ClosesInData(line, n0, j0, e0, j0);
  }

  lemma ColonsAt(line: string, j: nat)
    ensures OccursAt("::", line, j) <==> DoubleColonAt(line, j)
  {
    assert j + 2 <= |line| ==> line[j..j + 2] == [line[j], line[j + 1]];
  }

  lemma ColonsWithin(line: string, i: nat, e: nat, k: nat)
    requires i <= e <= |line|
    ensures DoubleColonAt(line[i..e], k) <==> i + k + 1 < e && DoubleColonAt(line, i + k)
  {
  }

  /** The first space of a prefix stands at its end, or it does not end in its first space. */
  lemma FirstSpaceIs(s: string, k: nat)
    requires k <= |s|
    ensures EndsInFirstSpace(s[..k]) <==> k > 0 && IndexOf(s[..k], ' ') == k - 1
  {
    if k > 0 { assert s[..k][..k - 1] == s[..k - 1]; }
  }

  lemma SpaceWithin(line: string, i: nat, j: nat)
    requires i <= j <= |line|
    ensures var s := IndexOf(line[i..j], ' ');
            && s <= j - i
            && (forall k | i <= k < i + s :: line[k] != ' ')
            && (s < j - i ==> line[i + s] == ' ')
  {
    var s := IndexOf(line[i..j], ' ');
    assert forall k | i <= k < i + s :: line[k] == line[i..j][k - i];
  }

  /** Any match the pattern prefers to the layout closes at a cut. */
  lemma OtherMatchIsCut(line: string, n0: nat, j0: nat, e0: nat, n: nat, j: nat)
    requires Layout(line, n0, j0, e0) && MatchesAt(GA, line, n, j)
    requires NotAfter(n0, j0, (n, j)) && (n, j) != (n0, j0)
    ensures j0 < j && CutAt(n0 < j0, line[j0 + 1..e0], j - j0 - 1)
  {
    hide EndsInFirstSpace, OccursAt, IndexOf;
    ColonsAt(line, j0);
    ColonsAt(line, j);
    ClosesInData(line, n0, j0, e0, j);
    var text, k := line[j0 + 1..e0], j - j0 - 1;
    ColonsWithin(line, j0 + 1, e0, k);
    assert text[..k] == line[j0 + 1..j];
    FirstSpaceIs(text, k);
    SpaceWithin(line, j0 + 1, j);
  }

  lemma MatchAtCut(line: string, n0: nat, j0: nat, e0: nat, n: nat, j: nat)
    requires Layout(line, n0, j0, e0) && j0 < j && j + 2 <= e0 && OccursAt("::", line, j)
    requires n0 <= n <= j && forall k | 2 <= k < n :: line[k] != ' '
    requires n == j || (line[n] == ' ' && n + 1 < j && forall k | n < k < j :: line[k] != '\n')
    ensures FindSubmatch(GA, line).Some? && NotAfter(n, j, FindSubmatch(GA, line).value)
  {
    ClosesInData(line, n0, j0, e0, j);
    assert MatchesAt(GA, line, n, j);
  }

  /** And at any cut of a fit layout the pattern closes, or later. */
  lemma CutIsMatch(line: string, n0: nat, j0: nat, e0: nat, k: nat)
    requires Layout(line, n0, j0, e0) && Fit(line, n0, j0)
    requires CutAt(n0 < j0, line[j0 + 1..e0], k)
    ensures FindSubmatch(GA, line).Some? && FindSubmatch(GA, line) != Some((n0, j0))
  {
    hide FindSubmatch, EndsInFirstSpace, OccursAt, IndexOf;
    var text, j := line[j0 + 1..e0], j0 + 1 + k;
    ColonsAt(line, j0);
    ColonsAt(line, j);
    ColonsWithin(line, j0 + 1, e0, k);
    if n0 < j0 {
      MatchAtCut(line, n0, j0, e0, n0, j);
    } else {
      assert text[..k] == line[j0 + 1..j];
      FirstSpaceIs(text, k);
      SpaceWithin(line, j0 + 1, j);
      MatchAtCut(line, n0, j0, e0, j0 + 1 + IndexOf(line[j0 + 1..j], ' '), j);
    }
  }

  /** The pattern cuts a line at its layout exactly when the layout is fit and the data has no cut. */
  lemma CutsAtLayout(line: string, n0: nat, j0: nat, e0: nat)
    requires Layout(line, n0, j0, e0)
    ensures FindSubmatch(GA, line) == Some((n0, j0)) <==>
            Fit(line, n0, j0) && !HasCut(n0 < j0, line[j0 + 1..e0])
  {
    LayoutMatches(line, n0, j0, e0);
    var r := FindSubmatch(GA, line);
    if Fit(line, n0, j0) {
      assert r.Some? && NotAfter(n0, j0, r.value);
      var text := line[j0 + 1..e0];
      if r.value != (n0, j0) {
        OtherMatchIsCut(line, n0, j0, e0, r.value.0, r.value.1);
        assert CutAt(n0 < j0, text, r.value.1 - j0 - 1);
      } else if HasCut(n0 < j0, text) {
        var k: nat :| k < |text| && CutAt(n0 < j0, text, k);
        CutIsMatch(line, n0, j0, e0, k);
      }
    }
  }

  /** A match with the layout's name closes where the layout does, or at a colon of the data. */
  lemma SameNameCloses(line: string, n0: nat, j0: nat, e0: nat, j: nat)
    requires Layout(line, n0, j0, e0) && FindSubmatch(GA, line) == Some((n0, j))
    ensures j0 <= j && (j0 < j ==> j + 2 <= e0 && OccursAt("::", line, j))
    ensures j0 < j ==> BreakFrom(line, j + 2) == e0
  {
    assert line[j0] == line[j0..j0 + 2][0] && line[j0 + 1] == line[j0..j0 + 2][1];
    assert line[j] == line[j..j + 2][0];
    if j0 <= j {
      ClosesInData(line, n0, j0, e0, j);
    } else {
      var e := BreakFrom(line, j + 2);
      assert !IsBreak(line[j0]);
      assert line[j + 1] == line[j..j + 2][1];
      assert forall k | n0 < k < j0 :: line[k] != '\n';
      LayoutMatches(line, n0, j0, e0);
    }
  }

  // ---------------------------------------------------------------- colons and spaces of escaped data

  lemma {:induction false} EscapeAppend(s: string, t: string)
    ensures EscapeCommandData(s + t) == EscapeCommandData(s) + EscapeCommandData(t)
  {
    if s == "" {
      assert s + t == t;
    } else {
      assert (s + t)[1..] == s[1..] + t;
      EscapeAppend(s[1..], t);
    }
  }

  /** The character of s that position q of the escaped text belongs to. */
  function Origin(s: string, q: nat): (j: nat)
    requires q < |EscapeCommandData(s)|
    ensures j < |s|
  {
    if q < |EscapeChar(s[0])| then 0 else 1 + Origin(s[1..], q - |EscapeChar(s[0])|)
  }

  lemma EscapedPrefix(s: string, j: nat)
    requires s != "" && j <= |s| - 1
    ensures EscapeCommandData(s[..1 + j]) == EscapeChar(s[0]) + EscapeCommandData(s[1..][..j])
  {
    assert s[..1 + j][1..] == s[1..][..j];
  }

  /** A colon of the escaped text is a colon of the text. */
  lemma {:induction false} ColonOrigin(s: string, q: nat)
    requires q < |EscapeCommandData(s)| && EscapeCommandData(s)[q] == ':'
    ensures s[Origin(s, q)] == ':'
    ensures |EscapeCommandData(s[..Origin(s, q)])| == q
  {
    var h, t := EscapeChar(s[0]), EscapeCommandData(s[1..]);
    if q < |h| {
      assert h[q] == ':';
      assert s[..0] == "";
    } else {
      assert t[q - |h|] == ':';
      ColonOrigin(s[1..], q - |h|);
      var j := Origin(s[1..], q - |h|);
      EscapedPrefix(s, j);
    }
  }

  lemma EscapeCut(s: string, j: nat)
    requires j < |s|
    ensures EscapeCommandData(s) ==
            EscapeCommandData(s[..j]) + (EscapeChar(s[j]) + EscapeCommandData(s[j + 1..]))
  {
    assert s == s[..j] + s[j..];
    EscapeAppend(s[..j], s[j..]);
  }

  lemma {:induction false} EscapeKeepsSpaces(s: string)
    ensures ' ' in EscapeCommandData(s) <==> ' ' in s
  {
    if s != "" {
      EscapeKeepsSpaces(s[1..]);
      assert s == [s[0]] + s[1..];
    }
  }

  lemma EscapeKeepsFirstSpace(s: string)
    ensures EndsInFirstSpace(EscapeCommandData(s)) <==> EndsInFirstSpace(s)
  {
    if s != "" {
      hide *;
      var i := |s| - 1;
      assert s == s[..i] + [s[i]];
      EscapeKeepsFirstSpaceSnoc(s[..i], s[i]);
    } else {
      hide EndsInFirstSpace;
    }
  }

  lemma EscapeKeepsFirstSpaceSnoc(s: string, c: char)
    ensures EndsInFirstSpace(EscapeCommandData(s + [c])) <==> EndsInFirstSpace(s + [c])
  {
    EscapeAppend(s, [c]);
    EscapeOne(c);
    EscapeKeepsSpaces(s);
    hide EscapeCommandData, EndsInFirstSpace;
    FirstSpaceAfter(EscapeCommandData(s), EscapeChar(c));
    FirstSpaceAfter(s, [c]);
  }

  lemma EscapeOne(c: char)
    ensures EscapeCommandData([c]) == EscapeChar(c)
  {
    assert EscapeCommandData([c]) == EscapeChar(c) + EscapeCommandData([]);
  }

  lemma FirstSpaceAfter(head: string, last: string)
    requires |last| == 1 || (last != "" && ' ' !in last)
    ensures EndsInFirstSpace(head + last) <==> last == " " && ' ' !in head
  {
    var e := head + last;
    assert e[|e| - 1] == last[|last| - 1];
    if |last| == 1 { assert e[..|e| - 1] == head; }
  }

  lemma EscapeKeepsCut(listed: bool, s: string, j: nat)
    requires j < |s| && s[j] == ':'
    ensures CutAt(listed, s, j) <==> CutAt(listed, EscapeCommandData(s), |EscapeCommandData(s[..j])|)
  {
    hide EscapeCommandData;
    var e, h := EscapeCommandData(s), EscapeCommandData(s[..j]);
    EscapeCut(s, j);
    EscapeKeepsFirstSpace(s[..j]);
    assert e[..|h|] == h && e[|h|] == ':';
    EscapedHead(s[j + 1..]);
    assert e[|h| + 1..] == EscapeCommandData(s[j + 1..]);
  }

  lemma EscapedHead(s: string)
    ensures EscapeCommandData(s) == "" <==> s == ""
    ensures s != "" ==> (EscapeCommandData(s)[0] == ':' <==> s[0] == ':')
  {
  }

  /** Whether data is ambiguous can be asked of the message itself. */
  lemma EscapeKeepsAmbiguity(listed: bool, data: string)
    ensures Ambiguous(listed, EscapeCommandData(data)) <==> Ambiguous(listed, data)
  {
    var s := ":" + data;
    var e := EscapeCommandData(s);
    assert s[1..] == data;
    assert e == ":" + EscapeCommandData(data);
    if HasCut(listed, s) {
      var j: nat :| j < |s| && CutAt(listed, s, j);
      EscapeKeepsCut(listed, s, j);
    }
    if HasCut(listed, e) {
      var q: nat :| q < |e| && CutAt(listed, e, q);
      ColonOrigin(s, q);
      EscapeKeepsCut(listed, s, Origin(s, q));
    }
  }

  /** What follows a colon of the escaped text stands for less than the whole. */
  lemma AfterColonIsShorter(s: string, q: nat)
    requires q < |EscapeCommandData(s)| && EscapeCommandData(s)[q] == ':'
    ensures |UnescapeCommandData(EscapeCommandData(s)[q + 1..])| < |s|
  {
    ColonOrigin(s, q);
    var j := Origin(s, q);
    EscapeCut(s, j);
    assert EscapeCommandData(s)[q + 1..] == EscapeCommandData(s[j + 1..]);
    DataRoundTrip(s[j + 1..]);
  }

  // ---------------------------------------------------------------- a printed property list

  /** What a receiver of the printed list should know: a later property overrides. */
  function MapOf(ps: seq<Property>, m: map<string, string>): map<string, string>
    decreases |ps|
  {
    if ps == [] then m else MapOf(ps[1..], m[ps[0].key := ps[0].value])
  }

  function UnescapedValues(m: map<string, string>): map<string, string> {
    map k | k in m :: UnescapeCommandProperty(m[k])
  }

  predicate IsPlain(p: Property) {
    ',' !in p.key && '=' !in p.key && '\n' !in p.key && '=' !in p.value
  }

  lemma PrintedPropertyReads(p: Property)
    requires '=' !in p.key && '=' !in p.value
    ensures Split(PrintProperty(p), '=') == [p.key, EscapeProperty(p.value)]
  {
    hide EscapeProperty;
    var v := EscapeProperty(p.value);
    EscapedPropertyEquals(p.value);
    SplitCons(p.key, '=', v);
    assert IndexOf(v, '=') == |v|;
    assert p.key + ['='] + v == PrintProperty(p);
  }

  lemma {:induction false} PairsPrinted(ps: seq<Property>, m: map<string, string>)
    requires forall p | p in ps :: '=' !in p.key && '=' !in p.value
    ensures UnescapedValues(PairsOf(PrintEach(ps), m)) == MapOf(ps, UnescapedValues(m))
    decreases |ps|
  {
    if ps != [] {
      hide PrintProperty, EscapeProperty, PairsOf, PrintEach, UnescapedValues;
      var p := ps[0];
      assert p in ps;
      FirstPair(ps, m);
      PairRead(p, m);
      PairsPrinted(ps[1..], m[p.key := EscapeProperty(p.value)]);
    }
  }

  lemma FirstPair(ps: seq<Property>, m: map<string, string>)
    requires ps != [] && '=' !in ps[0].key && '=' !in ps[0].value
    ensures PairsOf(PrintEach(ps), m) == PairsOf(PrintEach(ps[1..]), m[ps[0].key := EscapeProperty(ps[0].value)])
  {
    hide PrintProperty, Split, EscapeProperty;
    PrintedPropertyReads(ps[0]);
    assert PrintEach(ps)[1..] == PrintEach(ps[1..]);
  }

  lemma PairRead(p: Property, m: map<string, string>)
    ensures UnescapedValues(m[p.key := EscapeProperty(p.value)]) == UnescapedValues(m)[p.key := p.value]
  {
    hide EscapeProperty, UnescapeCommandProperty;
    PropertyRoundTrip(p.value);
  }

  lemma PrintedPropertyIsPiece(p: Property)
    requires ',' !in p.key
    ensures ',' !in PrintProperty(p)
  {
    EscapedPropertyIsPlain(p.value);
    assert forall c | c in PrintProperty(p) :: c in p.key || c == '=' || c in EscapeProperty(p.value);
  }

  /** A list of plain properties is read back as it was. */
  lemma ListReads(ps: seq<Property>)
    requires forall p | p in ps :: IsPlain(p)
    ensures UnescapedValues(PairsOf(Split(PrintList(ps), ','), map[])) == MapOf(ps, map[])
  {
    if ps == [] {
      assert Split("", ',') == [""] && Split("", '=') == [""];
      assert PairsOf([""], map[]) == PairsOf([], map[]) == map[];
    } else {
      hide PrintProperty, Split, UnescapeCommandProperty, PairsOf;
      forall i | 0 <= i < |ps| ensures ',' !in PrintEach(ps)[i] {
        assert ps[i] in ps;
        PrintedPropertyIsPiece(ps[i]);
      }
      SplitJoin(PrintEach(ps), ',');
      PairsPrinted(ps, map[]);
      assert UnescapedValues(map[]) == map[];
    }
  }

  ghost predicate PlainPairs(m: map<string, string>) {
    forall k | k in m :: ',' !in k && '=' !in k && '=' !in m[k]
  }

  lemma {:induction false} PairsArePlain(pieces: seq<string>, m: map<string, string>)
    requires PlainPairs(m) && forall i | 0 <= i < |pieces| :: ',' !in pieces[i]
    ensures PlainPairs(PairsOf(pieces, m))
    decreases |pieces|
  {
    if pieces != [] {
      var kv := Split(pieces[0], '=');
      if |kv| == 2 {
        assert ',' !in kv[0];
        PairsArePlain(pieces[1..], m[kv[0] := kv[1]]);
      } else {
        PairsArePlain(pieces[1..], m);
      }
    }
  }

  /** Nothing read from a list has a comma or an equals sign in its key, or an equals sign in its value. */
  lemma ReadPairsArePlain(list: string)
    ensures PlainPairs(UnescapedValues(PairsOf(Split(list, ','), map[])))
  {
    hide PairsOf, Split, UnescapeCommandProperty;
    var m := PairsOf(Split(list, ','), map[]);
    PairsArePlain(Split(list, ','), map[]);
    forall k | k in m ensures '=' !in UnescapeCommandProperty(m[k]) {
      UnescapeAddsNoEquals(m[k]);
    }
  }

  ghost predicate DistinctKeys(ps: seq<Property>) {
    forall i, j | 0 <= i < j < |ps| :: ps[i].key != ps[j].key
  }

  lemma {:induction false} MapOfOther(ps: seq<Property>, m: map<string, string>, k: string)
    requires k in m && forall p | p in ps :: p.key != k
    ensures k in MapOf(ps, m) && MapOf(ps, m)[k] == m[k]
    decreases |ps|
  {
    if ps != [] {
      assert ps[0] in ps;
      MapOfOther(ps[1..], m[ps[0].key := ps[0].value], k);
    }
  }

  lemma {:induction false} MapOfHas(ps: seq<Property>, m: map<string, string>, p: Property)
    requires DistinctKeys(ps) && p in ps
    ensures p.key in MapOf(ps, m) && MapOf(ps, m)[p.key] == p.value
    decreases |ps|
  {
    var m' := m[ps[0].key := ps[0].value];
    assert ps == [ps[0]] + ps[1..];
    if p == ps[0] {
      assert forall i | 0 <= i < |ps[1..]| :: ps[1..][i] == ps[i + 1];
      MapOfOther(ps[1..], m', p.key);
    } else {
      MapOfHas(ps[1..], m', p);
    }
  }

  lemma {:induction false} PrintedKeys(ps: seq<Property>)
    requires DistinctKeys(ps)
    ensures DistinctKeys(Printed(ps))
    ensures forall p | p in Printed(ps) :: p in ps
  {
    if ps != [] {
      assert ps == [ps[0]] + ps[1..];
      PrintedKeys(ps[1..]);
      var rest := Printed(ps[1..]);
      forall p | p in rest ensures p.key != ps[0].key {
        assert p in ps[1..];
      }
      assert forall i | 0 <= i < |rest| :: rest[i] in rest;
    }
  }

  /** The list is read back as it was exactly when its properties are plain; a line feed in a key is the
      pattern's concern. */
  lemma ListReadsIff(ps: seq<Property>)
    requires DistinctKeys(ps) && '\n' !in PrintList(ps)
    ensures UnescapedValues(PairsOf(Split(PrintList(ps), ','), map[])) == MapOf(ps, map[]) <==>
            forall p | p in ps :: IsPlain(p)
  {
    var read := UnescapedValues(PairsOf(Split(PrintList(ps), ','), map[]));
    if forall p | p in ps :: IsPlain(p) {
      ListReads(ps);
    } else if read == MapOf(ps, map[]) {
      ReadPairsArePlain(PrintList(ps));
      forall p | p in ps ensures IsPlain(p) {
        MapOfHas(ps, map[], p);
        ListHoldsKeys(ps, p);
      }
    }
  }

  lemma {:induction false} JoinHolds(parts: seq<string>, c: char, i: nat, x: char)
    requires i < |parts| && x in parts[i]
    ensures x in Join(parts, c)
  {
    if i > 0 { JoinHolds(parts[1..], c, i - 1, x); }
  }

  lemma ListHoldsKeys(ps: seq<Property>, p: Property)
    requires p in ps
    ensures forall c | c in p.key :: c in PrintList(ps)
  {
    var i :| 0 <= i < |ps| && ps[i] == p;
    forall c | c in p.key ensures c in PrintList(ps) {
      assert PrintEach(ps)[i] == PrintProperty(p);
      JoinHolds(PrintEach(ps), ',', i, c);
    }
  }

  // ---------------------------------------------------------------- the round trip of a line

  lemma Slices(name: string, middle: string, data: string, ending: string)
    ensures var line, n0 := "::" + name + middle + "::" + data + ending, 2 + |name|;
            var j0 := n0 + |middle|;
            var e0 := j0 + 2 + |data|;
            && line[0..2] == "::" && line[2..n0] == name && line[n0..j0] == middle && line[j0..j0 + 2] == "::"
            && line[j0 + 2..e0] == data && line[e0..] == ending
  {
  }

  lemma PrintHasLayout(name: string, middle: string, data: string, ending: string)
    requires name != "" && (middle == "" || middle[0] == ' ')
    requires (forall c | c in data :: !IsBreak(c)) && ending != "" && AllBreaks(ending)
    ensures var line, n0 := "::" + name + middle + "::" + data + ending, 2 + |name|;
            var j0 := n0 + |middle|;
            var e0 := j0 + 2 + |data|;
            && Layout(line, n0, j0, e0)
            && line[2..n0] == name && line[n0..j0] == middle
            && line[j0 + 2..e0] == data && line[j0 + 1..e0] == ":" + data
  {
    var line, n0 := "::" + name + middle + "::" + data + ending, 2 + |name|;
    var j0 := n0 + |middle|;
    Slices(name, middle, data, ending);
    SlicesGiveLayout(line, n0, j0, j0 + 2 + |data|);
  }

  lemma SlicesGiveLayout(line: string, n0: nat, j0: nat, e0: nat)
    requires 2 < n0 <= j0 && j0 + 2 <= e0 < |line|
    requires line[0..2] == "::" && line[j0..j0 + 2] == "::" && (n0 < j0 ==> line[n0..j0][0] == ' ')
    requires (forall c | c in line[j0 + 2..e0] :: !IsBreak(c)) && AllBreaks(line[e0..])
    ensures Layout(line, n0, j0, e0)
    ensures line[j0 + 1..e0] == ":" + line[j0 + 2..e0]
  {
    assert forall k | j0 + 2 <= k < e0 :: line[k] == line[j0 + 2..e0][k - j0 - 2];
    assert forall k | e0 <= k < |line| :: line[k] == line[e0..][k - e0];
    assert line[j0 + 1] == line[j0..j0 + 2][1];
  }

  /** What a reader who cuts the line at its layout gets back. */
  predicate Recoverable(command: string, ps: seq<Property>, message: string) {
    && ' ' !in command
    && (ps != [] ==> Printed(ps) != [])
    && (forall p | p in Printed(ps) :: IsPlain(p))
    && !Ambiguous(ps != [], message)
  }

  lemma OpensAsGA(line: string)
    requires OccursAt("::", line, 0)
    ensures FindSubmatch(ADO, line) == None
  {
    assert line[0..2][0] == line[0];
    assert |line| >= 3 ==> line[0..3][0] == line[0];
  }

  /** What a match at (n, j) hands on. */
  lemma ReceivedParts(line: string, n: nat, j: nat)
    requires OccursAt("::", line, 0) && FindSubmatch(GA, line) == Some((n, j))
    ensures MatchesAt(GA, line, n, j) && j + 2 <= |line|
    ensures Received(line) == Some(Command(line[2..n],
              UnescapedValues(PairsOf(Split(if j == n then "" else line[n + 1..j], ','), map[])),
              UnescapeCommandData(line[j + 2..BreakFrom(line, j + 2)])))
  {
    hide FindSubmatch, PairsOf, Split, BreakFrom, UnescapeCommandData, UnescapeCommandProperty;
  }

  /** The name and the message come back only when the pattern cuts the line at its layout. */
  lemma RecoveredOnlyAtLayout(line: string, n0: nat, j0: nat, e0: nat, message: string)
    requires Layout(line, n0, j0, e0) && line[j0 + 2..e0] == EscapeCommandData(message)
    requires Received(line).Some? && Received(line).value.name == line[2..n0]
    requires Received(line).value.arg == message
    ensures FindSubmatch(GA, line) == Some((n0, j0))
  {
    hide FindSubmatch, PairsOf, Split, BreakFrom, EscapeCommandData, UnescapeCommandData, Unescaped, UnescapedValues;
    OpensAsGA(line);
    var (n, j) := FindSubmatch(GA, line).value;
    ReceivedParts(line, n, j);
    assert |line[2..n]| == |line[2..n0]|;
    SameNameCloses(line, n0, j0, e0, j);
    if j0 < j {
      CloseInDataShortens(line, n0, j0, e0, j, message);
    }
  }

  lemma SliceOfSlice(s: string, i: nat, e: nat, k: nat)
    requires i + k <= e <= |s|
    ensures s[i..e][k..] == s[i + k..e]
  {
  }

  /** A match that closes within the data hands on less than the message. */
  lemma CloseInDataShortens(line: string, n0: nat, j0: nat, e0: nat, j: nat, message: string)
    requires Layout(line, n0, j0, e0) && line[j0 + 2..e0] == EscapeCommandData(message)
    requires j0 < j && j + 2 <= e0 && OccursAt("::", line, j)
    ensures |UnescapeCommandData(line[j + 2..e0])| < |message|
  {
    ColonsAt(line, j);
    hide EscapeCommandData, UnescapeCommandData, OccursAt;
    ShorterFromColon(line, j0 + 2, e0, j + 1, message);
  }

  lemma ShorterFromColon(line: string, a: nat, e: nat, c: nat, message: string)
    requires a <= c < e <= |line| && line[a..e] == EscapeCommandData(message) && line[c] == ':'
    ensures |UnescapeCommandData(line[c + 1..e])| < |message|
  {
    hide EscapeCommandData, UnescapeCommandData;
    assert line[a..e][c - a] == line[c];
    SliceOfSlice(line, a, e, c - a + 1);
    AfterColonIsShorter(message, c - a);
  }

  lemma {:induction false} JoinOnlyHolds(parts: seq<string>, c: char, x: char)
    requires parts != [] && x != c && forall i | 0 <= i < |parts| :: x !in parts[i]
    ensures x !in Join(parts, c)
  {
    if |parts| > 1 { JoinOnlyHolds(parts[1..], c, x); }
  }

  lemma PlainListHasNoFeed(ps: seq<Property>)
    requires forall p | p in ps :: IsPlain(p)
    ensures '\n' !in PrintList(ps)
    ensures ps != [] ==> PrintList(ps) != ""
  {
    if ps != [] {
      hide EscapeProperty, Join;
      forall i | 0 <= i < |ps| ensures '\n' !in PrintEach(ps)[i] {
        assert ps[i] in ps;
        EscapedPropertyIsPlain(ps[i].value);
        assert forall c | c in PrintProperty(ps[i]) :: c in ps[i].key || c == '=' || c in EscapeProperty(ps[i].value);
      }
      JoinOnlyHolds(PrintEach(ps), ',', '\n');
      JoinHolds(PrintEach(ps), ',', 0, '=');
    }
  }

  /** The list printed is fit for the pattern and read back as it was exactly when something is printed,
      if there are properties at all, and all that is printed is plain. */
  lemma FitListReadsIff(ps: seq<Property>)
    requires DistinctKeys(ps)
    ensures var list := PrintList(Printed(ps));
            (ps != [] ==> list != "" && '\n' !in list) &&
            UnescapedValues(PairsOf(Split(list, ','), map[])) == MapOf(Printed(ps), map[]) <==>
            (ps != [] ==> Printed(ps) != []) && forall p | p in Printed(ps) :: IsPlain(p)
  {
    hide PairsOf, Split, UnescapedValues, PrintList, MapOf;
    var printed := Printed(ps);
    PrintedKeys(ps);
    EmptyList();
    if '\n' !in PrintList(printed) { ListReadsIff(printed); }
    if forall p | p in printed :: IsPlain(p) { PlainListHasNoFeed(printed); }
  }

  lemma EmptyList()
    ensures PrintList([]) == "" && UnescapedValues(PairsOf(Split("", ','), map[])) == MapOf([], map[])
  {
    ListReads([]);
  }

  lemma ReceivedIff(line: string, n0: nat, j0: nat, e0: nat, message: string, m: map<string, string>)
    requires Layout(line, n0, j0, e0) && line[j0 + 2..e0] == EscapeCommandData(message)
    ensures Received(line) == Some(Command(line[2..n0], m, message)) <==>
            && FindSubmatch(GA, line) == Some((n0, j0))
            && UnescapedValues(PairsOf(Split(if j0 == n0 then "" else line[n0 + 1..j0], ','), map[])) == m
  {
    hide EscapeCommandData, UnescapeCommandData, PairsOf, Split, UnescapedValues, FindSubmatch, Received, BreakFrom;
    if Received(line) == Some(Command(line[2..n0], m, message)) {
      RecoveredOnlyAtLayout(line, n0, j0, e0, message);
    }
    if FindSubmatch(GA, line) == Some((n0, j0)) {
      ReceivedParts(line, n0, j0);
      ClosesInData(line, n0, j0, e0, j0);
      DataRoundTrip(message);
    }
  }

  function Listed(list: Option<string>): string {
    if list.Some? then " " + list.value else ""
  }

  function ListText(list: Option<string>): string {
    if list.Some? then list.value else ""
  }

  /** A name, perhaps a list of any text, and an escaped message: when these are what is received. */
  lemma LineReceivedIff(name: string, list: Option<string>, message: string, ending: string, m: map<string, string>)
    requires name != "" && ending != "" && AllBreaks(ending)
    ensures Received("::" + name + Listed(list) + "::" + EscapeCommandData(message) + ending) ==
            Some(Command(name, m, message)) <==>
            && ' ' !in name
            && (list.Some? ==> list.value != "" && '\n' !in list.value)
            && !Ambiguous(list.Some?, message)
            && UnescapedValues(PairsOf(Split(ListText(list), ','), map[])) == m
  {
    hide EscapeCommandData, PairsOf, Split, UnescapedValues, FindSubmatch, Received, HasCut, BreakFrom, Layout, Fit;
    var middle, data := Listed(list), EscapeCommandData(message);
    var line, n0 := "::" + name + middle + "::" + data + ending, 2 + |name|;
    var j0 := n0 + |middle|;
    var e0 := j0 + 2 + |data|;
    EscapedHasNoBreak(message);
    PrintHasLayout(name, middle, data, ending);
    ReceivedIff(line, n0, j0, e0, message, m);
    CutsAtLayout(line, n0, j0, e0);
    LayoutIsFit(line, n0, j0, e0, name, middle);
    EscapeKeepsAmbiguity(list.Some?, message);
    if list.Some? {
      assert middle[1..] == list.value;
      assert line[n0 + 1..j0] == line[n0..j0][1..];
    }
  }

  /** Round trip of a line: what the toolkit prints is received as it was meant exactly when the command
      has no space, the properties printed are plain and not none, and the message is not ambiguous. */
  lemma CommandRoundTrip(command: string, ps: seq<Property>, message: string, ending: string)
    requires DistinctKeys(ps) && ending != "" && AllBreaks(ending)
    ensures Received(Print(command, ps, message) + ending) ==
            Some(Command(NameOf(command), MapOf(Printed(ps), map[]), message)) <==>
            Recoverable(command, ps, message)
  {
    hide EscapeData, EscapeCommandData, PrintList, Printed, PairsOf, Split, UnescapedValues, MapOf, Received, Ambiguous,
      IsPlain;
    var list := if ps == [] then None else Some(PrintList(Printed(ps)));
    SequentialDataEscape(message);
    LineReceivedIff(NameOf(command), list, message, ending, MapOf(Printed(ps), map[]));
    FitListReadsIff(ps);
    assert Listed(list) == Middle(ps);
    if ps == [] { NothingPrinted(); }
  }

  lemma NothingPrinted()
    ensures Printed([]) == [] && PrintList([]) == ""
  {
  }

  lemma LayoutIsFit(line: string, n0: nat, j0: nat, e0: nat, name: string, middle: string)
    requires Layout(line, n0, j0, e0) && line[2..n0] == name && line[n0..j0] == middle
    ensures Fit(line, n0, j0) <==> ' ' !in name && (middle != "" ==> middle[1..] != "" && '\n' !in middle[1..])
  {
    assert forall k | 2 <= k < n0 :: line[k] == name[k - 2];
    assert forall k | n0 < k < j0 :: line[k] == middle[1..][k - n0 - 1];
    assert forall i | 0 <= i < |name| :: name[i] == line[i + 2];
    if middle != "" {
      assert forall i | 0 <= i < |middle[1..]| :: middle[1..][i] == line[i + n0 + 1];
    }
  }

  // ---------------------------------------------------------------- where it fails

  /** A command whose properties are all empty: with a plain name its line is received at all exactly when
      the message is ambiguous, and then not as it was meant. */
  lemma EmptyPropertiesReceivedIff(command: string, ps: seq<Property>, message: string, ending: string)
    requires ps != [] && Printed(ps) == [] && ' ' !in command && ':' !in command
    requires ending != "" && AllBreaks(ending)
    ensures Received(Print(command, ps, message) + ending).Some? <==> Ambiguous(true, message)
    ensures DistinctKeys(ps) ==> Received(Print(command, ps, message) + ending) !=
                                 Some(Command(NameOf(command), MapOf(Printed(ps), map[]), message))
  {
    hide EscapeData, EscapeCommandData, Received, Ambiguous, MapOf;
    SequentialDataEscape(message);
    assert Middle(ps) == " ";
    EmptyLineReceived(NameOf(command), message, ending);
    NotRecoverable(command, ps, message, ending);
  }

  lemma EmptyLineReceived(name: string, message: string, ending: string)
    requires name != "" && ' ' !in name && ':' !in name && ending != "" && AllBreaks(ending)
    ensures Received("::" + name + " " + "::" + EscapeCommandData(message) + ending).Some? <==> Ambiguous(true, message)
  {
    hide EscapeCommandData, Received, FindSubmatch, Layout, HasCut;
    var data := EscapeCommandData(message);
    EscapedHasNoBreak(message);
    PrintHasLayout(name, " ", data, ending);
    EscapeKeepsAmbiguity(true, message);
    var line, n0 := "::" + name + " " + "::" + data + ending, 2 + |name|;
    EmptyListReceived(line, n0, n0 + 1, n0 + 3 + |data|, name);
  }

  lemma NotRecoverable(command: string, ps: seq<Property>, message: string, ending: string)
    requires ps != [] && Printed(ps) == [] && ending != "" && AllBreaks(ending)
    ensures DistinctKeys(ps) ==> Received(Print(command, ps, message) + ending) !=
                                 Some(Command(NameOf(command), MapOf(Printed(ps), map[]), message))
  {
    if DistinctKeys(ps) {
      hide Received, Print, MapOf, Ambiguous;
      CommandRoundTrip(command, ps, message, ending);
    }
  }

  lemma EmptyListReceived(line: string, n0: nat, j0: nat, e0: nat, name: string)
    requires Layout(line, n0, j0, e0) && j0 == n0 + 1 && line[2..n0] == name && ' ' !in name && ':' !in name
    ensures Received(line).Some? <==> HasCut(true, line[j0 + 1..e0])
  {
    hide Received, FindSubmatch, HasCut, CutAt;
    ReceivedWhenFound(line);
    assert forall k | 2 <= k < n0 :: line[k] == name[k - 2];
    EmptyListFound(line, n0, j0, e0);
  }

  lemma ReceivedWhenFound(line: string)
    requires OccursAt("::", line, 0)
    ensures Received(line).Some? <==> FindSubmatch(GA, line).Some?
  {
    hide FindSubmatch, PairsOf, Split, BreakFrom, UnescapeCommandData, UnescapeCommandProperty;
    OpensAsGA(line);
  }

  lemma EmptyListFound(line: string, n0: nat, j0: nat, e0: nat)
    requires Layout(line, n0, j0, e0) && j0 == n0 + 1
    requires forall k | 2 <= k < n0 :: line[k] != ' ' && line[k] != ':'
    ensures FindSubmatch(GA, line).Some? <==> HasCut(true, line[j0 + 1..e0])
  {
    var text := line[j0 + 1..e0];
    hide FindSubmatch, CutAt, Layout, MatchesAt;
    if FindSubmatch(GA, line).Some? {
      var (n, j) := FindSubmatch(GA, line).value;
      NameIsWhole(line, n0, j0, e0, n, j);
      OtherMatchIsCut(line, n0, j0, e0, n, j);
      assert CutAt(true, text, j - j0 - 1);
      CutIsWithin(text, j - j0 - 1);
    }
    if HasCut(true, text) {
      var k: nat :| k < |text| && CutAt(true, text, k);
      ListClosesAt(line, n0, j0, e0, k);
    }
  }

  lemma CutIsWithin(text: string, k: nat)
    requires CutAt(true, text, k)
    ensures k < |text|
  {
  }

  lemma ListClosesAt(line: string, n0: nat, j0: nat, e0: nat, k: nat)
    requires Layout(line, n0, j0, e0) && j0 == n0 + 1
    requires forall k | 2 <= k < n0 :: line[k] != ' '
    requires CutAt(true, line[j0 + 1..e0], k)
    ensures FindSubmatch(GA, line).Some?
  {
    hide FindSubmatch, EndsInFirstSpace, OccursAt, IndexOf;
    var j := j0 + 1 + k;
    ColonsWithin(line, j0 + 1, e0, k);
    ColonsAt(line, j0);
    ColonsAt(line, j);
    MatchAtCut(line, n0, j0, e0, n0, j);
  }

  /** A name without spaces and colons is matched as a whole, and more than the space behind it. */
  lemma NameIsWhole(line: string, n0: nat, j0: nat, e0: nat, n: nat, j: nat)
    requires Layout(line, n0, j0, e0) && j0 == n0 + 1 && MatchesAt(GA, line, n, j)
    requires forall k | 2 <= k < n0 :: line[k] != ' ' && line[k] != ':'
    ensures n == n0 && j0 < j
  {
    hide BreakFrom;
    ColonsAt(line, j);
  }

  /** `::debug::a::b` is received as another command. */
  lemma DoubleColonIsMisread()
    ensures Print("debug", [], "a::b") == "::debug::a::b"
    ensures Received("::debug::a::b\n") != Some(Command("debug", map[], "a::b"))
  {
    PlainIsItself();
    CutInMiddle();
    hide *;
    DebugMisread();
  }

  lemma CutInMiddle()
    ensures Ambiguous(false, "a::b") && Printed([]) == [] && MapOf([], map[]) == map[]
  {
    var data := ":" + "a::b";
    assert data[2] == ':' && data[3] == ':' && data[..2] == ":a";
    assert CutAt(false, data, 2);
  }

  lemma DebugMisread()
    requires EscapeData("a::b") == "a::b" && Ambiguous(false, "a::b")
    requires Printed([]) == [] && MapOf([], map[]) == map[]
    ensures Print("debug", [], "a::b") == "::debug::a::b"
    ensures Received("::debug::a::b\n") != Some(Command("debug", map[], "a::b"))
  {
    hide Received, EscapeData, Ambiguous, Printed, MapOf;
    assert "::debug::a::b" + "\n" == "::debug::a::b\n";
    CommandRoundTrip("debug", [], "a::b", "\n");
  }

  lemma PlainIsItself()
    ensures EscapeData("a::b") == "a::b"
  {
    hide ReplaceAll;
    ReplaceNone("a::b", '%', "%25");
    ReplaceNone("a::b", '\r', "%0D");
    ReplaceNone("a::b", '\n', "%0A");
  }
}
