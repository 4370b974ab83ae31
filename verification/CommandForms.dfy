/** The second form of a command line, `##[name k=v;k=v]data`. */
module CommandForms {
  import opened Basics
  import opened Commands

  /** A line made of a name ending at n0, perhaps a space and a list up to j0, the closing bracket, data up
      to e0, and line breaks, name and list being fit for the pattern. */
  predicate IsLaidOut(line: string, n0: nat, j0: nat, e0: nat) {
    && 3 < n0 <= j0 < e0 < |line|
    && OccursAt("##[", line, 0) && line[j0] == ']'
    && (n0 < j0 ==> line[n0] == ' ' && n0 + 1 < j0)
    && (forall k | 3 <= k < n0 :: line[k] != ' ')
    && (forall k | n0 < k < j0 :: line[k] != '\n')
    && (forall k | j0 < k < e0 :: !IsBreak(line[k]))
    && (forall k | e0 <= k < |line| :: IsBreak(line[k]))
  }

  /** Where in the data the pattern can cut instead: at any bracket after a property list, and after a bare
      name at any but the one right behind the first space. */
  predicate BracketCutAt(listed: bool, data: string, k: nat) {
    k < |data| && data[k] == ']' && (listed || !EndsInFirstSpace(data[..k]))
  }

  ghost predicate HasBracketCut(listed: bool, data: string) {
    exists k: nat :: BracketCutAt(listed, data, k)
  }

  lemma BracketAt(line: string, j: nat)
    ensures OccursAt("]", line, j) <==> j < |line| && line[j] == ']'
  {
    assert j < |line| ==> line[j..j + 1] == [line[j]];
  }

  lemma BracketCloses(line: string, n0: nat, j0: nat, e0: nat, j: nat)
    requires IsLaidOut(line, n0, j0, e0) && j0 <= j < e0 && line[j] == ']'
    ensures ClosesAt(ADO, line, j) && BreakFrom(line, j + 1) == e0
  {
    BracketAt(line, j);
    BreakIs(line, j + 1, e0);
  }

  /** A match that the pattern prefers closes at a bracket of the data. */
  lemma PreferredIsCut(line: string, n0: nat, j0: nat, e0: nat, n: nat, j: nat)
    requires IsLaidOut(line, n0, j0, e0) && MatchesAt(ADO, line, n, j)
    requires NotAfter(n0, j0, (n, j)) && (n, j) != (n0, j0)
    ensures j0 < j < e0 && BracketCutAt(n0 < j0, line[j0 + 1..e0], j - j0 - 1)
  {
    BracketAt(line, j);
    var data, k := line[j0 + 1..e0], j - j0 - 1;
    assert j0 < j < e0;
    assert data[k] == line[j];
    assert k > 0 ==> data[..k][k - 1] == line[j - 1];
    assert j0 < n < j - 1 ==> data[..k][..k - 1][n - j0 - 1] == line[n];
  }

  lemma MatchAtBracket(line: string, n0: nat, j0: nat, e0: nat, n: nat, j: nat)
    requires IsLaidOut(line, n0, j0, e0) && j0 < j < e0 && line[j] == ']'
    requires n0 <= n <= j && forall k | 3 <= k < n :: line[k] != ' '
    requires n == j || (line[n] == ' ' && n + 1 < j)
    ensures FindSubmatch(ADO, line).Some? && NotAfter(n, j, FindSubmatch(ADO, line).value)
  {
    BracketCloses(line, n0, j0, e0, j);
    assert MatchesAt(ADO, line, n, j);
  }

  /** And at such a bracket it finds a match. */
  lemma CutIsFound(line: string, n0: nat, j0: nat, e0: nat, k: nat)
    requires IsLaidOut(line, n0, j0, e0) && BracketCutAt(n0 < j0, line[j0 + 1..e0], k)
    ensures FindSubmatch(ADO, line).Some? && FindSubmatch(ADO, line) != Some((n0, j0))
  {
    hide FindSubmatch, EndsInFirstSpace, OccursAt, IndexOf;
    var data, j := line[j0 + 1..e0], j0 + 1 + k;
    assert line[j] == data[k] == ']';
    if n0 < j0 {
      MatchAtBracket(line, n0, j0, e0, n0, j);
    } else {
      FirstSpaceIs(data, k);
      assert data[..k] == line[j0 + 1..j];
      SpaceWithin(line, j0 + 1, j);
      MatchAtBracket(line, n0, j0, e0, j0 + 1 + IndexOf(line[j0 + 1..j], ' '), j);
    }
  }

  lemma CutsAtBracket(line: string, n0: nat, j0: nat, e0: nat)
    requires IsLaidOut(line, n0, j0, e0)
    ensures FindSubmatch(ADO, line).Some?
    ensures var (n, j) := FindSubmatch(ADO, line).value;
            if HasBracketCut(n0 < j0, line[j0 + 1..e0]) then j0 < j < e0 else (n, j) == (n0, j0)
  {
    hide BracketCutAt, EndsInFirstSpace;
    BracketCloses(line, n0, j0, e0, j0);
    assert MatchesAt(ADO, line, n0, j0);
    var (n, j) := FindSubmatch(ADO, line).value;
    if (n, j) != (n0, j0) {
      PreferredIsCut(line, n0, j0, e0, n, j);
    }
    var listed, data := n0 < j0, line[j0 + 1..e0];
    if k: nat :| BracketCutAt(listed, data, k) {
      CutIsFound(line, n0, j0, e0, k);
    }
  }

  lemma OpensAsADO(line: string)
    requires OccursAt("##[", line, 0)
    ensures FindSubmatch(GA, line) == None
  {
    assert line[0..3][0] == line[0];
    assert |line| >= 2 ==> line[0..2][0] == line[0];
  }

  function BracketLine(name: string, list: Option<string>, data: string, ending: string): string {
    "##[" + name + Listed(list) + "]" + data + ending
  }

  /** Name and list can be read by the pattern, data and ending are those of one line. */
  predicate IsReadable(name: string, list: Option<string>, data: string, ending: string) {
    && name != "" && ' ' !in name && (list.Some? ==> list.value != "" && '\n' !in list.value)
    && (forall c | c in data :: !IsBreak(c)) && ending != "" && AllBreaks(ending)
  }

  /** A line in this form is read as its name, its list and its data exactly when the data has no such
      bracket. */
  lemma BracketLineReadIff(name: string, list: Option<string>, data: string, ending: string)
    requires IsReadable(name, list, data, ending)
    ensures TryParseRawActionCommand(BracketLine(name, list, data, ending)) ==
            Some(Command(name, PairsOf(Split(if list.Some? then list.value else "", ';'), map[]), data)) <==>
            !HasBracketCut(list.Some?, data)
  {
    hide BracketLine, IsReadable, IsLaidOut, TryParseRawActionCommand, HasBracketCut;
    var n0, j0, e0 := LineIsLaidOut(name, list, data, ending);
    LaidOutReadIff(BracketLine(name, list, data, ending), n0, j0, e0);
  }

  lemma LineIsLaidOut(name: string, list: Option<string>, data: string, ending: string)
    returns (n0: nat, j0: nat, e0: nat)
    requires IsReadable(name, list, data, ending)
    ensures var line := BracketLine(name, list, data, ending);
            && IsLaidOut(line, n0, j0, e0) && n0 <= j0 && (n0 < j0 <==> list.Some?)
            && line[3..n0] == name && line[j0 + 1..e0] == data
            && (list.Some? ==> line[n0 + 1..j0] == list.value)
  {
    n0 := 3 + |name|;
    j0 := n0 + |Listed(list)|;
    e0 := j0 + 1 + |data|;
    SlicesOfLine(name, Listed(list), data, ending);
    var line := BracketLine(name, list, data, ending);
    assert IsReadable(name, list, data, ending) && (list.Some? ==> Listed(list) == " " + list.value);
    hide BracketLine, Listed;
    SlicesLayOut(line, n0, j0, e0, list);
  }

  lemma SlicesOfLine(name: string, middle: string, data: string, ending: string)
    ensures var line, n0 := "##[" + name + middle + "]" + data + ending, 3 + |name|;
            var j0 := n0 + |middle|;
            var e0 := j0 + 1 + |data|;
            && j0 < e0 <= |line|
            && line[0..3] == "##[" && line[3..n0] == name && line[n0..j0] == middle && line[j0..j0 + 1] == "]"
            && line[j0 + 1..e0] == data && line[e0..] == ending
  {
  }

  lemma SlicesLayOut(line: string, n0: nat, j0: nat, e0: nat, list: Option<string>)
    requires 3 <= n0 <= j0 < e0 <= |line|
    requires line[0..3] == "##[" && line[n0..j0] == (if list.Some? then " " + list.value else "")
    requires line[j0..j0 + 1] == "]" && IsReadable(line[3..n0], list, line[j0 + 1..e0], line[e0..])
    ensures IsLaidOut(line, n0, j0, e0) && (n0 < j0 <==> list.Some?)
    ensures list.Some? ==> line[n0 + 1..j0] == list.value
  {
    assert forall k | 3 <= k < n0 :: line[k] == line[3..n0][k - 3];
    assert forall k | j0 < k < e0 :: line[k] == line[j0 + 1..e0][k - j0 - 1];
    assert forall k | e0 <= k < |line| :: line[k] == line[e0..][k - e0];
    assert line[j0..j0 + 1][0] == line[j0];
    if list.Some? {
      assert line[n0..j0][0] == line[n0];
      assert line[n0 + 1..j0] == line[n0..j0][1..] == list.value;
      assert forall k | n0 < k < j0 :: line[k] == list.value[k - n0 - 1];
    }
  }

  lemma LaidOutReadIff(line: string, n0: nat, j0: nat, e0: nat)
    requires IsLaidOut(line, n0, j0, e0)
    ensures TryParseRawActionCommand(line) ==
            Some(Command(line[3..n0], PairsOf(Split(if j0 == n0 then "" else line[n0 + 1..j0], ';'), map[]),
                         line[j0 + 1..e0])) <==>
            !HasBracketCut(n0 < j0, line[j0 + 1..e0])
  {
    hide PairsOf, Split, FindSubmatch, HasBracketCut;
    CutsAtBracket(line, n0, j0, e0);
    OpensAsADO(line);
    var (n, j) := FindSubmatch(ADO, line).value;
    assert line[j] == ']' by { BracketAt(line, j); }
    BracketCloses(line, n0, j0, e0, j);
    hide BreakFrom, OccursAt;
    assert TryParseRawActionCommand(line) == Some(Parts(ADO, line, n, j));
    assert |Parts(ADO, line, n, j).arg| == e0 - j - 1;
  }

  // ---------------------------------------------------------------- its property list

  predicate IsSimple(p: Property) {
    '=' !in p.key && ';' !in p.key && '=' !in p.value && ';' !in p.value
  }

  function KeyValues(ps: seq<Property>): (r: seq<string>)
    ensures |r| == |ps| && forall i | 0 <= i < |r| :: r[i] == ps[i].key + "=" + ps[i].value
  {
    if ps == [] then [] else [ps[0].key + "=" + ps[0].value] + KeyValues(ps[1..])
  }

  lemma {:induction false} KeyValuesRead(ps: seq<Property>, m: map<string, string>)
    requires forall p | p in ps :: IsSimple(p)
    ensures PairsOf(KeyValues(ps), m) == MapOf(ps, m)
    decreases |ps|
  {
    if ps != [] {
      hide Split;
      var p := ps[0];
      assert p in ps;
      KeyValueRead(p);
      assert KeyValues(ps)[1..] == KeyValues(ps[1..]);
      KeyValuesRead(ps[1..], m[p.key := p.value]);
    }
  }

  lemma KeyValueRead(p: Property)
    requires IsSimple(p)
    ensures Split(p.key + "=" + p.value, '=') == [p.key, p.value]
  {
    SplitCons(p.key, '=', p.value);
    assert IndexOf(p.value, '=') == |p.value|;
    assert p.key + ['='] + p.value == p.key + "=" + p.value;
  }

  /** Simple properties joined by semicolons are read back, a later one overriding. */
  lemma SemicolonListRead(ps: seq<Property>)
    requires ps != [] && forall p | p in ps :: IsSimple(p)
    ensures PairsOf(Split(Join(KeyValues(ps), ';'), ';'), map[]) == MapOf(ps, map[])
  {
    hide PairsOf, MapOf;
    var pieces := KeyValues(ps);
    forall i | 0 <= i < |pieces| ensures ';' !in pieces[i] {
      assert ps[i] in ps && IsSimple(ps[i]);
      assert forall c | c in pieces[i] :: c in ps[i].key || c == '=' || c in ps[i].value;
    }
    SplitJoin(pieces, ';');
    KeyValuesRead(ps, map[]);
  }

  /** So such a line is received as what it names. */
  lemma BracketLineReceived(name: string, ps: seq<Property>, data: string, ending: string)
    requires name != "" && ' ' !in name && ps != []
    requires forall p | p in ps :: IsSimple(p) && '\n' !in p.key && '\n' !in p.value
    requires (forall c | c in data :: !IsBreak(c) && c != ']') && ending != "" && AllBreaks(ending)
    ensures Received(BracketLine(name, Some(Join(KeyValues(ps), ';')), data, ending)) ==
            Some(Command(name, UnescapedValues(MapOf(ps, map[])), UnescapeCommandData(data)))
  {
    hide PairsOf, MapOf, Split, TryParseRawActionCommand, UnescapeCommandData, UnescapeCommandProperty,
      EndsInFirstSpace;
    var list := Join(KeyValues(ps), ';');
    SemicolonListRead(ps);
    ListIsOneLine(ps);
    forall k: nat ensures !BracketCutAt(true, data, k) {
      assert k < |data| ==> data[k] in data;
    }
    BracketLineReadIff(name, Some(list), data, ending);
  }

  lemma ListIsOneLine(ps: seq<Property>)
    requires ps != [] && forall p | p in ps :: '\n' !in p.key && '\n' !in p.value
    ensures Join(KeyValues(ps), ';') != "" && '\n' !in Join(KeyValues(ps), ';')
  {
    var pieces := KeyValues(ps);
    forall i | 0 <= i < |pieces| ensures '\n' !in pieces[i] {
      assert ps[i] in ps;
      assert forall c | c in pieces[i] :: c in ps[i].key || c == '=' || c in ps[i].value;
    }
    JoinOnlyHolds(pieces, ';', '\n');
    assert pieces[0] != "";
  }
}
