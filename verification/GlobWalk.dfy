/** The directory walk behind hashFiles: what it descends into and what it yields. */
module GlobWalk {
  import opened Basics
  import opened Glob

  /** The names from the root to a file or directory; [] is the root itself. */
  type Path = seq<string>

  /** Which of directories and files a match covers. */
  datatype Kind = Kind(dirs: bool, files: bool)

  const NO_MATCH := Kind(false, false)

  /** `segments` are those after the root. `search` is the literal path before the first glob segment. */
  datatype Pattern = Pattern(negate: bool, trailingSeparator: bool, segments: seq<Segment>, search: Path)

  predicate Accepts(segment: Segment, s: string) {
    match segment
    case Globstar => true
    case Literal(text) => s == text
    case Magic(accepts) => accepts(s)
    case Broken => false
  }

  /** The search path's segments are literal: each accepts one name only, and it is not empty. */
  ghost predicate WellFormed(p: Pattern) {
    && |p.search| <= |p.segments|
    && forall i | 0 <= i < |p.search| ::
         p.search[i] != "" && !p.segments[i].Globstar? && forall s | Accepts(p.segments[i], s) :: s == p.search[i]
  }

  /** The pattern as split at the slashes, the empty segment before the root's slash first. */
  function Compiled(p: Pattern): seq<Segment> {
    [Literal("")] + (if p.segments == [] then [Literal("")] else p.segments)
  }

  /** A path as split at the slashes. A final globstar wants a trailing slash, and so does the root. */
  function Split(p: Pattern, path: Path): seq<string> {
    if path == [] || (p.segments != [] && p.segments[|p.segments| - 1].Globstar?) then [""] + path + [""]
    else [""] + path
  }

  predicate Matches(p: Pattern, path: Path) {
    MatchOne(Split(p, path), Compiled(p), false)
  }

  function MatchKind(p: Pattern, path: Path): Kind {
    if Matches(p, path) then Kind(true, !p.trailingSeparator) else NO_MATCH
  }

  /** Whether the pattern may match something below the path. */
  predicate PartialMatch(p: Pattern, path: Path) {
    path == [] || MatchOne([""] + path, Compiled(p), true)
  }

  /** The patterns in order: each adds what it matches, or takes it away if negated. */
  function MatchAll(ps: seq<Pattern>, path: Path): Kind {
    if ps == [] then NO_MATCH else
      var before := MatchAll(ps[..|ps| - 1], path);
      var k := MatchKind(ps[|ps| - 1], path);
      if ps[|ps| - 1].negate then Kind(before.dirs && !k.dirs, before.files && !k.files)
      else Kind(before.dirs || k.dirs, before.files || k.files)
  }

  predicate PartialMatchAny(ps: seq<Pattern>, path: Path) {
    exists i | 0 <= i < |ps| :: !ps[i].negate && PartialMatch(ps[i], path)
  }

  // ---------------------------------------------------------------- what a pattern list means

  /** The path is divided among the pattern's segments in order: `**` takes any number of names, none at
      all included, that are not dots, and every other segment one name that it accepts. */
  ghost predicate Divided(segments: seq<Segment>, path: Path, parts: seq<Path>) {
    && |parts| == |segments| && Flatten(parts) == path
    && forall i | 0 <= i < |parts| :: Takes(segments[i], parts[i])
  }

  ghost predicate Fits(segments: seq<Segment>, path: Path) {
    exists parts :: Divided(segments, path, parts)
  }

  predicate EndsInGlobstar(segments: seq<Segment>) {
    segments != [] && segments[|segments| - 1].Globstar?
  }

  /** The path of something other than the root. */
  predicate IsNamed(path: Path) {
    path != [] && "" !in path
  }

  lemma DividedCons(segment: Segment, part: Path, segments: seq<Segment>, path: Path, parts: seq<Path>)
    requires Takes(segment, part) && Divided(segments, path, parts)
    ensures Divided([segment] + segments, part + path, [part] + parts)
  {
    hide Takes;
    var all := [part] + parts;
    assert all[1..] == parts;
    forall i | 0 <= i < |all| ensures Takes(([segment] + segments)[i], all[i]) {
      if i > 0 { assert Takes(segments[i - 1], parts[i - 1]); }
    }
  }

  lemma DividedFirst(segments: seq<Segment>, path: Path, parts: seq<Path>)
    requires Divided(segments, path, parts) && segments != []
    ensures Takes(segments[0], parts[0]) && path == parts[0] + Flatten(parts[1..])
    ensures Divided(segments[1..], Flatten(parts[1..]), parts[1..])
  {
    hide Takes;
    forall i | 0 <= i < |parts[1..]| ensures Takes(segments[1..][i], parts[1..][i]) {
      assert Takes(segments[i + 1], parts[i + 1]);
    }
  }

  /** In the matcher's terms, before and after the empty names that stand for the slashes at either end. */
  lemma {:induction false} DividedAligns(segments: seq<Segment>, path: Path, parts: seq<Path>)
    requires Divided(segments, path, parts)
    ensures var end := if EndsInGlobstar(segments) then [""] else [];
            IsAligned(path + end, segments, false)
    decreases |segments|
  {
    hide Takes;
    if segments == [] {
      assert Aligned(path + [], [], [], false);
    } else {
      DividedFirst(segments, path, parts);
      var rest := Flatten(parts[1..]);
      if |segments| == 1 {
        assert parts[1..] == [] && path + [] == path && rest == [] && parts[0] + [] == parts[0];
        LastAligns(segments[0], parts[0]);
        assert segments == [segments[0]];
      } else {
        DividedAligns(segments[1..], rest, parts[1..]);
        var end := if EndsInGlobstar(segments) then [""] else [];
        var aligned :| Aligned(rest + end, segments[1..], aligned, false);
        AlignedCons(parts[0], rest + end, segments, aligned, false);
        ConcatAssociative(parts[0], rest, end);
      }
    }
  }

  lemma LastAligns(segment: Segment, part: Path)
    requires Takes(segment, part)
    ensures IsAligned(part + if segment.Globstar? then [""] else [], [segment], false)
  {
    var all := part + if segment.Globstar? then [""] else [];
    assert all != [] && Takes(segment, all);
    assert Flatten([all]) == all + Flatten([]) == all;
    assert Aligned(all, [segment], [all], false);
  }

  lemma {:induction false} AlignsDivided(segments: seq<Segment>, path: Path, parts: seq<Path>)
    returns (divided: seq<Path>)
    requires "" !in path
    requires Aligned(path + if EndsInGlobstar(segments) then [""] else [], segments, parts, false)
    ensures Divided(segments, path, divided)
    decreases |segments|
  {
    hide Takes;
    var end := if EndsInGlobstar(segments) then [""] else [];
    if segments == [] {
      divided := [];
      assert path + [] == path;
      assert "" in [""];
    } else if |segments| == 1 {
      divided := [path];
      LastDivides(segments, path, parts);
      assert Flatten([path]) == path + Flatten([]) == path;
    } else {
      var n := |parts[0]|;
      AlignedFirst(path + end, segments, parts, false);
      hide Aligned;
      if n > |path| {
        assert (path + end)[n..] == [];
        NothingAligned(segments[1..], parts[1..]);
      }
      assert (path + end)[n..] == path[n..] + end && parts[0] == path[..n] && path == path[..n] + path[n..];
      divided := AlignsDivided(segments[1..], path[n..], parts[1..]);
      DividedCons(segments[0], parts[0], segments[1..], path[n..], divided);
      divided := [parts[0]] + divided;
      assert segments == [segments[0]] + segments[1..];
    }
  }

  lemma LastDivides(segments: seq<Segment>, path: Path, parts: seq<Path>)
    requires |segments| == 1 && "" !in path
    requires Aligned(path + if EndsInGlobstar(segments) then [""] else [], segments, parts, false)
    ensures Takes(segments[0], path)
  {
    var part := parts[0];
    assert parts == [part] && Flatten(parts) == part + Flatten([]) == part;
    if segments[0].Globstar? {
      assert path + [""] == part || path + [""] == part + [""];
      assert (path + [""])[..|path|] == path && (part + [""])[..|part|] == part;
      assert forall s | s in path :: s in path + [""];
    } else {
      assert path + [] == path;
      assert "" in part + [""];
    }
  }

  /** A pattern matches a path below the root exactly if the path can be divided among its segments: the
      slashes at either end make no difference. */
  lemma MatchesIffFits(p: Pattern, path: Path)
    requires IsNamed(path)
    ensures Matches(p, path) <==> Fits(p.segments, path)
  {
    var end := if EndsInGlobstar(p.segments) then [""] else [];
    assert Split(p, path) == [""] + (path + end);
    assert ([""] + (path + end))[1..] == path + end && path[0] in path;
    assert Compiled(p)[1..] == if p.segments == [] then [Literal("")] else p.segments;
    assert Matches(p, path) == MatchOne(path + end, Compiled(p)[1..], false);
    if p.segments != [] {
      MatchIffAligned(path + end, p.segments, false);
      hide MatchOne, Divided, Aligned;
      if parts :| Divided(p.segments, path, parts) { DividedAligns(p.segments, path, parts); }
      if parts :| Aligned(path + end, p.segments, parts, false) {
        var divided := AlignsDivided(p.segments, path, parts);
      }
    }
  }

  /** Some beginning of the pattern fits the path. */
  ghost predicate FitsPartly(segments: seq<Segment>, path: Path) {
    exists k: nat | k <= |segments| :: Fits(segments[..k], path)
  }

  /** The walk descends into a directory below the root for a pattern exactly if some beginning of the
      pattern fits it. */
  lemma PartialMatchIff(p: Pattern, path: Path)
    requires IsNamed(path)
    ensures PartialMatch(p, path) <==> FitsPartly(p.segments, path)
  {
    var file, pattern := [""] + path, Compiled(p);
    MatchIffAligned(file, pattern, true);
    hide MatchOne, Takes;
    if parts :| Aligned(file, pattern, parts, true) {
      PartlyFits(p, path, parts);
    }
    if k: nat :| k <= |p.segments| && Fits(p.segments[..k], path) {
      var parts :| Divided(p.segments[..k], path, parts);
      PartlyAligns(p, path, k, parts);
    }
  }

  lemma PartlyFits(p: Pattern, path: Path, parts: seq<Path>)
    requires IsNamed(path) && Aligned([""] + path, Compiled(p), parts, true)
    ensures FitsPartly(p.segments, path)
  {
    var file, pattern := [""] + path, Compiled(p);
    assert parts != [];
    AlignedFirst(file, pattern, parts, true);
    assert parts[0] == [""] && file[1..] == path && path[0] in path;
    var rest, k := parts[1..], |parts| - 1;
    assert "" in Flatten(rest) + [""];
    assert path == Flatten(rest) && rest != [];
    hide Takes;
    assert p.segments != [] ==> pattern[1..] == p.segments;
    forall i | 0 <= i < k ensures Takes(p.segments[..k][i], rest[i]) {
      assert Takes(pattern[1..][i], rest[i]);
    }
    assert Divided(p.segments[..k], path, rest);
  }

  lemma PartlyAligns(p: Pattern, path: Path, k: nat, parts: seq<Path>)
    requires IsNamed(path) && k <= |p.segments| && Divided(p.segments[..k], path, parts)
    ensures IsAligned([""] + path, Compiled(p), true)
  {
    var end, segments := k, p.segments;
    var all := parts;
    if k == |segments| && k > 0 && parts[k - 1] == [] {
      end, all := k - 1, parts[..k - 1];
      assert parts == all + [[]] && Flatten<string>([[]]) == [];
      FlattenAppend(all, [[]]);
      assert Flatten(all) + [] == Flatten(all);
    }
    hide Takes;
    forall i | 0 <= i < end ensures Takes(segments[i], all[i]) {
      assert Takes(segments[..k][i], parts[i]);
    }
    var whole := [[""]] + all;
    assert whole[1..] == all && Flatten(whole) == [""] + path;
    assert all != [];
    forall i | 0 <= i < |whole| ensures Takes(Compiled(p)[i], whole[i]) {
      if i == 0 { TakesName(""); } else { assert Takes(segments[i - 1], all[i - 1]); }
    }
    assert Aligned([""] + path, Compiled(p), whole, true);
  }

  lemma TakesName(name: string)
    ensures Takes(Literal(name), [name])
  {
  }

  /** `**` may take nothing, wherever it stands. */
  lemma GlobstarTakesNothing(a: seq<Segment>, b: seq<Segment>, path: Path)
    requires Fits(a + b, path)
    ensures Fits(a + [Globstar] + b, path)
  {
    var parts :| Divided(a + b, path, parts);
    var segments, all := a + [Globstar] + b, parts[..|a|] + [[]] + parts[|a|..];
    assert parts == parts[..|a|] + parts[|a|..];
    FlattenAppend(parts[..|a|], parts[|a|..]);
    FlattenAppend(parts[..|a|], [[]]);
    FlattenAppend(parts[..|a|] + [[]], parts[|a|..]);
    assert Flatten<string>([[]]) == [] && Flatten(parts[..|a|]) + [] == Flatten(parts[..|a|]);
    assert Takes(Globstar, []);
    hide Takes, Flatten;
    forall i | 0 <= i < |all| ensures Takes(segments[i], all[i]) {
      if i < |a| {
        assert Takes((a + b)[i], parts[i]);
      } else if i > |a| {
        assert Takes((a + b)[i - 1], parts[i - 1]);
      }
    }
    assert Divided(segments, path, all);
  }

  /** So a pattern for a file anywhere below a directory matches the one right in it. */
  lemma RightBelowMatches(dir: string, file: string)
    requires dir != "" && file != ""
    ensures Matches(Pattern(false, false, [Literal(dir), Globstar, Literal(file)], [dir]), [dir, file])
  {
    var parts := [[dir], [file]];
    assert parts[1..] == [[file]] && Flatten([[file]]) == [file] + Flatten<string>([]) == [file];
    assert Divided([Literal(dir)] + [Literal(file)], [dir, file], parts);
    GlobstarTakesNothing([Literal(dir)], [Literal(file)], [dir, file]);
    assert [Literal(dir)] + [Globstar] + [Literal(file)] == [Literal(dir), Globstar, Literal(file)];
    MatchesIffFits(Pattern(false, false, [Literal(dir), Globstar, Literal(file)], [dir]), [dir, file]);
  }

  /** With `**` behind it, a pattern fits what lies at or below a path that it fits. */
  lemma GlobstarReachesBelow(segments: seq<Segment>, path: Path)
    ensures Fits(segments + [Globstar], path) <==>
            exists k: nat | k <= |path| :: Fits(segments, path[..k]) && forall s | s in path[k..] :: !IsDots(s)
  {
    if parts :| Divided(segments + [Globstar], path, parts) {
      BelowOfParts(segments, path, parts);
    }
    if k: nat :| k <= |path| && Fits(segments, path[..k]) && forall s | s in path[k..] :: !IsDots(s) {
      var parts :| Divided(segments, path[..k], parts);
      PartsOfBelow(segments, path, k, parts);
    }
  }

  lemma BelowOfParts(segments: seq<Segment>, path: Path, parts: seq<Path>)
    requires Divided(segments + [Globstar], path, parts)
    ensures exists k: nat | k <= |path| :: Fits(segments, path[..k]) && forall s | s in path[k..] :: !IsDots(s)
  {
    var n := |segments|;
    var init, last := parts[..n], parts[n];
    assert parts == init + [last] && Flatten([last]) == last + Flatten([]) == last;
    FlattenAppend(init, [last]);
    var k := |Flatten(init)|;
    assert path[..k] == Flatten(init) && path[k..] == last;
    assert Takes((segments + [Globstar])[n], last);
    forall i | 0 <= i < n ensures Takes(segments[i], init[i]) {
      assert Takes((segments + [Globstar])[i], parts[i]);
    }
    assert Divided(segments, path[..k], init);
  }

  lemma PartsOfBelow(segments: seq<Segment>, path: Path, k: nat, parts: seq<Path>)
    requires k <= |path| && Divided(segments, path[..k], parts) && forall s | s in path[k..] :: !IsDots(s)
    ensures Fits(segments + [Globstar], path)
  {
    var all := parts + [path[k..]];
    FlattenAppend(parts, [path[k..]]);
    assert Flatten([path[k..]]) == path[k..] + Flatten([]) == path[k..];
    assert path == path[..k] + path[k..];
    forall i | 0 <= i < |all| ensures Takes((segments + [Globstar])[i], all[i]) {
      if i < |segments| { assert Takes(segments[i], parts[i]); }
    }
    assert Divided(segments + [Globstar], path, all);
  }

  /** What a pattern is asked about: a file, a directory, or whatever lies at or below what it fits. */
  datatype Coverage = OfFile | OfDirectory | AtOrBelow

  /** A pattern that ends in a slash covers no files. */
  ghost predicate Covers(p: Pattern, path: Path, c: Coverage) {
    match c
    case OfFile => !p.trailingSeparator && Fits(p.segments, path)
    case OfDirectory => Fits(p.segments, path)
    case AtOrBelow => exists k: nat | k <= |path| :: Fits(p.segments, path[..k])
  }

  /** Some pattern covers the path, and no negated one after it does. */
  ghost predicate Chosen(ps: seq<Pattern>, path: Path, c: Coverage) {
    exists i | 0 <= i < |ps| ::
      && !ps[i].negate && Covers(ps[i], path, c)
      && forall j | i < j < |ps| && ps[j].negate :: !Covers(ps[j], path, c)
  }

  lemma ChosenLast(ps: seq<Pattern>, path: Path, c: Coverage)
    requires ps != []
    ensures var init, last := ps[..|ps| - 1], ps[|ps| - 1];
            Chosen(ps, path, c) <==>
            if last.negate then Chosen(init, path, c) && !Covers(last, path, c)
            else Chosen(init, path, c) || Covers(last, path, c)
  {
    hide Covers;
    var n, init := |ps| - 1, ps[..|ps| - 1];
    if Chosen(ps, path, c) {
      var i :| 0 <= i < |ps| && !ps[i].negate && Covers(ps[i], path, c) &&
               forall j | i < j < |ps| && ps[j].negate :: !Covers(ps[j], path, c);
      if i < n { assert init[i] == ps[i] && Chosen(init, path, c); }
    }
    if Chosen(init, path, c) && !(ps[n].negate && Covers(ps[n], path, c)) {
      var i :| 0 <= i < |init| && !init[i].negate && Covers(init[i], path, c) &&
               forall j | i < j < |init| && init[j].negate :: !Covers(init[j], path, c);
      assert ps[i] == init[i];
      assert forall j | i < j < n && ps[j].negate :: !Covers(init[j], path, c);
    }
  }

  /** What the pattern list matches below the root, without the matcher. */
  lemma {:induction false} MatchAllIsChosen(ps: seq<Pattern>, path: Path)
    requires IsNamed(path)
    ensures MatchAll(ps, path) == Kind(Chosen(ps, path, OfDirectory), Chosen(ps, path, OfFile))
  {
    if ps != [] {
      hide Matches, Fits, Chosen;
      MatchAllIsChosen(ps[..|ps| - 1], path);
      MatchesIffFits(ps[|ps| - 1], path);
      ChosenLast(ps, path, OfDirectory);
      ChosenLast(ps, path, OfFile);
    }
  }

  // ---------------------------------------------------------------- pruning is safe

  lemma MatchReachesPrefix(p: Pattern, path: Path, k: nat)
    requires Matches(p, path) && k <= |path|
    ensures PartialMatch(p, path[..k])
  {
    if k > 0 {
      MatchPrefix(Split(p, path), Compiled(p), k + 1);
      assert Split(p, path)[..k + 1] == [""] + path[..k];
    }
  }

  lemma {:induction false} SomePatternMatches(ps: seq<Pattern>, path: Path)
    requires MatchAll(ps, path) != NO_MATCH
    ensures exists i | 0 <= i < |ps| :: !ps[i].negate && Matches(ps[i], path)
  {
    var init, last := ps[..|ps| - 1], ps[|ps| - 1];
    if MatchAll(init, path) != NO_MATCH {
      SomePatternMatches(init, path);
      var i :| 0 <= i < |init| && !init[i].negate && Matches(init[i], path);
      assert ps[i] == init[i];
    } else {
      assert !ps[|ps| - 1].negate && Matches(ps[|ps| - 1], path);
    }
  }

  /** Wherever something is matched, every directory above it may be descended into. */
  lemma AncestorsReach(ps: seq<Pattern>, path: Path, k: nat)
    requires MatchAll(ps, path) != NO_MATCH && k <= |path|
    ensures PartialMatchAny(ps, path[..k])
  {
    SomePatternMatches(ps, path);
    var i :| 0 <= i < |ps| && !ps[i].negate && Matches(ps[i], path);
    MatchReachesPrefix(ps[i], path, k);
  }

  // ---------------------------------------------------------------- the tree and the walk

  datatype Node = File | Dir(children: seq<Entry>)
  datatype Entry = Entry(name: string, node: Node)

  predicate Selected(ps: seq<Pattern>, path: Path, node: Node) {
    if node.Dir? then MatchAll(ps, path).dirs else MatchAll(ps, path).files
  }

  /** Every matched file and directory from here down, parents first, children in listing order. */
  function Wanted(ps: seq<Pattern>, path: Path, node: Node): seq<Path>
    decreases node, 0
  {
    (if Selected(ps, path, node) then [path] else []) +
    (if node.Dir? then WantedIn(ps, path, node.children) else [])
  }

  function WantedIn(ps: seq<Pattern>, path: Path, children: seq<Entry>): seq<Path>
    decreases children, 1
  {
    if children == [] then [] else
      Wanted(ps, path + [children[0].name], children[0].node) + WantedIn(ps, path, children[1..])
  }

  /** What the walk yields from here down: it stops where nothing matches, fully or partially. */
  function Visited(ps: seq<Pattern>, path: Path, node: Node): seq<Path>
    decreases node, 0
  {
    if MatchAll(ps, path) == NO_MATCH && !PartialMatchAny(ps, path) then []
    else
      (if Selected(ps, path, node) then [path] else []) +
      (if node.Dir? then VisitedIn(ps, path, node.children) else [])
  }

  function VisitedIn(ps: seq<Pattern>, path: Path, children: seq<Entry>): seq<Path>
    decreases children, 1
  {
    if children == [] then [] else
      Visited(ps, path + [children[0].name], children[0].node) + VisitedIn(ps, path, children[1..])
  }

  /** Nothing below a path that no pattern may match below is matched. */
  lemma {:induction false} NothingBelow(ps: seq<Pattern>, top: nat, path: Path, node: Node)
    requires top <= |path| && !PartialMatchAny(ps, path[..top])
    ensures Wanted(ps, path, node) == []
    decreases node, 0
  {
    if MatchAll(ps, path) != NO_MATCH {
      AncestorsReach(ps, path, top);
    }
    if node.Dir? {
      NothingBelowIn(ps, top, path, node.children);
    }
  }

  lemma {:induction false} NothingBelowIn(ps: seq<Pattern>, top: nat, path: Path, children: seq<Entry>)
    requires top <= |path| && !PartialMatchAny(ps, path[..top])
    ensures WantedIn(ps, path, children) == []
    decreases children, 1
  {
    if children != [] {
      var below := path + [children[0].name];
      assert below[..top] == path[..top];
      NothingBelow(ps, top, below, children[0].node);
      NothingBelowIn(ps, top, path, children[1..]);
    }
  }

  /** Pruning loses nothing: the walk yields every match below its starting point, once and in order. */
  lemma {:induction false} PruningLosesNothing(ps: seq<Pattern>, path: Path, node: Node)
    ensures Visited(ps, path, node) == Wanted(ps, path, node)
    decreases node, 0
  {
    if MatchAll(ps, path) == NO_MATCH && !PartialMatchAny(ps, path) {
      assert path[..|path|] == path;
      NothingBelow(ps, |path|, path, node);
    } else if node.Dir? {
      PruningLosesNothingIn(ps, path, node.children);
    }
  }

  lemma {:induction false} PruningLosesNothingIn(ps: seq<Pattern>, path: Path, children: seq<Entry>)
    ensures VisitedIn(ps, path, children) == WantedIn(ps, path, children)
    decreases children, 1
  {
    if children != [] {
      PruningLosesNothing(ps, path + [children[0].name], children[0].node);
      PruningLosesNothingIn(ps, path, children[1..]);
    }
  }

  // ---------------------------------------------------------------- the loop with its stack

  datatype Item = Item(path: Path, node: Node)

  /** What is still to come from a stack, its last item first. */
  function Pending(ps: seq<Pattern>, stack: seq<Item>): seq<Path> {
    if stack == [] then [] else
      var top := stack[|stack| - 1];
      Visited(ps, top.path, top.node) + Pending(ps, stack[..|stack| - 1])
  }

  function Size(node: Node): nat
    decreases node, 0
  {
    1 + if node.Dir? then SizeOf(node.children) else 0
  }

  function SizeOf(children: seq<Entry>): nat
    decreases children, 1
  {
    if children == [] then 0 else Size(children[0].node) + SizeOf(children[1..])
  }

  function StackSize(stack: seq<Item>): nat {
    if stack == [] then 0 else Size(stack[|stack| - 1].node) + StackSize(stack[..|stack| - 1])
  }

  /** The children of a directory as stack items, last child first. */
  function Reversed(path: Path, children: seq<Entry>): seq<Item> {
    if children == [] then [] else
      Reversed(path, children[1..]) + [Item(path + [children[0].name], children[0].node)]
  }

  lemma PendingPush(ps: seq<Pattern>, stack: seq<Item>, top: Item)
    ensures Pending(ps, stack + [top]) == Visited(ps, top.path, top.node) + Pending(ps, stack)
    ensures StackSize(stack + [top]) == Size(top.node) + StackSize(stack)
  {
    var full := stack + [top];
    assert full[..|full| - 1] == stack && full[|full| - 1] == top;
  }

  lemma {:induction false} PendingReversed(ps: seq<Pattern>, stack: seq<Item>, path: Path, children: seq<Entry>)
    ensures Pending(ps, stack + Reversed(path, children)) == VisitedIn(ps, path, children) + Pending(ps, stack)
    ensures StackSize(stack + Reversed(path, children)) == SizeOf(children) + StackSize(stack)
  {
    hide Pending, Visited, StackSize, Size;
    if children == [] {
      assert stack + [] == stack;
      assert [] + Pending(ps, stack) == Pending(ps, stack);
    } else {
      var first := Item(path + [children[0].name], children[0].node);
      var rest := Reversed(path, children[1..]);
      PendingReversed(ps, stack, path, children[1..]);
      PendingPush(ps, stack + rest, first);
      ConcatAssociative(stack, rest, [first]);
      ConcatAssociative(Visited(ps, first.path, first.node), VisitedIn(ps, path, children[1..]), Pending(ps, stack));
    }
  }

  /** The walk from a stack of starting points yields, from its last to its first, everything matched
      below them. */
  method GlobGenerator(ps: seq<Pattern>, start: seq<Item>) returns (found: seq<Path>)
    ensures found == Pending(ps, start)
  {
    var stack := start;
    found := [];
    while stack != []
      invariant found + Pending(ps, stack) == Pending(ps, start)
      decreases StackSize(stack)
    {
      var item := stack[|stack| - 1];
      ghost var before := found;
      stack := stack[..|stack| - 1];
      ghost var below := Pending(ps, stack);
      var kind := MatchAll(ps, item.path);
      var partial := kind != NO_MATCH || PartialMatchAny(ps, item.path);
      ghost var own := if Selected(ps, item.path, item.node) then [item.path] else [];
      ghost var kids := if item.node.Dir? then VisitedIn(ps, item.path, item.node.children) else [];
      assert Pending(ps, start) == before + (Visited(ps, item.path, item.node) + below);
      hide Pending, Visited, VisitedIn, MatchAll, PartialMatchAny;
      if kind == NO_MATCH && !partial {
        assert [] + below == below;
        continue;
      }
      Regroup(before, own, kids, below);
      if item.node.Dir? {
        if kind.dirs {
          found := found + [item.path];
        } else if !partial {
          continue;
        }
        PendingReversed(ps, stack, item.path, item.node.children);
        stack := stack + Reversed(item.path, item.node.children);
      } else if kind.files {
        found := found + [item.path];
      }
    }
  }

  lemma Regroup<T>(a: seq<T>, b: seq<T>, c: seq<T>, d: seq<T>)
    ensures a + ((b + c) + d) == (a + b) + (c + d)
    ensures a + [] == a && [] + d == d
  {
  }

  // ---------------------------------------------------------------- implicit descendants

  /** A pattern that ends in a globstar or is not a directory's stands for what lies below, too. */
  function WithDescendants(ps: seq<Pattern>): seq<Pattern> {
    if ps == [] then [] else [ps[0]] + Descendants(ps[0]) + WithDescendants(ps[1..])
  }

  function Descendants(p: Pattern): seq<Pattern> {
    if p.trailingSeparator || p.segments == [] || !p.segments[|p.segments| - 1].Globstar? then
      [Pattern(p.negate, false, p.segments + [Globstar], p.search)]
    else []
  }

  /** With its descendants a pattern covers, files and directories alike, what lies at or below anything it
      fits. */
  lemma DescendantsCover(p: Pattern, path: Path, c: Coverage)
    requires c != AtOrBelow && forall s | s in path :: !IsDots(s)
    ensures Covers(p, path, AtOrBelow) <==>
            Covers(p, path, c) || exists q | q in Descendants(p) :: Covers(q, path, c)
  {
    hide Fits, IsDots;
    GlobstarReachesBelow(p.segments, path);
    assert path[..|path|] == path;
    assert forall k: nat | k <= |path| :: forall s | s in path[k..] :: s in path;
    if Descendants(p) == [] {
      if k: nat :| k <= |path| && Fits(p.segments, path[..k]) { FitsBelow(p.segments, path, k); }
    } else {
      var q := Descendants(p)[0];
      assert q in Descendants(p) && Descendants(p) == [q];
      assert Covers(q, path, c) <==> Fits(p.segments + [Globstar], path);
      if k: nat :| k <= |path| && Fits(p.segments, path[..k]) {
        assert forall s | s in path[k..] :: !IsDots(s);
      }
    }
  }

  lemma FitsBelow(segments: seq<Segment>, path: Path, k: nat)
    requires EndsInGlobstar(segments) && k <= |path| && Fits(segments, path[..k])
    requires forall s | s in path :: !IsDots(s)
    ensures Fits(segments, path)
  {
    hide Fits, IsDots;
    var init := segments[..|segments| - 1];
    assert segments == init + [Globstar];
    GlobstarReachesBelow(init, path[..k]);
    GlobstarReachesBelow(init, path);
    var m: nat :| m <= k && Fits(init, path[..k][..m]);
    assert path[..k][..m] == path[..m];
    assert forall s | s in path[m..] :: s in path;
  }

  /** So a list with its descendants chooses what lies at or below anything that its patterns fit, unless a
      later pattern takes it away. */
  lemma {:induction false} SearchedIsChosen(ps: seq<Pattern>, path: Path, c: Coverage)
    requires c != AtOrBelow && forall s | s in path :: !IsDots(s)
    ensures Chosen(WithDescendants(ps), path, c) <==> Chosen(ps, path, AtOrBelow)
  {
    hide Covers, Descendants, IsDots;
    if ps != [] {
      var init, last := ps[..|ps| - 1], ps[|ps| - 1];
      assert ps == init + [last];
      SearchedIsChosen(init, path, c);
      WithDescendantsSnoc(init, last);
      DescendantsCover(last, path, c);
      DescendantsAreOne(last);
      ChosenLast(ps, path, AtOrBelow);
      hide Chosen, WithDescendants;
      var all := WithDescendants(init);
      ChosenAppend(all, last, path, c);
      if Descendants(last) == [] {
        assert all + ([last] + []) == all + [last];
      } else {
        var q := Descendants(last)[0];
        assert all + ([last] + [q]) == all + [last] + [q];
        ChosenAppend(all + [last], q, path, c);
      }
    }
  }

  lemma DescendantsAreOne(p: Pattern)
    ensures Descendants(p) != [] ==> Descendants(p) == [Descendants(p)[0]] && Descendants(p)[0].negate == p.negate
  {
  }

  lemma ChosenAppend(ps: seq<Pattern>, p: Pattern, path: Path, c: Coverage)
    ensures Chosen(ps + [p], path, c) <==>
            if p.negate then Chosen(ps, path, c) && !Covers(p, path, c)
            else Chosen(ps, path, c) || Covers(p, path, c)
  {
    hide Chosen, Covers;
    assert (ps + [p])[..|ps|] == ps;
    ChosenLast(ps + [p], path, c);
  }

  lemma {:induction false} DescendantsAreWellFormed(ps: seq<Pattern>)
    requires forall p | p in ps :: WellFormed(p)
    ensures forall p | p in WithDescendants(ps) :: WellFormed(p)
  {
    if ps != [] {
      hide WellFormed;
      assert ps[0] in ps;
      StaysWellFormed(ps[0]);
      DescendantsAreWellFormed(ps[1..]);
    }
  }

  lemma StaysWellFormed(p: Pattern)
    requires WellFormed(p)
    ensures forall q | q in Descendants(p) :: WellFormed(q)
  {
    hide Accepts;
  }

  lemma {:induction false} WithDescendantsSnoc(ps: seq<Pattern>, p: Pattern)
    ensures WithDescendants(ps + [p]) == WithDescendants(ps) + ([p] + Descendants(p))
  {
    hide Descendants;
    if ps == [] {
      assert [] + [p] == [p] && [p][1..] == [];
      assert WithDescendants([p]) == [p] + Descendants(p) + WithDescendants([]);
    } else {
      assert (ps + [p])[1..] == ps[1..] + [p];
      WithDescendantsSnoc(ps[1..], p);
    }
  }

  // ---------------------------------------------------------------- where the walk starts

  /** The search paths of the patterns that are not negated. */
  function Candidates(ps: seq<Pattern>): seq<Path> {
    if ps == [] then [] else (if ps[0].negate then [] else [ps[0].search]) + Candidates(ps[1..])
  }

  /** Every candidate lies at or below one of the roots, and no root lies below another candidate. */
  ghost predicate CoveredBy(cands: seq<Path>, roots: seq<Path>) {
    && (forall c | c in cands :: exists r | r in roots :: r <= c)
    && (forall r | r in roots :: r in cands && forall c | c in cands :: !(c < r))
    && Distinct(roots)
  }

  lemma {:induction false} ShortestPrefix(cands: seq<Path>, c: Path) returns (r: Path)
    requires c in cands
    ensures r in cands && r <= c && forall d | d in cands :: !(d < r)
    decreases |c|
  {
    r := c;
    if d :| d in cands && d < c {
      r := ShortestPrefix(cands, d);
    }
  }

  /** The candidates without duplicates and without those below another one. */
  method GetSearchPaths(ps: seq<Pattern>) returns (roots: seq<Path>)
    ensures CoveredBy(Candidates(ps), roots)
  {
    var cands := Candidates(ps);
    roots := [];
    for i := 0 to |cands|
      invariant Distinct(roots)
      invariant forall r | r in roots :: r in cands && forall c | c in cands :: !(c < r)
      invariant forall k | 0 <= k < i :: cands[k] in roots || exists c | c in cands :: c < cands[k]
    {
      if cands[i] !in roots && forall c | c in cands :: !(c < cands[i]) {
        roots := roots + [cands[i]];
      }
    }
    forall c | c in cands ensures exists r | r in roots :: r <= c {
      var r := ShortestPrefix(cands, c);
      var k :| 0 <= k < |cands| && cands[k] == r;
      assert r in roots;
    }
  }

  lemma {:induction false} CandidateOf(ps: seq<Pattern>, i: nat)
    requires i < |ps| && !ps[i].negate
    ensures ps[i].search in Candidates(ps)
  {
    if i > 0 {
      CandidateOf(ps[1..], i - 1);
    }
  }

  /** A pattern only matches paths at or below its search path. */
  lemma {:induction false} LiteralPrefix(file: seq<string>, segments: seq<Segment>, search: Path)
    requires |search| <= |segments| && MatchOne(file, segments, false)
    requires forall i | 0 <= i < |search| ::
               search[i] != "" && !segments[i].Globstar? && forall s | Accepts(segments[i], s) :: s == search[i]
    ensures search <= file
    decreases |search|
  {
    if search != [] {
      assert file != [];
      assert Accepts(segments[0], file[0]) && file[0] == search[0];
      forall i | 0 <= i < |search[1..]|
        ensures search[1..][i] != "" && !segments[1..][i].Globstar? &&
                forall s | Accepts(segments[1..][i], s) :: s == search[1..][i]
      {
        assert search[1..][i] == search[i + 1] && segments[1..][i] == segments[i + 1];
      }
      LiteralPrefix(file[1..], segments[1..], search[1..]);
      assert file == [file[0]] + file[1..] && search == [search[0]] + search[1..];
    }
  }

  lemma PrefixWithoutLast(search: Path, path: Path)
    requires search <= path + [""] && "" !in search
    ensures search <= path
  {
    var full := path + [""];
    assert full[|path|] == "";
    assert forall i | 0 <= i < |search| :: full[i] == search[i] && search[i] in search;
  }

  lemma MatchesBelowSearch(p: Pattern, path: Path)
    requires WellFormed(p) && Matches(p, path)
    ensures p.search <= path
  {
    var file := Split(p, path);
    if p.search != [] {
      assert file[1..] == path || file[1..] == path + [""];
      assert Compiled(p)[1..] == p.segments;
      LiteralPrefix(file[1..], p.segments, p.search);
      if file[1..] == path + [""] {
        PrefixWithoutLast(p.search, path);
      }
    }
  }

  // ---------------------------------------------------------------- the whole tree

  predicate DistinctNames(children: seq<Entry>) {
    (forall i, j | 0 <= i < j < |children| :: children[i].name != children[j].name)
  }

  /** In every directory the names are distinct. */
  predicate IsTree(node: Node)
    decreases node, 0
  {
    node.Dir? ==> DistinctNames(node.children) && AreTrees(node.children)
  }

  predicate AreTrees(children: seq<Entry>)
    decreases children, 1
  {
    children == [] || (IsTree(children[0].node) && AreTrees(children[1..]))
  }

  function Child(children: seq<Entry>, name: string): Option<Node> {
    if children == [] then None
    else if children[0].name == name then Some(children[0].node)
    else Child(children[1..], name)
  }

  /** What stands at a path: nothing, nothing because the path runs through a file, or a node. */
  datatype Lookedup = Missing | ThroughFile | At(node: Node)

  function Lookup(node: Node, path: Path): Lookedup
    decreases |path|
  {
    if path == [] then At(node)
    else if node.File? then ThroughFile
    else
      match Child(node.children, path[0])
      case None => Missing
      case Some(child) => Lookup(child, path[1..])
  }

  /** A path runs through a file exactly when a proper ancestor of it is one. */
  lemma {:induction false} ThroughFileIff(node: Node, path: Path)
    ensures Lookup(node, path) == ThroughFile <==> exists k: nat | k < |path| :: Lookup(node, path[..k]) == At(File)
    decreases |path|
  {
    if path != [] && node.Dir? {
      match Child(node.children, path[0]) {
        case None =>
          forall k: nat | k < |path| ensures Lookup(node, path[..k]) != At(File) {
            if k > 0 { assert path[..k][0] == path[0]; }
          }
        case Some(child) =>
          ThroughFileIff(child, path[1..]);
          forall k: nat | 0 < k < |path| ensures Lookup(node, path[..k]) == Lookup(child, path[1..][..k - 1]) {
            assert path[..k][0] == path[0] && path[..k][1..] == path[1..][..k - 1];
          }
          if k: nat :| k < |path[1..]| && Lookup(child, path[1..][..k]) == At(File) {
            assert Lookup(node, path[..k + 1]) == At(File);
          }
          if k: nat :| k < |path| && Lookup(node, path[..k]) == At(File) {
            assert path[..0] == [];
            assert k > 0 && Lookup(child, path[1..][..k - 1]) == At(File);
          }
      }
    } else if path != [] {
      assert path[..0] == [];
      assert Lookup(node, path[..0]) == At(File);
    }
  }

  lemma {:induction false} WantedBelow(ps: seq<Pattern>, path: Path, node: Node, p: Path)
    requires p in Wanted(ps, path, node)
    ensures path <= p && MatchAll(ps, p) != NO_MATCH
    decreases node, 0
  {
    if !(Selected(ps, path, node) && p == path) {
      WantedInBelow(ps, path, node.children, p);
    }
  }

  lemma {:induction false} WantedInBelow(ps: seq<Pattern>, path: Path, children: seq<Entry>, p: Path)
    requires p in WantedIn(ps, path, children)
    ensures |path| < |p| && path <= p && MatchAll(ps, p) != NO_MATCH
    ensures exists i | 0 <= i < |children| :: children[i].name == p[|path|]
    decreases children, 1
  {
    var below := path + [children[0].name];
    if p in Wanted(ps, below, children[0].node) {
      WantedBelow(ps, below, children[0].node, p);
      assert p[|path|] == below[|path|] == children[0].name;
      assert path == below[..|path|] == p[..|path|];
    } else {
      WantedInBelow(ps, path, children[1..], p);
      var i :| 0 <= i < |children[1..]| && children[1..][i].name == p[|path|];
      assert children[i + 1].name == p[|path|];
    }
  }

  /** Among distinct names, what is wanted below a name is wanted in the child of that name. */
  lemma {:induction false} WantedInChild(ps: seq<Pattern>, path: Path, children: seq<Entry>, p: Path)
    requires DistinctNames(children) && |path| < |p| && path <= p
    ensures p in WantedIn(ps, path, children) <==>
            var child := Child(children, p[|path|]);
            child.Some? && p in Wanted(ps, path + [p[|path|]], child.value)
    decreases children
  {
    if children != [] {
      var name := p[|path|];
      var rest := children[1..];
      assert DistinctNames(rest) by {
        forall i, j | 0 <= i < j < |rest| ensures rest[i].name != rest[j].name {
          assert rest[i] == children[i + 1] && rest[j] == children[j + 1];
        }
      }
      WantedInChild(ps, path, rest, p);
      var below := path + [children[0].name];
      if children[0].name == name {
        if p in WantedIn(ps, path, rest) {
          WantedInBelow(ps, path, rest, p);
        }
      } else if p in Wanted(ps, below, children[0].node) {
        WantedBelow(ps, below, children[0].node, p);
      }
    }
  }

  lemma {:induction false} ChildIsTree(children: seq<Entry>, name: string)
    requires AreTrees(children) && Child(children, name).Some?
    ensures IsTree(Child(children, name).value)
  {
    if children[0].name != name {
      ChildIsTree(children[1..], name);
    }
  }

  /** What is wanted below a directory of the tree is what is wanted starting from it. */
  lemma {:induction false} WantedFrom(ps: seq<Pattern>, path: Path, node: Node, rel: Path, p: Path)
    requires IsTree(node) && path + rel <= p
    ensures p in Wanted(ps, path, node) <==>
            Lookup(node, rel).At? && p in Wanted(ps, path + rel, Lookup(node, rel).node)
    decreases |rel|
  {
    if rel == [] {
      assert path + rel == path;
    } else {
      var next := path + [rel[0]];
      assert next + rel[1..] == path + rel;
      assert p[|path|] == (path + rel)[|path|] == rel[0];
      assert path == (path + rel)[..|path|] == p[..|path|];
      if node.Dir? {
        WantedInChild(ps, path, node.children, p);
        var child := Child(node.children, rel[0]);
        if child.Some? {
          ChildIsTree(node.children, rel[0]);
          WantedFrom(ps, next, child.value, rel[1..], p);
        }
      }
    }
  }

  /** A file or directory of the tree that the patterns choose. */
  ghost predicate IsChosen(ps: seq<Pattern>, root: Node, p: Path) {
    match Lookup(root, p)
    case At(node) => Chosen(ps, p, if node.Dir? then OfDirectory else OfFile)
    case _ => false
  }

  /** What a search of the tree is to yield. */
  lemma WantedIsChosen(ps: seq<Pattern>, root: Node, p: Path)
    requires IsTree(root) && IsNamed(p)
    ensures p in Wanted(ps, [], root) <==> IsChosen(ps, root, p)
  {
    hide Chosen, IsTree, MatchAll;
    assert [] + p == p;
    WantedFrom(ps, [], root, p, p);
    MatchAllIsChosen(ps, p);
    if Lookup(root, p).At? {
      WantedHere(ps, p, Lookup(root, p).node);
    }
  }

  lemma WantedHere(ps: seq<Pattern>, path: Path, node: Node)
    ensures path in Wanted(ps, path, node) <==> Selected(ps, path, node)
  {
    hide Selected, MatchAll;
    if node.Dir? && path in WantedIn(ps, path, node.children) {
      WantedInBelow(ps, path, node.children, path);
    }
  }

  // ---------------------------------------------------------------- the whole search

  /** The starting points that exist, the first one last so that it is popped first. */
  function StartItems(root: Node, roots: seq<Path>): seq<Item> {
    if roots == [] then [] else StartItems(root, roots[1..]) + StartItem(root, roots[0])
  }

  function StartItem(root: Node, r: Path): seq<Item> {
    match Lookup(root, r) case At(node) => [Item(r, node)] case _ => []
  }

  lemma {:induction false} StartItemsSnoc(root: Node, roots: seq<Path>, r: Path)
    ensures StartItems(root, roots + [r]) == StartItem(root, r) + StartItems(root, roots)
  {
    if roots == [] {
      assert [] + [r] == [r] && [r][1..] == [];
      assert StartItems(root, [r]) == StartItems(root, []) + StartItem(root, r);
    } else {
      assert (roots + [r])[1..] == roots[1..] + [r];
      StartItemsSnoc(root, roots[1..], r);
      ConcatAssociative(StartItem(root, r), StartItems(root, roots[1..]), StartItem(root, roots[0]));
    }
  }

  /** p is wanted below a starting point that exists. */
  ghost predicate WantedBelowRoot(ps: seq<Pattern>, root: Node, r: Path, p: Path) {
    Lookup(root, r).At? && p in Wanted(ps, r, Lookup(root, r).node)
  }

  lemma {:induction false} PendingStart(ps: seq<Pattern>, root: Node, roots: seq<Path>, p: Path)
    ensures p in Pending(ps, StartItems(root, roots)) <==>
            exists i | 0 <= i < |roots| :: WantedBelowRoot(ps, root, roots[i], p)
  {
    if roots != [] {
      PendingStart(ps, root, roots[1..], p);
      PendingFirst(ps, root, roots, p);
      hide *;
      FirstOrRest(ps, root, roots, p);
    }
  }

  lemma PendingFirst(ps: seq<Pattern>, root: Node, roots: seq<Path>, p: Path)
    requires roots != []
    ensures p in Pending(ps, StartItems(root, roots)) <==>
            WantedBelowRoot(ps, root, roots[0], p) || p in Pending(ps, StartItems(root, roots[1..]))
  {
    hide Pending, Wanted, Visited, Lookup;
    var rest := StartItems(root, roots[1..]);
    match Lookup(root, roots[0]) {
      case Missing => assert rest + [] == rest;
      case ThroughFile => assert rest + [] == rest;
      case At(node) =>
        PendingPush(ps, rest, Item(roots[0], node));
        PruningLosesNothing(ps, roots[0], node);
    }
  }

  lemma FirstOrRest(ps: seq<Pattern>, root: Node, roots: seq<Path>, p: Path)
    requires roots != []
    ensures (exists i | 0 <= i < |roots| :: WantedBelowRoot(ps, root, roots[i], p)) <==>
            WantedBelowRoot(ps, root, roots[0], p) ||
            exists i | 0 <= i < |roots[1..]| :: WantedBelowRoot(ps, root, roots[1..][i], p)
  {
    hide *;
    if i :| 0 <= i < |roots| && WantedBelowRoot(ps, root, roots[i], p) {
      if i > 0 { assert roots[1..][i - 1] == roots[i]; }
    }
    if i :| 0 <= i < |roots[1..]| && WantedBelowRoot(ps, root, roots[1..][i], p) {
      assert roots[i + 1] == roots[1..][i];
    }
  }

  /** The walk starts at r: it is the search path of a pattern, and none lies above it. */
  predicate IsStart(ps: seq<Pattern>, r: Path) {
    r in Candidates(ps) && forall c | c in Candidates(ps) :: !(c < r)
  }

  lemma {:induction false} CandidatesAre(ps: seq<Pattern>, c: Path)
    ensures c in Candidates(ps) <==> exists i | 0 <= i < |ps| :: !ps[i].negate && ps[i].search == c
  {
    if ps != [] {
      CandidatesAre(ps[1..], c);
      assert forall i | 0 < i < |ps| :: ps[i] == ps[1..][i - 1];
      assert forall i | 0 <= i < |ps[1..]| :: ps[1..][i] == ps[i + 1];
    }
  }

  /** The walk starts at the search paths of the patterns that are not negated, save those below another. */
  lemma StartIff(ps: seq<Pattern>, r: Path)
    ensures IsStart(ps, r) <==>
            && (exists i | 0 <= i < |ps| :: !ps[i].negate && ps[i].search == r)
            && forall j | 0 <= j < |ps| && !ps[j].negate :: !(ps[j].search < r)
  {
    hide Candidates;
    CandidatesAre(ps, r);
    forall c ensures c in Candidates(ps) <==> exists i | 0 <= i < |ps| :: !ps[i].negate && ps[i].search == c {
      CandidatesAre(ps, c);
    }
    assert forall j | 0 <= j < |ps| && !ps[j].negate :: ps[j].search in Candidates(ps);
  }

  lemma StartsAreRoots(ps: seq<Pattern>, roots: seq<Path>, r: Path)
    requires CoveredBy(Candidates(ps), roots)
    ensures r in roots <==> IsStart(ps, r)
  {
    hide Candidates, Distinct;
    if IsStart(ps, r) {
      var r' :| r' in roots && r' <= r;
      assert r' in Candidates(ps) && !(r' < r);
      assert r' == r;
    }
  }

  /** The search cannot begin: some starting point runs through a file. */
  ghost predicate CannotStart(ps: seq<Pattern>, root: Node) {
    exists r :: IsStart(ps, r) && Lookup(root, r) == ThroughFile
  }

  /** p is wanted below one of the starting points. */
  ghost predicate Reached(ps: seq<Pattern>, root: Node, p: Path) {
    exists r :: IsStart(ps, r) && WantedBelowRoot(ps, root, r, p)
  }

  ghost predicate AllWellFormed(ps: seq<Pattern>) {
    forall i | 0 <= i < |ps| :: WellFormed(ps[i])
  }

  /** The stat of each starting point: one that is missing is skipped, one that runs through a file fails
      the search. */
  method StartStack(root: Node, roots: seq<Path>) returns (stack: Result<seq<Item>, Path>)
    ensures stack.Err? ==> stack.error in roots && Lookup(root, stack.error) == ThroughFile
    ensures stack.Ok? ==> stack.value == StartItems(root, roots)
    ensures stack.Ok? ==> forall r | r in roots :: Lookup(root, r) != ThroughFile
  {
    var items := [];
    for k := 0 to |roots|
      invariant forall j | 0 <= j < k :: Lookup(root, roots[j]) != ThroughFile
      invariant items == StartItems(root, roots[..k])
    {
      var found := Lookup(root, roots[k]);
      assert roots[..k + 1] == roots[..k] + [roots[k]];
      StartItemsSnoc(root, roots[..k], roots[k]);
      match found {
        case Missing => assert [] + items == items;
        case ThroughFile => return Err(roots[k]);
        case At(node) => items := [Item(roots[k], node)] + items;
      }
    }
    assert roots[..|roots|] == roots;
    stack := Ok(items);
  }

  /** The search fails exactly when some starting point runs through a file. Otherwise it yields what is
      wanted below its starting points; and for well-formed patterns that is a file or directory of the tree
      exactly when the patterns match it: neither the choice of starting points nor the pruned descent misses
      one. */
  method FindAll(ps: seq<Pattern>, root: Node) returns (r: Result<seq<Path>, Path>)
    requires IsTree(root)
    ensures r.Err? <==> CannotStart(ps, root)
    ensures r.Err? ==> IsStart(ps, r.error) && Lookup(root, r.error) == ThroughFile
    ensures r.Ok? ==> forall p :: p in r.value <==> Reached(ps, root, p)
    ensures r.Ok? && AllWellFormed(ps) ==> forall p :: p in r.value <==> p in Wanted(ps, [], root)
    ensures r.Ok? && AllWellFormed(ps) ==> forall p | IsNamed(p) :: p in r.value <==> IsChosen(ps, root, p)
  {
    hide *;
    var roots := GetSearchPaths(ps);
    forall r ensures r in roots <==> IsStart(ps, r) {
      StartsAreRoots(ps, roots, r);
    }
    var stack := StartStack(root, roots);
    if stack.Err? {
      ThroughCannotStart(ps, root, stack.error);
      return Err(stack.error);
    }
    var found := GlobGenerator(ps, stack.value);
    forall p
      ensures p in found <==> Reached(ps, root, p)
      ensures AllWellFormed(ps) ==> (p in found <==> p in Wanted(ps, [], root))
    {
      PendingStart(ps, root, roots, p);
      RootsReach(ps, root, roots, p);
      if AllWellFormed(ps) { WholeTree(ps, root, roots, p); }
    }
    forall p | IsNamed(p) ensures p in Wanted(ps, [], root) <==> IsChosen(ps, root, p) {
      WantedIsChosen(ps, root, p);
    }
    assert !CannotStart(ps, root) by { NoneThrough(ps, root, roots); }
    r := Ok(found);
  }

  /** The search of a pattern list, each pattern with its implicit descendants. It yields the files and
      directories at or below anything that a pattern fits, unless a later, negated pattern fits it or
      something above it. */
  method Search(patterns: seq<Pattern>, root: Node) returns (r: Result<seq<Path>, Path>)
    requires IsTree(root)
    ensures r.Err? <==> CannotStart(WithDescendants(patterns), root)
    ensures r.Ok? && (forall p | p in patterns :: WellFormed(p)) ==>
              forall p | IsNamed(p) && "." !in p && ".." !in p ::
                p in r.value <==> Lookup(root, p).At? && Chosen(patterns, p, AtOrBelow)
  {
    var ps := [];
    for i := 0 to |patterns|
      invariant ps == WithDescendants(patterns[..i])
    {
      assert patterns[..i + 1] == patterns[..i] + [patterns[i]];
      WithDescendantsSnoc(patterns[..i], patterns[i]);
      ps := ps + ([patterns[i]] + Descendants(patterns[i]));
    }
    assert patterns[..|patterns|] == patterns;
    hide *;
    if forall p | p in patterns :: WellFormed(p) {
      DescendantsAreWellFormed(patterns);
      AllOfThem(ps);
    }
    r := FindAll(ps, root);
    forall p | IsNamed(p) && "." !in p && ".." !in p
      ensures IsChosen(ps, root, p) <==> Lookup(root, p).At? && Chosen(patterns, p, AtOrBelow)
    {
      SearchedIsListed(patterns, root, p);
    }
  }

  lemma SearchedIsListed(patterns: seq<Pattern>, root: Node, p: Path)
    requires "." !in p && ".." !in p
    ensures IsChosen(WithDescendants(patterns), root, p) <==> Lookup(root, p).At? && Chosen(patterns, p, AtOrBelow)
  {
    hide Chosen, WithDescendants;
    SearchedIsChosen(patterns, p, OfDirectory);
    SearchedIsChosen(patterns, p, OfFile);
  }

  lemma AllOfThem(ps: seq<Pattern>)
    requires forall p | p in ps :: WellFormed(p)
    ensures AllWellFormed(ps)
  {
    hide WellFormed;
  }

  lemma ThroughCannotStart(ps: seq<Pattern>, root: Node, r: Path)
    requires IsStart(ps, r) && Lookup(root, r) == ThroughFile
    ensures CannotStart(ps, root)
  {
  }

  lemma NoneThrough(ps: seq<Pattern>, root: Node, roots: seq<Path>)
    requires forall r :: r in roots <==> IsStart(ps, r)
    requires forall r | r in roots :: Lookup(root, r) != ThroughFile
    ensures !CannotStart(ps, root)
  {
    hide IsStart, Lookup;
  }

  lemma RootsReach(ps: seq<Pattern>, root: Node, roots: seq<Path>, p: Path)
    requires forall r :: r in roots <==> IsStart(ps, r)
    ensures Reached(ps, root, p) <==> exists i | 0 <= i < |roots| :: WantedBelowRoot(ps, root, roots[i], p)
  {
    hide IsStart, WantedBelowRoot;
    if Reached(ps, root, p) {
      var r :| IsStart(ps, r) && WantedBelowRoot(ps, root, r, p);
      var i :| 0 <= i < |roots| && roots[i] == r;
    }
    if i :| 0 <= i < |roots| && WantedBelowRoot(ps, root, roots[i], p) {
      assert roots[i] in roots;
    }
  }

  /** Two literal patterns, one of them through a file: the other's match is there, but the search fails. */
  lemma FileOnTheWayFails()
    ensures var through := Pattern(false, false, [Literal("a"), Literal("b")], ["a", "b"]);
            var plain := Pattern(false, false, [Literal("c")], ["c"]);
            var ps, root := [through, plain], Dir([Entry("a", File), Entry("c", File)]);
            AllWellFormed(ps) && IsTree(root) && ["c"] in Wanted(ps, [], root) && CannotStart(ps, root)
  {
    var through := Pattern(false, false, [Literal("a"), Literal("b")], ["a", "b"]);
    var plain := Pattern(false, false, [Literal("c")], ["c"]);
    var ps, root := [through, plain], Dir([Entry("a", File), Entry("c", File)]);
    StartsAtAB(through, plain);
    LiteralC(through, plain);
    NamesAC();
    BothWellFormed(through, plain);
    hide *;
    ThroughCannotStart(ps, root, ["a", "b"]);
  }

  lemma BothWellFormed(through: Pattern, plain: Pattern)
    requires through == Pattern(false, false, [Literal("a"), Literal("b")], ["a", "b"])
    requires plain == Pattern(false, false, [Literal("c")], ["c"])
    ensures AllWellFormed([through, plain])
  {
    assert WellFormed(through) && WellFormed(plain);
  }

  lemma NamesAC()
    ensures IsTree(Dir([Entry("a", File), Entry("c", File)]))
    ensures Lookup(Dir([Entry("a", File), Entry("c", File)]), ["a", "b"]) == ThroughFile
  {
    var children := [Entry("a", File), Entry("c", File)];
    assert "a"[0] != "c"[0];
    assert children[1..] == [Entry("c", File)] && children[1..][1..] == [];
    assert IsTree(File) && AreTrees([]) && AreTrees(children[1..]) && AreTrees(children);
    assert Child(children, "a") == Some(File) && ["a", "b"][1..] == ["b"];
  }

  lemma StartsAtAB(through: Pattern, plain: Pattern)
    requires !through.negate && through.search == ["a", "b"] && !plain.negate && plain.search == ["c"]
    ensures IsStart([through, plain], ["a", "b"])
  {
    var ps := [through, plain];
    assert ps[1..] == [plain] && [plain][1..] == [];
    assert Candidates([plain]) == [["c"]] + Candidates([]);
    assert Candidates(ps) == [["a", "b"]] + [["c"]];
    assert "a"[0] != "c"[0] && ["a", "b"][0] != ["c"][0];
    assert !(["c"] < ["a", "b"]);
  }

  lemma LiteralC(through: Pattern, plain: Pattern)
    requires through == Pattern(false, false, [Literal("a"), Literal("b")], ["a", "b"])
    requires plain == Pattern(false, false, [Literal("c")], ["c"])
    ensures ["c"] in Wanted([through, plain], [], Dir([Entry("a", File), Entry("c", File)]))
  {
    var ps, children := [through, plain], [Entry("a", File), Entry("c", File)];
    assert MatchOne([], [], false);
    assert ["c"][1..] == [] && [Literal("c")][1..] == [];
    assert MatchOne(["c"], [Literal("c")], false);
    assert Compiled(plain)[1..] == [Literal("c")] && Split(plain, ["c"])[1..] == ["c"];
    assert Matches(plain, ["c"]);
    assert ps[..1] == [through] && MatchAll(ps, ["c"]).files;
    assert children[1..] == [Entry("c", File)] && children[1..][1..] == [];
    assert [] + ["c"] == ["c"];
    assert ["c"] in Wanted(ps, ["c"], File);
    assert ["c"] in WantedIn(ps, [], children[1..]);
    assert ["c"] in WantedIn(ps, [], children);
  }

  /** A segment that is read as one name for the search path but accepts others: the search starts too low
      and misses what only the matcher accepts. */
  lemma IllFormedMisses()
    ensures var bang := Pattern(false, false, [Magic(s => |s| == 1)], ["!"]);
            var ps, root := [bang], Dir([Entry("a", File)]);
            IsTree(root) && ["a"] in Wanted(ps, [], root) && !CannotStart(ps, root) && !Reached(ps, root, ["a"])
  {
    var bang := Pattern(false, false, [Magic(s => |s| == 1)], ["!"]);
    var ps, children := [bang], [Entry("a", File)];
    var root := Dir(children);
    assert ps[1..] == [] && Candidates(ps) == [["!"]] + Candidates([]);
    assert "a"[0] != "!"[0] && Child(children, "!") == Child(children[1..], "!") == None;
    assert Lookup(root, ["!"]) == Missing;
    assert MatchOne([], [], false);
    assert ["a"][1..] == [] && bang.segments[1..] == [];
    assert MatchOne(["a"], bang.segments, false);
    assert Compiled(bang)[1..] == bang.segments && Split(bang, ["a"])[1..] == ["a"];
    assert Matches(bang, ["a"]);
    assert ps[..0] == [] && MatchAll(ps, ["a"]).files;
    assert children[1..] == [] && [] + ["a"] == ["a"];
    assert ["a"] in Wanted(ps, ["a"], File);
    assert ["a"] in WantedIn(ps, [], children);
  }

  lemma WholeTree(ps: seq<Pattern>, root: Node, roots: seq<Path>, p: Path)
    requires IsTree(root) && CoveredBy(Candidates(ps), roots)
    requires AllWellFormed(ps)
    ensures p in Wanted(ps, [], root) <==>
            exists i | 0 <= i < |roots| :: WantedBelowRoot(ps, root, roots[i], p)
  {
    hide Wanted, Lookup, IsTree, WantedBelowRoot, CoveredBy;
    if p in Wanted(ps, [], root) {
      var k := RootAbove(ps, root, roots, p);
      WantedFromRoot(ps, root, roots[k], p);
    }
    if k :| 0 <= k < |roots| && WantedBelowRoot(ps, root, roots[k], p) {
      WantedIsBelow(ps, root, roots[k], p);
      WantedFromRoot(ps, root, roots[k], p);
    }
  }

  lemma RootAbove(ps: seq<Pattern>, root: Node, roots: seq<Path>, p: Path) returns (k: nat)
    requires CoveredBy(Candidates(ps), roots) && AllWellFormed(ps) && p in Wanted(ps, [], root)
    ensures k < |roots| && roots[k] <= p
  {
    hide Wanted, MatchAll, Matches, WellFormed, Candidates, Distinct;
    WantedBelow(ps, [], root, p);
    SomePatternMatches(ps, p);
    var i :| 0 <= i < |ps| && !ps[i].negate && Matches(ps[i], p);
    CandidateOf(ps, i);
    MatchesBelowSearch(ps[i], p);
    var r :| r in roots && r <= ps[i].search;
    k :| 0 <= k < |roots| && roots[k] == r;
  }

  lemma WantedIsBelow(ps: seq<Pattern>, root: Node, r: Path, p: Path)
    requires WantedBelowRoot(ps, root, r, p)
    ensures r <= p
  {
    hide Wanted, MatchAll;
    WantedBelow(ps, r, Lookup(root, r).node, p);
  }

  lemma WantedFromRoot(ps: seq<Pattern>, root: Node, r: Path, p: Path)
    requires IsTree(root) && r <= p
    ensures p in Wanted(ps, [], root) <==> WantedBelowRoot(ps, root, r, p)
  {
    assert [] + r == r;
    WantedFrom(ps, [], root, r, p);
  }
}
