/** Glob matching segment by segment, and the directory walk that prunes with its partial form. */
module Glob {
  import opened Basics

  /** A compiled pattern segment. What a magic segment's regular expression accepts is left open. */
  datatype Segment =
    | Globstar
    | Literal(text: string)
    | Magic(accepts: string -> bool)
    | Broken

  /** `**` never swallows these. (Other dot files it does: the walk sets the option `dot`.) */
  predicate IsDots(s: string) {
    s == "." || s == ".."
  }

  /** Whether the file's segments match the pattern; with `partial`, whether some extension might. */
  predicate MatchOne(file: seq<string>, pattern: seq<Segment>, partial: bool)
    decreases |pattern|, |file|, 0
  {
    if file == [] then pattern == [] || partial
    else if pattern == [] then file == [""]
    else
      match pattern[0]
      case Broken => false
      case Globstar =>
        if |pattern| == 1 then forall s | s in file :: !IsDots(s)
        else Swallow(file, pattern[1..], partial)
      case Literal(text) => file[0] == text && MatchOne(file[1..], pattern[1..], partial)
      case Magic(accepts) => accepts(file[0]) && MatchOne(file[1..], pattern[1..], partial)
  }

  /** Whether `**` can swallow some segments so that the rest of the pattern matches what is left. */
  predicate Swallow(file: seq<string>, rest: seq<Segment>, partial: bool)
    decreases |rest|, |file|, 1
  {
    if file == [] then partial
    else MatchOne(file, rest, partial) || (!IsDots(file[0]) && Swallow(file[1..], rest, partial))
  }

  // ---------------------------------------------------------------- what a match is

  /** What one segment of a pattern may take of a path: `**` any number of segments that are not dots, the
      others one that they accept. */
  ghost predicate Takes(segment: Segment, part: seq<string>) {
    match segment
    case Globstar => forall s | s in part :: s != "." && s != ".."
    case Literal(text) => part == [text]
    case Magic(accepts) => |part| == 1 && accepts(part[0])
    case Broken => false
  }

  /** The path is divided among the pattern's segments in order. A `**` that ends the pattern takes at least
      one segment; an empty last segment of the path may be left over; and a partial match may leave over a
      rest of the pattern. */
  ghost predicate Aligned(file: seq<string>, pattern: seq<Segment>, parts: seq<seq<string>>, partial: bool) {
    && |parts| <= |pattern| && (|parts| < |pattern| ==> partial)
    && (forall i | 0 <= i < |parts| :: Takes(pattern[i], parts[i]) && (i == |pattern| - 1 ==> parts[i] != []))
    && (file == Flatten(parts) || (|parts| == |pattern| && file == Flatten(parts) + [""]))
  }

  ghost predicate IsAligned(file: seq<string>, pattern: seq<Segment>, partial: bool) {
    exists parts :: Aligned(file, pattern, parts, partial)
  }

  lemma AlignedFirst(file: seq<string>, pattern: seq<Segment>, parts: seq<seq<string>>, partial: bool)
    requires Aligned(file, pattern, parts, partial) && parts != []
    ensures parts[0] <= file && Takes(pattern[0], parts[0]) && (|pattern| == 1 ==> parts[0] != [])
    ensures Aligned(file[|parts[0]|..], pattern[1..], parts[1..], partial)
  {
    hide Takes;
    var n, rest := |parts[0]|, Flatten(parts[1..]);
    assert Flatten(parts) == parts[0] + rest;
    assert (parts[0] + rest)[n..] == rest && (parts[0] + rest + [""])[n..] == rest + [""];
    assert (parts[0] + rest)[..n] == parts[0] && (parts[0] + rest + [""])[..n] == parts[0];
    forall i | 0 <= i < |parts[1..]|
      ensures Takes(pattern[1..][i], parts[1..][i]) && (i == |pattern[1..]| - 1 ==> parts[1..][i] != [])
    {
      assert Takes(pattern[i + 1], parts[i + 1]);
    }
  }

  lemma AlignedCons(part: seq<string>, file: seq<string>, pattern: seq<Segment>, parts: seq<seq<string>>,
                    partial: bool)
    requires pattern != [] && Takes(pattern[0], part) && (|pattern| == 1 ==> part != [])
    requires Aligned(file, pattern[1..], parts, partial)
    ensures Aligned(part + file, pattern, [part] + parts, partial)
  {
    hide Takes;
    var all := [part] + parts;
    assert all[1..] == parts && Flatten(all) == part + Flatten(parts);
    ConcatAssociative(part, Flatten(parts), [""]);
    forall i | 0 <= i < |all| ensures Takes(pattern[i], all[i]) && (i == |pattern| - 1 ==> all[i] != []) {
      if i > 0 { assert Takes(pattern[1..][i - 1], parts[i - 1]); }
    }
  }

  /** Nothing is aligned with nothing only. */
  lemma NothingAligned(pattern: seq<Segment>, parts: seq<seq<string>>)
    requires Aligned([], pattern, parts, false)
    ensures pattern == []
    decreases |parts|
  {
    if parts != [] {
      AlignedFirst([], pattern, parts, false);
      NothingAligned(pattern[1..], parts[1..]);
    }
  }

  lemma {:induction false} AlignedMatches(file: seq<string>, pattern: seq<Segment>, parts: seq<seq<string>>,
                                          partial: bool)
    requires Aligned(file, pattern, parts, partial)
    ensures MatchOne(file, pattern, partial)
    decreases |pattern|, |file|, 0
  {
    if file == [] {
      if !partial { NothingAligned(pattern, parts); }
    } else if parts != [] {
      AlignedFirst(file, pattern, parts, partial);
      match pattern[0] {
        case Broken =>
        case Globstar =>
          if |pattern| > 1 {
            assert file[..|parts[0]|] == parts[0];
            AlignedSwallows(file, |parts[0]|, pattern[1..], parts[1..], partial);
          } else {
            assert file == parts[0] || file == parts[0] + [""] by {
              assert parts == [parts[0]] && Flatten(parts) == parts[0] + Flatten([]);
            }
          }
        case Literal(_) => AlignedMatches(file[1..], pattern[1..], parts[1..], partial);
        case Magic(_) => AlignedMatches(file[1..], pattern[1..], parts[1..], partial);
      }
    }
  }

  lemma {:induction false} AlignedSwallows(file: seq<string>, n: nat, rest: seq<Segment>, parts: seq<seq<string>>,
                                           partial: bool)
    requires n <= |file| && (forall s | s in file[..n] :: !IsDots(s)) && rest != []
    requires Aligned(file[n..], rest, parts, partial)
    ensures Swallow(file, rest, partial)
    decreases |rest|, |file|, 1
  {
    hide Aligned, IsDots;
    if n == 0 {
      assert file[0..] == file;
      if file != [] {
        AlignedMatches(file, rest, parts, partial);
      } else if !partial {
        NothingAligned(rest, parts);
      }
    } else {
      assert file[0] == file[..n][0];
      assert file[1..][n - 1..] == file[n..] && file[1..][..n - 1] == file[..n][1..];
      AlignedSwallows(file[1..], n - 1, rest, parts, partial);
    }
  }

  lemma {:induction false} MatchAligns(file: seq<string>, pattern: seq<Segment>, partial: bool)
    returns (parts: seq<seq<string>>)
    requires MatchOne(file, pattern, partial)
    ensures Aligned(file, pattern, parts, partial)
    decreases |pattern|, |file|, 0
  {
    if file == [] || pattern == [] {
      parts := [];
    } else if |pattern| == 1 && pattern[0].Globstar? {
      parts := [file];
      assert Flatten(parts) == file + Flatten([]) == file;
    } else {
      var n := 1;
      match pattern[0] {
        case Globstar => n, parts := SwallowAligns(file, pattern[1..], partial);
        case Literal(text) =>
          parts := MatchAligns(file[1..], pattern[1..], partial);
          assert file[..1] == [text];
        case Magic(_) =>
          parts := MatchAligns(file[1..], pattern[1..], partial);
      }
      hide Aligned;
      assert Takes(pattern[0], file[..n]);
      AlignedCons(file[..n], file[n..], pattern, parts, partial);
      parts := [file[..n]] + parts;
      assert file == file[..n] + file[n..];
    }
  }

  lemma {:induction false} SwallowAligns(file: seq<string>, rest: seq<Segment>, partial: bool)
    returns (n: nat, parts: seq<seq<string>>)
    requires Swallow(file, rest, partial) && rest != []
    ensures n <= |file| && (forall s | s in file[..n] :: !IsDots(s)) && Aligned(file[n..], rest, parts, partial)
    decreases |rest|, |file|, 1
  {
    hide IsDots;
    if file == [] {
      n, parts := 0, [];
    } else if MatchOne(file, rest, partial) {
      n, parts := 0, [];
      parts := MatchAligns(file, rest, partial);
      assert file[0..] == file;
    } else {
      var m := 0;
      m, parts := SwallowAligns(file[1..], rest, partial);
      n := m + 1;
      assert file[..n] == [file[0]] + file[1..][..m] && file[n..] == file[1..][m..];
    }
  }

  /** A path matches exactly if it can be divided among the pattern's segments. */
  lemma MatchIffAligned(file: seq<string>, pattern: seq<Segment>, partial: bool)
    ensures MatchOne(file, pattern, partial) <==> IsAligned(file, pattern, partial)
  {
    hide MatchOne, Aligned;
    if MatchOne(file, pattern, partial) {
      var parts := MatchAligns(file, pattern, partial);
    }
    if parts :| Aligned(file, pattern, parts, partial) {
      AlignedMatches(file, pattern, parts, partial);
    }
  }

  // ---------------------------------------------------------------- the loop

  /** The matcher's loop: two cursors advance together, and at `**` a third tries every cut. */
  method MatchOneLoop(file: seq<string>, pattern: seq<Segment>, partial: bool) returns (hit: bool)
    ensures hit == MatchOne(file, pattern, partial)
    ensures hit <==> IsAligned(file, pattern, partial)
    decreases |pattern|
  {
    MatchIffAligned(file, pattern, partial);
    hide IsAligned;
    var fi, pi := 0, 0;
    while fi < |file| && pi < |pattern|
      invariant fi == pi && fi <= |file| && pi <= |pattern|
      invariant MatchOne(file, pattern, partial) == MatchOne(file[fi..], pattern[pi..], partial)
      decreases |file| - fi
    {
      assert file[fi..][1..] == file[fi + 1..] && pattern[pi..][1..] == pattern[pi + 1..];
      match pattern[pi] {
        case Broken =>
          return false;
        case Globstar =>
          if pi + 1 == |pattern| {
            for k := fi to |file|
              invariant forall j | fi <= j < k :: !IsDots(file[j])
            {
              if IsDots(file[k]) {
                assert file[k] in file[fi..];
                return false;
              }
            }
            return true;
          }
          var fr := fi;
          while fr < |file|
            invariant fi <= fr <= |file|
            invariant Swallow(file[fi..], pattern[pi + 1..], partial) == Swallow(file[fr..], pattern[pi + 1..], partial)
          {
            assert file[fr..][1..] == file[fr + 1..];
            var found := MatchOneLoop(file[fr..], pattern[pi + 1..], partial);
            if found {
              return true;
            }
            if IsDots(file[fr]) {
              return false;
            }
            fr := fr + 1;
          }
          return partial;
        case Literal(text) =>
          if file[fi] != text {
            return false;
          }
        case Magic(accepts) =>
          if !accepts(file[fi]) {
            return false;
          }
      }
      fi, pi := fi + 1, pi + 1;
    }
    if fi == |file| && pi == |pattern| {
      return true;
    } else if fi == |file| {
      return partial;
    } else {
      return fi == |file| - 1 && file[fi] == "";
    }
  }

  // ---------------------------------------------------------------- partial matching prunes nothing

  lemma {:induction false} SwallowPrefix(file: seq<string>, rest: seq<Segment>, k: nat)
    requires Swallow(file, rest, false) && k <= |file|
    ensures Swallow(file[..k], rest, true)
    decreases |rest|, |file|, 1
  {
    if k > 0 {
      if MatchOne(file, rest, false) {
        MatchPrefix(file, rest, k);
      } else {
        SwallowPrefix(file[1..], rest, k - 1);
        assert file[..k][1..] == file[1..][..k - 1];
      }
    }
  }

  /** If a pattern matches a path, it partially matches every prefix of the path. */
  lemma {:induction false} MatchPrefix(file: seq<string>, pattern: seq<Segment>, k: nat)
    requires MatchOne(file, pattern, false) && k <= |file|
    ensures MatchOne(file[..k], pattern, true)
    decreases |pattern|, |file|, 0
  {
    if k > 0 && pattern != [] {
      assert file[..k][1..] == file[1..][..k - 1];
      match pattern[0] {
        case Globstar =>
          if |pattern| > 1 {
            SwallowPrefix(file, pattern[1..], k);
          }
        case Broken =>
        case Literal(_) =>
          MatchPrefix(file[1..], pattern[1..], k - 1);
        case Magic(_) =>
          MatchPrefix(file[1..], pattern[1..], k - 1);
      }
    } else if k > 0 {
      assert file[..k] == file;
    }
  }

  /** A full match is also a partial one. */
  lemma MatchIsPartial(file: seq<string>, pattern: seq<Segment>)
    requires MatchOne(file, pattern, false)
    ensures MatchOne(file, pattern, true)
  {
    MatchPrefix(file, pattern, |file|);
    assert file[..|file|] == file;
  }
}
