/** What masking leaves of a log line: the replacer scans it once, from left to right. */
module Replacer {
  import opened Basics
  import opened MaskCache
  import Base64

  /** A byte that is copied, or a pattern that is replaced. */
  datatype Piece = Kept(b: byte) | Masked(pattern: Bytes, written: Bytes)

  /** The first pair, in argument order, whose pattern the text begins with. */
  function FirstMatch(pairs: seq<Bytes>, text: Bytes, i: nat): (r: Option<nat>)
    ensures r.Some? ==> i <= r.value && r.value + 1 < |pairs| && (r.value - i) % 2 == 0
    ensures r.Some? ==> pairs[r.value] != [] && pairs[r.value] <= text
    ensures forall j | i <= j < (if r.Some? then r.value else |pairs| - 1) && (j - i) % 2 == 0 ::
              !(pairs[j] != [] && pairs[j] <= text)
    decreases |pairs| - i
  {
    if i + 1 >= |pairs| then None
    else if pairs[i] != [] && pairs[i] <= text then Some(i)
    else FirstMatch(pairs, text, i + 2)
  }

  /** At each place the first pair that matches there is used, and what it replaced is not scanned again. */
  function Scan(pairs: seq<Bytes>, text: Bytes): seq<Piece>
    decreases |text|
  {
    if text == [] then [] else
      match FirstMatch(pairs, text, 0)
      case Some(i) => [Masked(pairs[i], pairs[i + 1])] + Scan(pairs, text[|pairs[i]|..])
      case None => [Kept(text[0])] + Scan(pairs, text[1..])
  }

  function Original(p: Piece): Bytes {
    match p case Kept(b) => [b] case Masked(pattern, _) => pattern
  }

  function Text(pieces: seq<Piece>): Bytes {
    if pieces == [] then [] else Original(pieces[0]) + Text(pieces[1..])
  }

  /** The masked line. */
  function Logged(pieces: seq<Piece>): Bytes {
    if pieces == [] then [] else
      (match pieces[0] case Kept(b) => [b] case Masked(_, written) => written) + Logged(pieces[1..])
  }

  lemma ScanStep(pairs: seq<Bytes>, text: Bytes)
    requires text != []
    ensures var pieces := Scan(pairs, text);
            && pieces != [] && 0 < |Original(pieces[0])| <= |text|
            && Original(pieces[0]) == text[..|Original(pieces[0])|]
            && pieces[1..] == Scan(pairs, text[|Original(pieces[0])|..])
            && pieces[0] == match FirstMatch(pairs, text, 0)
                            case Some(i) => Masked(pairs[i], pairs[i + 1])
                            case None => Kept(text[0])
  {
    hide FirstMatch;
  }

  lemma NothingScanned(pairs: seq<Bytes>)
    ensures Scan(pairs, []) == []
  {
  }

  /** The pieces are the line. */
  lemma {:induction false} ScanIsWhole(pairs: seq<Bytes>, text: Bytes)
    ensures Text(Scan(pairs, text)) == text
    decreases |text|
  {
    if text == [] {
      NothingScanned(pairs);
    } else {
      ScanStep(pairs, text);
      TextStep(Scan(pairs, text));
      hide Scan, Original, FirstMatch, Text;
      var n := |Original(Scan(pairs, text)[0])|;
      ScanIsWhole(pairs, text[n..]);
      CutOnce(text, n);
    }
  }

  lemma TextStep(pieces: seq<Piece>)
    requires pieces != []
    ensures Text(pieces) == Original(pieces[0]) + Text(pieces[1..])
  {
  }

  lemma CutOnce(text: Bytes, n: nat)
    requires n <= |text|
    ensures text == text[..n] + text[n..]
  {
  }

  lemma OccursLater(part: Bytes, text: Bytes, n: nat, at: nat)
    requires n <= at && OccursAt(part, text, at)
    ensures OccursAt(part, text[n..], at - n)
  {
    assert text[at..at + |part|] == text[n..][at - n..at - n + |part|];
  }

  /** Place `at` of the line lies within a pattern that is replaced. */
  predicate IsCovered(pieces: seq<Piece>, at: nat) {
    pieces != [] &&
    var n := |Original(pieces[0])|;
    if at < n then pieces[0].Masked? else IsCovered(pieces[1..], at - n)
  }

  /** A piece begins at this place. */
  predicate IsBoundary(pieces: seq<Piece>, at: nat) {
    at == 0 || (pieces != [] && |Original(pieces[0])| <= at && IsBoundary(pieces[1..], at - |Original(pieces[0])|))
  }

  /** The pieces from a boundary on. */
  function From(pieces: seq<Piece>, at: nat): seq<Piece>
    requires IsBoundary(pieces, at)
  {
    if at == 0 then pieces else From(pieces[1..], at - |Original(pieces[0])|)
  }

  lemma MaskedIsFound(pairs: seq<Bytes>, pattern: Bytes, text: Bytes)
    requires Paired(pairs) && IsMasked(pairs, pattern) && pattern != [] && pattern <= text
    ensures FirstMatch(pairs, text, 0).Some?
  {
    var i :| 0 <= i < |pairs| && i % 2 == 0 && pairs[i] == pattern;
    assert i < |pairs| - 1;
  }

  /** No occurrence of a masked pattern survives: its first byte always lies within a pattern that is
      replaced. */
  lemma {:induction false} NoneSurvives(pairs: seq<Bytes>, pattern: Bytes, text: Bytes, at: nat)
    requires Paired(pairs) && IsMasked(pairs, pattern) && pattern != [] && OccursAt(pattern, text, at)
    ensures IsCovered(Scan(pairs, text), at)
    decreases |text|
  {
    ScanStep(pairs, text);
    hide Paired, IsMasked, Scan, FirstMatch;
    var pieces := Scan(pairs, text);
    var n := |Original(pieces[0])|;
    if at == 0 {
      MaskedIsFound(pairs, pattern, text);
    } else if at >= n {
      OccursLater(pattern, text, n, at);
      hide OccursAt;
      NoneSurvives(pairs, pattern, text[n..], at - n);
    }
  }

  /** So no stretch that is copied whole holds one. */
  lemma KeptHoldsNoPattern(pairs: seq<Bytes>, pattern: Bytes, text: Bytes, at: nat)
    requires Paired(pairs) && IsMasked(pairs, pattern) && pattern != []
    requires at + |pattern| <= |text| && forall k | at <= k < at + |pattern| :: !IsCovered(Scan(pairs, text), k)
    ensures !OccursAt(pattern, text, at)
  {
    hide Paired, IsMasked, Scan, IsCovered;
    if OccursAt(pattern, text, at) { NoneSurvives(pairs, pattern, text, at); }
  }

  lemma CutTwice(text: Bytes, n: nat, at: nat)
    requires n <= at <= |text|
    ensures text[n..][at - n..] == text[at..]
  {
  }

  /** From a boundary on, the scan is the scan of the rest. */
  lemma {:induction false} ScanFrom(pairs: seq<Bytes>, text: Bytes, at: nat)
    requires IsBoundary(Scan(pairs, text), at)
    ensures at <= |text| && From(Scan(pairs, text), at) == Scan(pairs, text[at..])
    decreases |text|
  {
    hide Scan, Original, FirstMatch;
    if at == 0 {
      assert text[0..] == text;
    } else {
      NothingScanned(pairs);
      ScanStep(pairs, text);
      var n := |Original(Scan(pairs, text)[0])|;
      ScanFrom(pairs, text[n..], at - n);
      CutTwice(text, n, at);
    }
  }

  /** An occurrence is replaced as itself, its stars in its place, exactly when no replaced pattern reaches
      into it from before and no pair before its own matches there. */
  lemma OccurrenceReplacedIff(pairs: seq<Bytes>, pattern: Bytes, text: Bytes, at: nat)
    requires Paired(pairs) && IsMasked(pairs, pattern) && pattern != [] && OccursAt(pattern, text, at)
    ensures var pieces, first := Scan(pairs, text), FirstMatch(pairs, text[at..], 0);
            IsBoundary(pieces, at) && From(pieces, at) != [] && From(pieces, at)[0] == Masked(pattern, STARS) <==>
            IsBoundary(pieces, at) && first.Some? && pairs[first.value] == pattern
  {
    hide Scan, IsBoundary, FirstMatch, From, IsMasked;
    if IsBoundary(Scan(pairs, text), at) {
      ScanFrom(pairs, text, at);
      ScanStep(pairs, text[at..]);
    }
  }

  /** Every replacement writes stars. */
  lemma {:induction false} OnlyStars(pairs: seq<Bytes>, text: Bytes)
    requires Paired(pairs)
    ensures forall p | p in Scan(pairs, text) && p.Masked? :: p.written == STARS && IsMasked(pairs, p.pattern)
    decreases |text|
  {
    if text != [] {
      ScanStep(pairs, text);
      var pieces := Scan(pairs, text);
      OnlyStars(pairs, text[|Original(pieces[0])|..]);
      hide Scan;
      assert pieces == [pieces[0]] + pieces[1..];
      match FirstMatch(pairs, text, 0) {
        case Some(i) => assert pairs[i + 1] == STARS && IsMasked(pairs, pairs[i]);
        case None =>
      }
    }
  }

  /** A line that holds the base64 of a payload that holds a job secret or an added mask: the form of the
      secret that stands in it is masked where it begins. */
  lemma LoggedLineIsMasked(enc: Encoders, secretValues: seq<Bytes>, c: Cache<nat>, slice: nat, masks: seq<Bytes>,
                           v: Bytes, p: Bytes, q: Bytes, before: Bytes, after: Bytes)
    requires c.ref == Some(slice) ==> Agrees(enc, Build(enc, [], secretValues), c, masks)
    requires v in secretValues || v in masks
    requires var shift, t := |p| % 3, TrimSpace(v);
             |t| > 1 && (if shift == 0 then |t| % 3 == 0 || q == [] else shift + |t| >= 10)
    ensures var pairs := UsedPairs(enc, Build(enc, [], secretValues), c, slice, masks);
            var line := before + (Base64.Encode(p + TrimSpace(v) + q) + after);
            IsCovered(Scan(pairs, line), |before| + FormPlace(|p|))
  {
    hide TrimSpace, Form, IsMasked, Paired, Base64.Encode, Build, AppendSecretMasker, AppendFrom, Scan, IsCovered,
      UsedPairs;
    var form, payload := Form(|p| % 3, TrimSpace(v)), Base64.Encode(p + TrimSpace(v) + q);
    var pairs := UsedPairs(enc, Build(enc, [], secretValues), c, slice, masks);
    LoggedPayloadIsMasked(enc, secretValues, c, slice, masks, v, p, q);
    PatternsAreForms(enc, secretValues, c, slice, masks, []);
    OccursWithin(form, payload, FormPlace(|p|), before, after);
    NoneSurvives(pairs, form, before + (payload + after), |before| + FormPlace(|p|));
  }

  lemma OccursWithin(part: Bytes, s: Bytes, at: nat, before: Bytes, after: Bytes)
    requires OccursAt(part, s, at)
    ensures OccursAt(part, before + (s + after), |before| + at)
  {
    var whole := before + (s + after);
    assert whole[|before| + at..|before| + at + |part|] == s[at..at + |part|];
  }

  // ---------------------------------------------------------------- nothing leaks

  const STAR: byte := 42

  lemma OccursCut(part: Bytes, head: Bytes, rest: Bytes, at: nat)
    requires OccursAt(part, head + rest, at) && part != []
    ensures at < |head| ==> part[0] == head[at]
    ensures at >= |head| ==> OccursAt(part, rest, at - |head|)
  {
    var s := head + rest;
    assert s[at..at + |part|][0] == s[at];
    if at >= |head| { assert rest[at - |head|..at - |head| + |part|] == s[at..at + |part|]; }
  }

  predicate ThreeStarsAt(p: Bytes, k: nat) {
    k + 3 <= |p| && p[k] == STAR && p[k + 1] == STAR && p[k + 2] == STAR
  }

  /** The stars of a replacement can be among those of the pattern: it begins or ends with a star, or has
      three in a row. */
  predicate StarExposed(p: Bytes) {
    p != [] && (p[0] == STAR || p[|p| - 1] == STAR || exists k | 0 <= k < |p| :: ThreeStarsAt(p, k))
  }

  /** No star at its end and never three in a row. */
  ghost predicate IsTame(p: Bytes) {
    (p != [] ==> p[|p| - 1] != STAR) && forall k: nat :: !ThreeStarsAt(p, k)
  }

  lemma TameTail(p: Bytes)
    requires IsTame(p) && p != []
    ensures IsTame(p[1..])
  {
    forall k: nat ensures !ThreeStarsAt(p[1..], k) { assert !ThreeStarsAt(p, k + 1); }
  }

  lemma TameStart(p: Bytes, rest: Bytes)
    requires IsTame(p) && p != []
    ensures !(p <= [42, 42, 42] + rest)
  {
    var s: Bytes := [42, 42, 42] + rest;
    assert s[0] == s[1] == s[2] == STAR && !ThreeStarsAt(p, 0);
  }

  /** A tame text begins the line if it begins the masked one. */
  lemma {:induction false} PrefixIsKept(pairs: seq<Bytes>, pattern: Bytes, text: Bytes)
    requires Paired(pairs) && pattern <= Logged(Scan(pairs, text)) && IsTame(pattern)
    ensures pattern <= text
    decreases |text|
  {
    if pattern != [] {
      if text == [] { NothingScanned(pairs); }
      LoggedStep(pairs, text);
      var pieces := Scan(pairs, text);
      hide Scan, FirstMatch, Paired, IsTame, Logged;
      match pieces[0] {
        case Kept(b) =>
          TameTail(pattern);
          assert pattern[1..] <= Logged(pieces)[1..];
          PrefixIsKept(pairs, pattern[1..], text[1..]);
          assert pattern == [pattern[0]] + pattern[1..] && text == [text[0]] + text[1..];
        case Masked(_, _) =>
          TameStart(pattern, Logged(Scan(pairs, text[|Original(pieces[0])|..])));
      }
    }
  }

  /** The first piece of a masked line: a byte of the line where no pattern matches, or three stars. */
  lemma LoggedStep(pairs: seq<Bytes>, text: Bytes)
    requires Paired(pairs) && text != []
    ensures var pieces := Scan(pairs, text);
            && pieces != [] && 0 < |Original(pieces[0])| <= |text|
            && Logged(pieces) == (match pieces[0] case Kept(b) => [b] case Masked(_, _) => [42, 42, 42]) +
                                 Logged(Scan(pairs, text[|Original(pieces[0])|..]))
            && (pieces[0].Kept? ==> pieces[0].b == text[0] && FirstMatch(pairs, text, 0) == None)
  {
    ScanStep(pairs, text);
    hide Scan;
  }

  /** Whatever the line and whatever else is masked, its masked form holds the pattern nowhere, unless the
      stars of a replacement can be among the pattern's. */
  lemma {:induction false} NothingLeaks(pairs: seq<Bytes>, pattern: Bytes, text: Bytes, at: nat)
    requires Paired(pairs) && IsMasked(pairs, pattern) && pattern != [] && !StarExposed(pattern)
    ensures !OccursAt(pattern, Logged(Scan(pairs, text)), at)
    decreases |text|
  {
    var masked := Logged(Scan(pairs, text));
    if OccursAt(pattern, masked, at) {
      if text == [] { NothingScanned(pairs); }
      assert text != [];
      LoggedStep(pairs, text);
      var pieces := Scan(pairs, text);
      var rest := text[|Original(pieces[0])|..];
      assert IsTame(pattern);
      hide Scan, IsMasked, Paired, FirstMatch, IsTame;
      NothingLeaks(pairs, pattern, rest,
                   if at == 0 then 0 else if pieces[0].Kept? then at - 1 else if at > 2 then at - 3 else 0);
      if pieces[0].Kept? && at == 0 {
        assert masked[0..|pattern|] == pattern && pattern <= masked;
        PrefixIsKept(pairs, pattern, text);
        MaskedIsFound(pairs, pattern, text);
      } else {
        OccursCut(pattern, match pieces[0] case Kept(b) => [b] case Masked(_, _) => [42, 42, 42],
                  Logged(Scan(pairs, rest)), at);
      }
    }
  }

  /** And if they can, a line is there in which the pattern reappears even when nothing else is masked. */
  lemma LeaksIff(pattern: Bytes)
    requires pattern != []
    ensures (exists text, at: nat :: OccursAt(pattern, Logged(Scan([pattern, STARS], text)), at)) <==>
            StarExposed(pattern)
  {
    var pairs := [pattern, STARS];
    assert pairs[0] == pattern && Paired(pairs) && IsMasked(pairs, pattern);
    if StarExposed(pattern) {
      var a, b, at := Exposing(pattern);
      AroundPattern(pattern, a, b);
      assert OccursAt(pattern, Logged(Scan(pairs, a + (pattern + b))), at);
    } else {
      forall text, at: nat ensures !OccursAt(pattern, Logged(Scan(pairs, text)), at) {
        NothingLeaks(pairs, pattern, text, at);
      }
    }
  }

  /** A beginning and an end of the pattern that three stars in between complete to it. */
  lemma Exposing(p: Bytes) returns (a: Bytes, b: Bytes, at: nat)
    requires StarExposed(p)
    ensures |b| < |p| && a < p && (a != [] ==> p[0] != STAR && p[|a|] == STAR)
    ensures OccursAt(p, a + (STARS + b), at)
  {
    if p[0] == STAR {
      a, b, at := [], p[1..], 2;
      assert (a + (STARS + b))[2..2 + |p|] == p;
    } else if p[|p| - 1] == STAR {
      a, b, at := p[..|p| - 1], [], 0;
      assert (a + (STARS + b))[0..|p|] == p;
    } else {
      var k :| 0 <= k < |p| && ThreeStarsAt(p, k);
      a, b, at := p[..k], p[k + 3..], 0;
      assert a + (STARS + b) == p;
    }
  }

  /** Behind such a beginning the pattern is found where it stands, and what follows is too short for it. */
  lemma AroundPattern(p: Bytes, a: Bytes, b: Bytes)
    requires p != [] && |b| < |p| && a < p && (a != [] ==> p[0] != STAR && p[|a|] == STAR)
    ensures Logged(Scan([p, STARS], a + (p + b))) == a + (STARS + b)
  {
    var pairs := [p, STARS];
    ShortIsKept(p, b);
    PatternScanned(p, b);
    KeptBefore(p, a, a, p + b);
  }

  /** The list of one pattern finds it or nothing. */
  lemma OnlyPattern(p: Bytes, text: Bytes)
    requires p != []
    ensures FirstMatch([p, STARS], text, 0) == if p <= text then Some(0) else None
  {
    assert FirstMatch([p, STARS], text, 2) == None;
  }

  /** Where the pattern does not match, a byte is kept. */
  lemma StepKept(p: Bytes, text: Bytes)
    requires p != [] && text != [] && !(p <= text)
    ensures Logged(Scan([p, STARS], text)) == [text[0]] + Logged(Scan([p, STARS], text[1..]))
  {
    OnlyPattern(p, text);
    PairedPattern(p);
    LoggedStep([p, STARS], text);
    ScanStep([p, STARS], text);
    hide Scan, Logged, FirstMatch;
  }

  lemma {:induction false} ShortIsKept(p: Bytes, text: Bytes)
    requires p != [] && |text| < |p|
    ensures Logged(Scan([p, STARS], text)) == text
    decreases |text|
  {
    if text == [] {
      NothingScanned([p, STARS]);
    } else {
      hide Scan, Logged;
      StepKept(p, text);
      ShortIsKept(p, text[1..]);
      assert text == [text[0]] + text[1..];
    }
  }

  lemma PairedPattern(p: Bytes)
    ensures Paired([p, STARS])
  {
  }

  lemma PatternScanned(p: Bytes, b: Bytes)
    requires p != []
    ensures Logged(Scan([p, STARS], p + b)) == STARS + Logged(Scan([p, STARS], b))
  {
    var pairs := [p, STARS];
    OnlyPattern(p, p + b);
    PairedPattern(p);
    LoggedStep(pairs, p + b);
    ScanStep(pairs, p + b);
    assert (p + b)[|p|..] == b;
  }

  /** The rest of a beginning of the pattern, before the pattern itself: it is kept. */
  lemma {:induction false} KeptBefore(p: Bytes, a: Bytes, rest: Bytes, text: Bytes)
    requires a < p && |rest| <= |a| && rest == a[|a| - |rest|..] && p <= text
    requires a != [] ==> p[0] != STAR && p[|a|] == STAR
    ensures Logged(Scan([p, STARS], rest + text)) == rest + Logged(Scan([p, STARS], text))
    decreases |rest|
  {
    hide Scan, Logged;
    var masked := Logged(Scan([p, STARS], text));
    if rest == [] {
      assert rest + text == text && rest + masked == masked;
    } else {
      NotYet(p, a, rest, text);
      StepKept(p, rest + text);
      assert (rest + text)[1..] == rest[1..] + text && rest == [rest[0]] + rest[1..];
      KeptBefore(p, a, rest[1..], text);
      ConcatAssociative([rest[0]], rest[1..], masked);
    }
  }

  /** The pattern's star behind its beginning meets a byte of the beginning or its first one. */
  lemma NotYet(p: Bytes, a: Bytes, rest: Bytes, text: Bytes)
    requires a < p && 0 < |rest| <= |a| && rest == a[|a| - |rest|..] && p <= text
    requires p[0] != STAR && p[|a|] == STAR
    ensures !(p <= rest + text)
  {
    var all, i := rest + text, |a| - |rest|;
    assert all[0] == rest[0] == a[i] == p[i];
    assert all[|a|] == text[i] == p[i];
  }

  /** So no form of a job secret or of an added mask, save those, is in any logged line. */
  lemma LoggedLineHoldsNoForm(enc: Encoders, secretValues: seq<Bytes>, c: Cache<nat>, slice: nat, masks: seq<Bytes>,
                              line: Bytes, v: Bytes, form: Bytes, at: nat)
    requires c.ref == Some(slice) ==> Agrees(enc, Build(enc, [], secretValues), c, masks)
    requires (v in secretValues || v in masks) && SecretForm(enc, v, form) && form != [] && !StarExposed(form)
    ensures !OccursAt(form, Logged(Scan(UsedPairs(enc, Build(enc, [], secretValues), c, slice, masks), line)), at)
  {
    hide Build, SecretForm, UsedPairs, Scan, OccursAt, IsMasked, Paired, Logged;
    PatternsAreForms(enc, secretValues, c, slice, masks, form);
    NothingLeaks(UsedPairs(enc, Build(enc, [], secretValues), c, slice, masks), form, line, at);
  }
}
