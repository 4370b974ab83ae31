/** The patterns masked in the log, and the cache that saves building them again for every line.
    A Go string is a sequence of bytes. */
module MaskCache {
  import opened Basics
  import Base64

  const STARS: Bytes := [42, 42, 42]
  const NEWLINE: byte := 10

  /** The forms a secret takes in a log besides base64: as command data, in JSON, in URLs. */
  datatype Encoders = Encoders(escapeCommandData: Bytes -> Bytes, others: seq<Bytes -> Bytes>)

  /** The UTF-8 encoding of one white-space character. */
  predicate IsSpaceCode(s: Bytes) {
    || (|s| == 1 && (9 <= s[0] <= 13 || s[0] == 32))
    || (|s| == 2 && s[0] == 0xC2 && (s[1] == 0x85 || s[1] == 0xA0))
    || (|s| == 3 && s[0] == 0xE1 && s[1] == 0x9A && s[2] == 0x80)
    || (|s| == 3 && s[0] == 0xE2 && s[1] == 0x80 &&
        (0x80 <= s[2] <= 0x8A || s[2] == 0xA8 || s[2] == 0xA9 || s[2] == 0xAF))
    || (|s| == 3 && s[0] == 0xE2 && s[1] == 0x81 && s[2] == 0x9F)
    || (|s| == 3 && s[0] == 0xE3 && s[1] == 0x80 && s[2] == 0x80)
  }

  /** The length of the white-space character v begins with, or zero. */
  function SpaceAtStart(v: Bytes): (n: nat)
    ensures n <= |v| && (n > 0 ==> IsSpaceCode(v[..n]))
  {
    if |v| >= 1 && IsSpaceCode(v[..1]) then 1
    else if |v| >= 2 && IsSpaceCode(v[..2]) then 2
    else if |v| >= 3 && IsSpaceCode(v[..3]) then 3
    else 0
  }

  /** The length of the one it ends with. */
  function SpaceAtEnd(v: Bytes): (n: nat)
    ensures n <= |v| && (n > 0 ==> IsSpaceCode(v[|v| - n..]))
  {
    if |v| >= 1 && IsSpaceCode(v[|v| - 1..]) then 1
    else if |v| >= 2 && IsSpaceCode(v[|v| - 2..]) then 2
    else if |v| >= 3 && IsSpaceCode(v[|v| - 3..]) then 3
    else 0
  }

  function TrimLeft(v: Bytes): Bytes
    decreases |v|
  {
    var n := SpaceAtStart(v);
    if n > 0 then TrimLeft(v[n..]) else v
  }

  function TrimRight(v: Bytes): Bytes
    decreases |v|
  {
    var n := SpaceAtEnd(v);
    if n > 0 then TrimRight(v[..|v| - n]) else v
  }

  function TrimSpace(v: Bytes): Bytes {
    TrimRight(TrimLeft(v))
  }

  /** The pieces of v between line breaks. */
  function Lines(v: Bytes): (ls: seq<Bytes>)
    ensures ls != []
  {
    if v == [] then [[]]
    else
      var rest := Lines(v[1..]);
      if v[0] == NEWLINE then [[]] + rest else [[v[0]] + rest[0]] + rest[1..]
  }

  /** A replacer's argument list: what to mask at the even places, stars at the odd ones. */
  ghost predicate Paired(pairs: seq<Bytes>) {
    |pairs| % 2 == 0 && forall i | 0 <= i < |pairs| && i % 2 == 1 :: pairs[i] == STARS
  }

  ghost predicate IsMasked(pairs: seq<Bytes>, pattern: Bytes) {
    exists i | 0 <= i < |pairs| :: i % 2 == 0 && pairs[i] == pattern
  }

  function AppendLines(enc: Encoders, pairs: seq<Bytes>, lines: seq<Bytes>): seq<Bytes>
    decreases |lines|
  {
    if lines == [] then pairs else AppendLines(enc, AppendLine(enc, pairs, lines[0]), lines[1..])
  }

  function AppendLine(enc: Encoders, pairs: seq<Bytes>, line: Bytes): seq<Bytes> {
    var tm := TrimSpace(line);
    var pairs1 := if |tm| > 1 then pairs + [tm, STARS] else pairs;
    if |tm| > 1 && (37 in tm || 13 in tm || NEWLINE in tm) then pairs1 + [enc.escapeCommandData(tm), STARS] else pairs1
  }

  /** Adds the encoded form unless it is too short, is the value itself, or is there already. */
  function AppendForm(pairs: seq<Bytes>, trimmed: Bytes, encoded: Bytes): seq<Bytes> {
    if encoded == trimmed || |encoded| <= 1 || encoded in pairs then pairs else pairs + [encoded, STARS]
  }

  function AppendForms(pairs: seq<Bytes>, trimmed: Bytes, forms: seq<Bytes -> Bytes>): seq<Bytes>
    decreases |forms|
  {
    if forms == [] then pairs else AppendForms(AppendForm(pairs, trimmed, forms[0](trimmed)), trimmed, forms[1..])
  }

  /** The pair list with the patterns of one more secret: its lines, and the encodings of the whole. */
  function AppendSecretMasker(enc: Encoders, pairs: seq<Bytes>, v: Bytes): seq<Bytes> {
    var byLine := AppendLines(enc, pairs, Lines(v));
    var trimmed := TrimSpace(v);
    if |trimmed| <= 1 then byLine
    else WithForms(enc, byLine, trimmed)
  }

  /** The list with the encodings of a trimmed value. */
  function WithForms(enc: Encoders, byLine: seq<Bytes>, t: Bytes): seq<Bytes> {
    var base := AppendForm(byLine, t, Base64.Encode(t));
    var shift1 := AppendForm(base, t, Base64.ShiftEncode(1, t));
    var shift2 := AppendForm(shift1, t, Base64.ShiftEncode(2, t));
    AppendForms(shift2, t, enc.others)
  }

  /** The pair list for these masks on top of these pairs, built from scratch. */
  function Build(enc: Encoders, pairs: seq<Bytes>, masks: seq<Bytes>): seq<Bytes> {
    if masks == [] then pairs
    else AppendSecretMasker(enc, Build(enc, pairs, masks[..|masks| - 1]), masks[|masks| - 1])
  }

  // ---------------------------------------------------------------- the cache

  /** What is remembered: which slice of masks it is for, how many of them are in the pair list, and
      the list the current replacer was made from. */
  datatype Cache<Ref> = Cache(ref: Option<Ref>, pairs: seq<Bytes>, masked: nat, replacer: Option<seq<Bytes>>)

  /** Adds the masks from `masked` on. */
  function AppendFrom(enc: Encoders, pairs: seq<Bytes>, masks: seq<Bytes>, masked: nat): seq<Bytes>
    requires masked <= |masks|
    decreases |masks| - masked
  {
    if masked == |masks| then pairs
    else AppendFrom(enc, AppendSecretMasker(enc, pairs, masks[masked]), masks, masked + 1)
  }

  /** One log line with a non-empty mask slice: the cache afterwards and the pair list it masks with. */
  function Refresh<Ref(==)>(enc: Encoders, secrets: seq<Bytes>, c: Cache<Ref>, ref: Ref,
                            masks: seq<Bytes>): (Cache<Ref>, seq<Bytes>)
    requires c.ref == Some(ref) ==> c.masked <= |masks|
  {
    var c1 := if c.ref != Some(ref) then Cache(Some(ref), secrets, 0, None) else c;
    if c1.replacer == None || c1.masked != |masks| then
      var pairs := AppendFrom(enc, c1.pairs, masks, c1.masked);
      (Cache(Some(ref), pairs, |masks|, Some(pairs)), pairs)
    else
      (c1, c1.replacer.value)
  }

  /** The cache is what building from scratch would give for the masks it has seen. */
  ghost predicate Agrees<Ref>(enc: Encoders, secrets: seq<Bytes>, c: Cache<Ref>, masks: seq<Bytes>) {
    && c.masked <= |masks|
    && c.pairs == Build(enc, secrets, masks[..c.masked])
    && (c.replacer.Some? ==> c.replacer.value == c.pairs)
  }

  lemma {:induction false} AppendFromBuilds(enc: Encoders, secrets: seq<Bytes>, masks: seq<Bytes>, masked: nat)
    requires masked <= |masks|
    ensures AppendFrom(enc, Build(enc, secrets, masks[..masked]), masks, masked) == Build(enc, secrets, masks)
    decreases |masks| - masked
  {
    if masked == |masks| {
      assert masks[..masked] == masks;
    } else {
      assert masks[..masked + 1][..masked] == masks[..masked] && masks[..masked + 1][masked] == masks[masked];
      AppendFromBuilds(enc, secrets, masks, masked + 1);
    }
  }

  /** Incremental and from-scratch masking agree, whatever the cache was filled for. */
  lemma RefreshAgrees<Ref>(enc: Encoders, secrets: seq<Bytes>, c: Cache<Ref>, ref: Ref, masks: seq<Bytes>)
    requires c.ref == Some(ref) ==> Agrees(enc, secrets, c, masks)
    ensures Refresh(enc, secrets, c, ref, masks).1 == Build(enc, secrets, masks)
    ensures Refresh(enc, secrets, c, ref, masks).0.ref == Some(ref)
    ensures Agrees(enc, secrets, Refresh(enc, secrets, c, ref, masks).0, masks)
  {
    hide AppendSecretMasker;
    assert masks[..|masks|] == masks && masks[..0] == [];
    if c.ref == Some(ref) {
      AppendFromBuilds(enc, secrets, masks, c.masked);
    } else {
      AppendFromBuilds(enc, secrets, masks, 0);
    }
  }

  lemma GrowthAgrees<Ref>(enc: Encoders, secrets: seq<Bytes>, c: Cache<Ref>, masks: seq<Bytes>, masks': seq<Bytes>)
    requires Agrees(enc, secrets, c, masks) && masks <= masks'
    ensures Agrees(enc, secrets, c, masks')
  {
    assert masks'[..c.masked] == masks[..c.masked];
  }

  // ---------------------------------------------------------------- any interleaving

  /** A log line written under a slice of masks, or a mask appended to one. */
  datatype Op = Log(slice: nat) | AddMask(slice: nat, mask: Bytes)

  type Slices = map<nat, seq<Bytes>>

  function MasksOf(slices: Slices, slice: nat): seq<Bytes> {
    if slice in slices then slices[slice] else []
  }

  /** The pair lists used for the log lines of a history, in order. */
  function Used(enc: Encoders, secrets: seq<Bytes>, slices: Slices, c: Cache<nat>,
                                              ops: seq<Op>): seq<seq<Bytes>>
    requires c.ref.Some? ==> c.masked <= |MasksOf(slices, c.ref.value)|
    decreases |ops|
  {
    if ops == [] then [] else
      match ops[0]
      case AddMask(slice, mask) =>
        Used(enc, secrets, slices[slice := MasksOf(slices, slice) + [mask]], c, ops[1..])
      case Log(slice) =>
        var masks := MasksOf(slices, slice);
        if masks == [] then [secrets] + Used(enc, secrets, slices, c, ops[1..])
        else
          var (c', used) := Refresh(enc, secrets, c, slice, masks);
          [used] + Used(enc, secrets, slices, c', ops[1..])
  }

  /** The same with no cache. */
  function Recomputed(enc: Encoders, secrets: seq<Bytes>, slices: Slices, ops: seq<Op>): seq<seq<Bytes>>
    decreases |ops|
  {
    if ops == [] then [] else
      match ops[0]
      case AddMask(slice, mask) =>
        Recomputed(enc, secrets, slices[slice := MasksOf(slices, slice) + [mask]], ops[1..])
      case Log(slice) =>
        [Build(enc, secrets, MasksOf(slices, slice))] + Recomputed(enc, secrets, slices, ops[1..])
  }

  /** However log lines, new masks and switches between slices interleave, every line is masked with
      the patterns of the secrets and of all masks its slice then holds. */
  lemma {:induction false} CacheIsTransparent(enc: Encoders, secrets: seq<Bytes>, slices: Slices, c: Cache<nat>,
                                              ops: seq<Op>)
    requires c.ref.Some? ==> Agrees(enc, secrets, c, MasksOf(slices, c.ref.value))
    ensures Used(enc, secrets, slices, c, ops) == Recomputed(enc, secrets, slices, ops)
    decreases |ops|
  {
    hide AppendSecretMasker, Build;
    if ops != [] {
      match ops[0] {
        case AddMask(slice, mask) =>
          var slices' := slices[slice := MasksOf(slices, slice) + [mask]];
          if c.ref.Some? {
            GrowthAgrees(enc, secrets, c, MasksOf(slices, c.ref.value), MasksOf(slices', c.ref.value));
          }
          CacheIsTransparent(enc, secrets, slices', c, ops[1..]);
        case Log(slice) =>
          var masks := MasksOf(slices, slice);
          if masks == [] {
            BuildNothing(enc, secrets);
            CacheIsTransparent(enc, secrets, slices, c, ops[1..]);
          } else {
            RefreshAgrees(enc, secrets, c, slice, masks);
            CacheIsTransparent(enc, secrets, slices, Refresh(enc, secrets, c, slice, masks).0, ops[1..]);
          }
      }
    }
  }

  lemma BuildNothing(enc: Encoders, secrets: seq<Bytes>)
    ensures Build(enc, secrets, []) == secrets
  {
  }

  // ---------------------------------------------------------------- what is masked stays masked

  lemma AppendMasks(pairs: seq<Bytes>, y: Bytes, x: Bytes)
    requires Paired(pairs)
    ensures Paired(pairs + [y, STARS])
    ensures IsMasked(pairs + [y, STARS], x) <==> IsMasked(pairs, x) || x == y
  {
    var pairs' := pairs + [y, STARS];
    assert pairs'[|pairs|] == y;
    if IsMasked(pairs, x) {
      var i :| 0 <= i < |pairs| && i % 2 == 0 && pairs[i] == x;
      assert pairs'[i] == x;
    }
  }

  /** What one line of a value is masked as: itself, trimmed, and as command data if that differs. */
  predicate LineForm(enc: Encoders, line: Bytes, x: Bytes) {
    var t := TrimSpace(line);
    |t| > 1 && (x == t || ((37 in t || 13 in t || 10 in t) && x == enc.escapeCommandData(t)))
  }

  predicate LinesForm(enc: Encoders, lines: seq<Bytes>, x: Bytes) {
    exists l | l in lines :: LineForm(enc, l, x)
  }

  lemma LineMasks(enc: Encoders, pairs: seq<Bytes>, line: Bytes, x: Bytes)
    requires Paired(pairs)
    ensures Paired(AppendLine(enc, pairs, line))
    ensures IsMasked(AppendLine(enc, pairs, line), x) <==> IsMasked(pairs, x) || LineForm(enc, line, x)
  {
    hide TrimSpace, Paired, IsMasked;
    var tm := TrimSpace(line);
    if |tm| > 1 {
      AppendMasks(pairs, tm, x);
      AppendMasks(pairs + [tm, STARS], enc.escapeCommandData(tm), x);
    }
  }

  lemma {:induction false} LinesMask(enc: Encoders, pairs: seq<Bytes>, lines: seq<Bytes>, x: Bytes)
    requires Paired(pairs)
    ensures Paired(AppendLines(enc, pairs, lines))
    ensures IsMasked(AppendLines(enc, pairs, lines), x) <==> IsMasked(pairs, x) || LinesForm(enc, lines, x)
    decreases |lines|
  {
    hide AppendLine, LineForm, IsMasked, Paired;
    if lines != [] {
      LineMasks(enc, pairs, lines[0], x);
      LinesMask(enc, AppendLine(enc, pairs, lines[0]), lines[1..], x);
      assert lines == [lines[0]] + lines[1..];
    }
  }

  lemma AppendFormMasks(pairs: seq<Bytes>, t: Bytes, encoded: Bytes, x: Bytes)
    requires Paired(pairs) && x != STARS
    ensures Paired(AppendForm(pairs, t, encoded))
    ensures IsMasked(AppendForm(pairs, t, encoded), x) <==> IsMasked(pairs, x) || IsForm(t, encoded, x)
  {
    if !(encoded == t || |encoded| <= 1 || encoded in pairs) {
      AppendMasks(pairs, encoded, x);
    }
  }

  /** An encoding worth masking: long enough, and not the value itself. */
  predicate IsForm(t: Bytes, encoded: Bytes, x: Bytes) {
    x == encoded && |x| > 1 && x != t
  }

  predicate OtherForm(t: Bytes, forms: seq<Bytes -> Bytes>, x: Bytes) {
    exists i | 0 <= i < |forms| :: IsForm(t, forms[i](t), x)
  }

  lemma {:induction false} AppendFormsMask(pairs: seq<Bytes>, t: Bytes, forms: seq<Bytes -> Bytes>, x: Bytes)
    requires Paired(pairs) && x != STARS
    ensures Paired(AppendForms(pairs, t, forms))
    ensures IsMasked(AppendForms(pairs, t, forms), x) <==> IsMasked(pairs, x) || OtherForm(t, forms, x)
    decreases |forms|
  {
    hide AppendForm, IsForm, IsMasked, Paired;
    if forms != [] {
      AppendFormMasks(pairs, t, forms[0](t), x);
      AppendFormsMask(AppendForm(pairs, t, forms[0](t)), t, forms[1..], x);
      OtherFormFirst(t, forms, x);
    }
  }

  lemma OtherFormFirst(t: Bytes, forms: seq<Bytes -> Bytes>, x: Bytes)
    requires forms != []
    ensures OtherForm(t, forms, x) <==> IsForm(t, forms[0](t), x) || OtherForm(t, forms[1..], x)
  {
    hide IsForm;
    var rest := forms[1..];
    if OtherForm(t, forms, x) {
      var i :| 0 <= i < |forms| && IsForm(t, forms[i](t), x);
      if i > 0 { assert rest[i - 1] == forms[i]; }
    }
    if OtherForm(t, rest, x) {
      var i :| 0 <= i < |rest| && IsForm(t, rest[i](t), x);
      assert forms[i + 1] == rest[i];
    }
  }

  // ---------------------------------------------------------------- trimming and lines

  /** White-space characters only. */
  predicate AllSpace(v: Bytes)
    decreases |v|
  {
    v == [] || (SpaceAtStart(v) > 0 && AllSpace(v[SpaceAtStart(v)..]))
  }

  predicate IsTrimmed(t: Bytes) {
    t != [] && SpaceAtStart(t) == 0 && SpaceAtEnd(t) == 0
  }

  /** No white-space character begins with another. */
  lemma StartIs(v: Bytes, k: nat)
    requires k <= |v| && IsSpaceCode(v[..k])
    ensures SpaceAtStart(v) == k > 0
  {
    assert |v[..k]| == k && v[..k][0] == v[0];
    assert |v| >= 1 ==> v[..1][0] == v[0];
    assert |v| >= 2 ==> v[..2][0] == v[0];
  }

  /** Nor ends with one. */
  lemma EndIs(v: Bytes, k: nat)
    requires k <= |v| && IsSpaceCode(v[|v| - k..])
    ensures SpaceAtEnd(v) == k > 0
  {
    var s := v[|v| - k..];
    assert |s| == k && s[k - 1] == v[|v| - 1];
    assert |v| >= 1 ==> v[|v| - 1..][0] == v[|v| - 1];
    assert |v| >= 2 ==> v[|v| - 2..][0] == v[|v| - 2] && v[|v| - 2..][1] == v[|v| - 1];
    assert k == 3 ==> s[1] == v[|v| - 2];
  }

  lemma StartOf(c: Bytes, x: Bytes)
    requires IsSpaceCode(c)
    ensures SpaceAtStart(c + x) == |c| > 0 && (c + x)[|c|..] == x
  {
    hide SpaceAtStart, IsSpaceCode;
    assert (c + x)[..|c|] == c;
    StartIs(c + x, |c|);
  }

  lemma EndOf(x: Bytes, c: Bytes)
    requires IsSpaceCode(c)
    ensures SpaceAtEnd(x + c) == |c| > 0 && (x + c)[..|x|] == x
  {
    hide SpaceAtEnd, IsSpaceCode;
    assert (x + c)[|x + c| - |c|..] == c;
    EndIs(x + c, |c|);
  }

  lemma SpaceThenAll(c: Bytes, x: Bytes)
    requires IsSpaceCode(c) && AllSpace(x)
    ensures AllSpace(c + x)
  {
    StartOf(c, x);
    hide SpaceAtStart;
  }

  /** The first white-space character and the rest. */
  lemma FirstSpace(v: Bytes) returns (c: Bytes, x: Bytes)
    requires AllSpace(v) && v != []
    ensures v == c + x && IsSpaceCode(c) && c != [] && AllSpace(x) && |x| < |v|
  {
    hide SpaceAtStart, IsSpaceCode;
    c, x := v[..SpaceAtStart(v)], v[SpaceAtStart(v)..];
  }

  lemma OneSpace(c: Bytes)
    requires IsSpaceCode(c)
    ensures AllSpace(c)
  {
    assert c + [] == c;
    SpaceThenAll(c, []);
  }

  lemma {:induction false} AllThenSpace(x: Bytes, c: Bytes)
    requires AllSpace(x) && IsSpaceCode(c)
    ensures AllSpace(x + c)
    decreases |x|
  {
    hide IsSpaceCode, AllSpace;
    if x == [] {
      assert x + c == c;
      OneSpace(c);
    } else {
      var first, rest := FirstSpace(x);
      AllThenSpace(rest, c);
      SpaceThenAll(first, rest + c);
      ConcatAssociative(first, rest, c);
    }
  }

  /** White space can be taken apart from its end as well. */
  lemma {:induction false} LastSpace(b: Bytes) returns (x: Bytes, c: Bytes)
    requires AllSpace(b) && b != []
    ensures b == x + c && IsSpaceCode(c) && AllSpace(x) && |x| < |b|
    decreases |b|
  {
    var first, rest := FirstSpace(b);
    hide IsSpaceCode;
    if rest == [] {
      x, c := [], first;
      assert b == first;
    } else {
      hide AllSpace;
      var x' := [];
      x', c := LastSpace(rest);
      x := first + x';
      SpaceThenAll(first, x');
      ConcatAssociative(first, x', c);
    }
  }

  /** White space behind a text does not make it begin with a white-space character: only a first byte can
      begin one, and no byte within one can. */
  lemma StartKept(t: Bytes, b: Bytes)
    requires t != [] && SpaceAtStart(t) == 0 && AllSpace(b)
    ensures SpaceAtStart(t + b) == 0
  {
    if b == [] {
      assert t + b == t;
    } else {
      var c, x := FirstSpace(b);
      hide SpaceAtStart, AllSpace;
      var k := SpaceAtStart(t + b);
      if k > 0 {
        WithinText(t, b, k);
        WithinCode((t + b)[..k], |t|);
        FirstByte(c);
      }
    }
  }

  lemma WithinText(t: Bytes, b: Bytes, k: nat)
    requires SpaceAtStart(t) == 0 && k <= |t + b| && IsSpaceCode((t + b)[..k])
    ensures |t| < k && (t + b)[..k][|t|] == b[0]
  {
    hide SpaceAtStart, IsSpaceCode;
    if k <= |t| {
      assert (t + b)[..k] == t[..k];
      StartIs(t, k);
    }
  }

  lemma WithinCode(c: Bytes, i: nat)
    requires IsSpaceCode(c) && 0 < i < |c|
    ensures 0x80 <= c[i] <= 0xBF
  {
  }

  lemma FirstByte(c: Bytes)
    requires IsSpaceCode(c)
    ensures !(0x80 <= c[0] <= 0xBF)
  {
  }

  lemma {:induction false} TrimLeftOf(a: Bytes, t: Bytes)
    requires AllSpace(a) && SpaceAtStart(t) == 0
    ensures TrimLeft(a + t) == t
    decreases |a|
  {
    hide SpaceAtStart, IsSpaceCode, AllSpace;
    if a == [] {
      assert a + t == t;
    } else {
      var c, x := FirstSpace(a);
      TrimLeftOf(x, t);
      ConcatAssociative(c, x, t);
      StartOf(c, x + t);
    }
  }

  lemma {:induction false} TrimRightOf(t: Bytes, b: Bytes)
    requires AllSpace(b) && SpaceAtEnd(t) == 0
    ensures TrimRight(t + b) == t
    decreases |b|
  {
    hide SpaceAtEnd, IsSpaceCode, AllSpace;
    if b == [] {
      assert t + b == t;
    } else {
      var x, c := LastSpace(b);
      TrimRightOf(t, x);
      ConcatAssociative(t, x, c);
      EndOf(t + x, c);
    }
  }

  lemma TrimSpaceOf(a: Bytes, t: Bytes, b: Bytes)
    requires AllSpace(a) && AllSpace(b) && IsTrimmed(t)
    ensures TrimSpace(a + (t + b)) == t
  {
    hide SpaceAtStart, SpaceAtEnd, TrimLeft, TrimRight, AllSpace;
    StartKept(t, b);
    TrimLeftOf(a, t + b);
    TrimRightOf(t, b);
  }

  lemma {:induction false} TrimLeftSplit(v: Bytes) returns (a: Bytes)
    ensures AllSpace(a) && v == a + TrimLeft(v)
    ensures SpaceAtStart(TrimLeft(v)) == 0
    decreases |v|
  {
    hide SpaceAtStart, IsSpaceCode;
    var n := SpaceAtStart(v);
    a := [];
    if n > 0 {
      var first, rest := v[..n], v[n..];
      assert v == first + rest && TrimLeft(v) == TrimLeft(rest);
      hide AllSpace, TrimLeft;
      a := TrimLeftSplit(rest);
      SpaceThenAll(first, a);
      ConcatAssociative(first, a, TrimLeft(rest));
      a := first + a;
    }
  }

  lemma {:induction false} TrimRightSplit(v: Bytes) returns (b: Bytes)
    ensures AllSpace(b) && v == TrimRight(v) + b
    ensures SpaceAtEnd(TrimRight(v)) == 0
    decreases |v|
  {
    hide SpaceAtEnd, IsSpaceCode;
    var n := SpaceAtEnd(v);
    b := [];
    if n > 0 {
      var init, last := v[..|v| - n], v[|v| - n..];
      assert v == init + last && TrimRight(v) == TrimRight(init);
      hide AllSpace, TrimRight;
      b := TrimRightSplit(init);
      AllThenSpace(b, last);
      ConcatAssociative(TrimRight(init), b, last);
      b := b + last;
    }
  }

  lemma TrimSpaceSplit(v: Bytes) returns (a: Bytes, b: Bytes)
    ensures AllSpace(a) && AllSpace(b) && v == a + (TrimSpace(v) + b)
    ensures TrimSpace(v) != [] ==> IsTrimmed(TrimSpace(v))
  {
    hide SpaceAtStart, SpaceAtEnd, IsSpaceCode, AllSpace, TrimLeft, TrimRight;
    a := TrimLeftSplit(v);
    var u, t := TrimLeft(v), TrimSpace(v);
    b := TrimRightSplit(u);
    PrefixBeginsAlike(t, b);
  }

  lemma PrefixBeginsAlike(t: Bytes, b: Bytes)
    requires SpaceAtStart(t + b) == 0
    ensures SpaceAtStart(t) == 0
  {
    hide SpaceAtStart, IsSpaceCode;
    var k := SpaceAtStart(t);
    assert (t + b)[..k] == t[..k];
    if IsSpaceCode(t[..k]) { StartIs(t + b, k); }
  }

  /** Bytes before a text that hold no line break go before its first line. */
  lemma {:induction false} LinesPrefix(x: Bytes, rest: Bytes)
    requires NEWLINE !in x
    ensures Lines(x + rest) == [x + Lines(rest)[0]] + Lines(rest)[1..]
    decreases |x|
  {
    var ls := Lines(rest);
    if x == [] {
      assert x + rest == rest && x + ls[0] == ls[0] && ls == [ls[0]] + ls[1..];
    } else {
      LinesPrefix(x[1..], rest);
      assert (x + rest)[1..] == x[1..] + rest && (x + rest)[0] == x[0];
      assert [x[0]] + (x[1..] + ls[0]) == x + ls[0];
      assert Lines(x[1..] + rest)[1..] == ls[1..];
    }
  }

  /** A white-space character is a line break or holds none. */
  lemma SpaceOrBreak(c: Bytes)
    requires IsSpaceCode(c)
    ensures c == [NEWLINE] || NEWLINE !in c
  {
  }

  lemma BreakFirst(rest: Bytes)
    ensures Lines([NEWLINE] + rest) == [[]] + Lines(rest)
  {
    assert ([NEWLINE] + rest)[1..] == rest;
  }

  /** The first line of a value without line breaks followed by spaces: the value and some of them. */
  lemma {:induction false} FirstLine(t: Bytes, b: Bytes) returns (c: Bytes)
    requires NEWLINE !in t && AllSpace(b)
    ensures AllSpace(c) && Lines(t + b)[0] == t + c
    decreases |b|
  {
    hide SpaceAtStart, IsSpaceCode, Lines;
    LinesPrefix(t, b);
    c := FirstSpaces(b);
  }

  lemma {:induction false} FirstSpaces(b: Bytes) returns (c: Bytes)
    requires AllSpace(b)
    ensures AllSpace(c) && Lines(b)[0] == c
    decreases |b|
  {
    if b == [] {
      c := [];
    } else {
      var first, rest := FirstSpace(b);
      SpaceOrBreak(first);
      hide IsSpaceCode, Lines;
      if first == [NEWLINE] {
        BreakFirst(rest);
        c := [];
      } else {
        hide AllSpace;
        LinesPrefix(first, rest);
        var c' := FirstSpaces(rest);
        SpaceThenAll(first, c');
        c := first + c';
      }
    }
  }

  /** A value that holds no line break is, trimmed, one of the lines of the text around it. */
  lemma {:induction false} TrimmedIsALine(a: Bytes, t: Bytes, b: Bytes)
    requires AllSpace(a) && AllSpace(b) && IsTrimmed(t) && NEWLINE !in t
    ensures exists l | l in Lines(a + (t + b)) :: TrimSpace(l) == t
    decreases |a|
  {
    var v := a + (t + b);
    if a == [] {
      hide SpaceAtStart, SpaceAtEnd, IsSpaceCode, Lines, TrimSpace;
      assert v == t + b;
      var c := FirstLine(t, b);
      assert [] + (t + c) == t + c;
      TrimSpaceOf([], t, c);
      assert Lines(v)[0] in Lines(v);
    } else {
      var first, rest := FirstSpace(a);
      SpaceOrBreak(first);
      hide IsSpaceCode, Lines, TrimSpace, IsTrimmed, AllSpace;
      TrimmedIsALine(rest, t, b);
      var ls := Lines(rest + (t + b));
      var l :| l in ls && TrimSpace(l) == t;
      ConcatAssociative(first, rest, t + b);
      if first == [NEWLINE] {
        BreakFirst(rest + (t + b));
        assert l in Lines(v);
      } else {
        LinesPrefix(first, rest + (t + b));
        LineAmong(first, ls, l);
        TrimAfterSpace(first, l);
      }
    }
  }

  lemma LineAmong(x: Bytes, ls: seq<Bytes>, l: Bytes)
    requires ls != [] && l in ls
    ensures l in [x + ls[0]] + ls[1..] || x + l in [x + ls[0]] + ls[1..]
  {
    assert ls == [ls[0]] + ls[1..];
  }

  lemma TrimAfterSpace(c: Bytes, l: Bytes)
    requires IsSpaceCode(c)
    ensures TrimSpace(c + l) == TrimSpace(l)
  {
    StartOf(c, l);
    hide SpaceAtStart, SpaceAtEnd, TrimRight;
  }

  lemma {:induction false} EncodedHasNoNewline(b: Bytes)
    ensures NEWLINE !in Base64.Encode(b) && STARS[0] !in Base64.Encode(b)
  {
    if |b| > 3 {
      EncodedHasNoNewline(b[3..]);
    }
  }

  /** A value that is, trimmed, free of line breaks is masked as a line. */
  lemma ValueIsLineForm(enc: Encoders, v: Bytes)
    requires |TrimSpace(v)| > 1 && NEWLINE !in TrimSpace(v)
    ensures LinesForm(enc, Lines(v), TrimSpace(v))
  {
    var a, b := TrimSpaceSplit(v);
    TrimmedIsALine(a, TrimSpace(v), b);
  }

  /** The form of a secret that a payload holds when it stands behind `shift` bytes of a group: its whole
      encoding at a group's start, else the fragment that its neighbours do not change. */
  function Form(shift: nat, t: Bytes): Bytes {
    if shift == 0 then Base64.Encode(t) else Base64.ShiftEncode(shift, t)
  }

  /** Behind a full group any secret leaves a form; behind one or two bytes it must be long enough. */
  predicate LeavesForm(shift: nat, t: Bytes) {
    shift == 0 || (shift <= 2 && shift + |t| >= 10)
  }

  /** Where that form stands in the encoding of a payload with these many bytes before the secret. */
  function FormPlace(before: nat): nat {
    if before % 3 == 0 then before / 3 * 4 else before / 3 * 4 + 4
  }

  /** Everything a secret is masked as: its lines, its base64 at every alignment that leaves any, and its
      other encodings. */
  predicate SecretForm(enc: Encoders, v: Bytes, x: Bytes) {
    var t := TrimSpace(v);
    || LinesForm(enc, Lines(v), x)
    || (|t| > 1 && (Base64Form(t, x) || OtherForm(t, enc.others, x)))
  }

  predicate Base64Form(t: Bytes, x: Bytes) {
    exists shift: nat | shift <= 2 :: LeavesForm(shift, t) && x == Form(shift, t)
  }

  /** The patterns gained with a secret are its forms. */
  lemma SecretMasks(enc: Encoders, pairs: seq<Bytes>, v: Bytes, x: Bytes)
    requires Paired(pairs) && x != STARS
    ensures Paired(AppendSecretMasker(enc, pairs, v))
    ensures IsMasked(AppendSecretMasker(enc, pairs, v), x) <==> IsMasked(pairs, x) || SecretForm(enc, v, x)
  {
    hide IsMasked, Paired, AppendLines, TrimSpace, Lines, WithForms, LinesForm, Base64Form, OtherForm;
    LinesMask(enc, pairs, Lines(v), x);
    var byLine, t := AppendLines(enc, pairs, Lines(v)), TrimSpace(v);
    if |t| > 1 {
      if x == t && NEWLINE !in t { ValueIsLineForm(enc, v); }
      FormsAreMasked(enc, byLine, t, x);
    }
  }

  lemma FormsAreMasked(enc: Encoders, byLine: seq<Bytes>, t: Bytes, x: Bytes)
    requires Paired(byLine) && x != STARS && |t| > 1
    requires x == t && NEWLINE !in t ==> IsMasked(byLine, x)
    ensures Paired(WithForms(enc, byLine, t))
    ensures IsMasked(WithForms(enc, byLine, t), x) <==>
            IsMasked(byLine, x) || Base64Form(t, x) || OtherForm(t, enc.others, x)
  {
    hide IsMasked, Paired, AppendForm, AppendForms, IsForm, OtherForm, Base64Form, Base64.Encode,
      Base64.ShiftEncode;
    var base := AppendForm(byLine, t, Base64.Encode(t));
    var s1 := AppendForm(base, t, Base64.ShiftEncode(1, t));
    var s2 := AppendForm(s1, t, Base64.ShiftEncode(2, t));
    AppendFormMasks(byLine, t, Base64.Encode(t), x);
    AppendFormMasks(base, t, Base64.ShiftEncode(1, t), x);
    AppendFormMasks(s1, t, Base64.ShiftEncode(2, t), x);
    AppendFormsMask(s2, t, enc.others, x);
    Base64FormIs(t, x);
  }

  lemma Base64FormIs(t: Bytes, x: Bytes)
    requires |t| > 1
    ensures IsForm(t, Base64.Encode(t), x) ==> Base64Form(t, x)
    ensures IsForm(t, Base64.ShiftEncode(1, t), x) || IsForm(t, Base64.ShiftEncode(2, t), x) ==> Base64Form(t, x)
    ensures Base64Form(t, x) ==>
              || (x == t && NEWLINE !in t)
              || IsForm(t, Base64.Encode(t), x)
              || IsForm(t, Base64.ShiftEncode(1, t), x)
              || IsForm(t, Base64.ShiftEncode(2, t), x)
  {
    hide Base64.Encode, Base64.ShiftEncode;
    FormIsPlain(0, t);
    FormIsPlain(1, t);
    FormIsPlain(2, t);
    assert Form(0, t) == Base64.Encode(t);
    assert Form(1, t) == Base64.ShiftEncode(1, t);
    assert Form(2, t) == Base64.ShiftEncode(2, t);
  }

  /** A form is at least four characters, none of them a line break or a star. */
  lemma FormIsPlain(shift: nat, t: Bytes)
    requires |t| > 1 && shift <= 2
    ensures var form := Form(shift, t);
            && (LeavesForm(shift, t) <==> form != [])
            && (form != [] ==> |form| > 3 && form != STARS && NEWLINE !in form)
  {
    Base64.EncodeLength(t);
    Base64.ShiftEncodeLength(shift, t);
    EncodedHasNoNewline(t);
    var buf := seq(shift, _ => 0 as byte) + t;
    EncodedHasNoNewline(buf);
    var encoded := Base64.Encode(buf);
    hide Base64.Encode;
    if |encoded| >= 16 {
      assert forall x | x in encoded[4..|encoded| - 4] :: x in encoded;
    }
  }

  /** The patterns of a built list are those of the list it was built on and the forms of the masks. */
  lemma {:induction false} BuildMasks(enc: Encoders, pairs: seq<Bytes>, masks: seq<Bytes>, x: Bytes)
    requires Paired(pairs) && x != STARS
    ensures Paired(Build(enc, pairs, masks))
    ensures IsMasked(Build(enc, pairs, masks), x) <==>
            IsMasked(pairs, x) || exists v | v in masks :: SecretForm(enc, v, x)
    decreases |masks|
  {
    hide AppendSecretMasker, SecretForm, IsMasked, Paired;
    if masks != [] {
      var init, last := masks[..|masks| - 1], masks[|masks| - 1];
      BuildMasks(enc, pairs, init, x);
      SecretMasks(enc, Build(enc, pairs, init), last, x);
      assert masks == init + [last];
    }
  }

  /** The pairs a log line is masked with. */
  function UsedPairs<Ref(==)>(enc: Encoders, secrets: seq<Bytes>, c: Cache<Ref>, ref: Ref,
                              masks: seq<Bytes>): seq<Bytes>
    requires c.ref == Some(ref) ==> c.masked <= |masks|
  {
    if masks == [] then secrets else Refresh(enc, secrets, c, ref, masks).1
  }

  /** A payload that holds a trimmed secret holds its form, at a group's start if the secret fills its last
      group or ends the payload. */
  lemma FormOccurs(t: Bytes, p: Bytes, q: Bytes)
    requires LeavesForm(|p| % 3, t) && (|p| % 3 == 0 ==> |t| % 3 == 0 || q == [])
    ensures OccursAt(Form(|p| % 3, t), Base64.Encode(p + t + q), FormPlace(|p|))
  {
    hide Base64.Encode, Base64.ShiftEncode, OccursAt;
    if |p| % 3 == 0 {
      Base64.AlignedFormOccurs(t, p, q);
    } else {
      Base64.ShiftedFragmentOccurs(|p| % 3, t, p, q);
    }
  }

  /** Whatever was logged before, the patterns of a log line are the forms of the job's secrets and of the
      masks added so far, and nothing else. */
  lemma PatternsAreForms(enc: Encoders, secretValues: seq<Bytes>, c: Cache<nat>, slice: nat, masks: seq<Bytes>,
                         x: Bytes)
    requires c.ref == Some(slice) ==> Agrees(enc, Build(enc, [], secretValues), c, masks)
    requires x != STARS
    ensures var pairs := UsedPairs(enc, Build(enc, [], secretValues), c, slice, masks);
            && Paired(pairs)
            && (IsMasked(pairs, x) <==> exists v | v in secretValues || v in masks :: SecretForm(enc, v, x))
  {
    hide Build, AppendSecretMasker, AppendFrom, SecretForm;
    var secrets := Build(enc, [], secretValues);
    if masks == [] { BuildNothing(enc, secrets); } else { RefreshAgrees(enc, secrets, c, slice, masks); }
    BuildMasks(enc, [], secretValues, x);
    BuildMasks(enc, secrets, masks, x);
  }

  /** The two halves together: for a job secret or an added mask, the pairs of a log line mask the form
      that stands, at this place, in the base64 of any payload that holds the secret. */
  lemma LoggedPayloadIsMasked(enc: Encoders, secretValues: seq<Bytes>, c: Cache<nat>, slice: nat, masks: seq<Bytes>,
                              v: Bytes, p: Bytes, q: Bytes)
    requires c.ref == Some(slice) ==> Agrees(enc, Build(enc, [], secretValues), c, masks)
    requires v in secretValues || v in masks
    requires var shift, t := |p| % 3, TrimSpace(v);
             |t| > 1 && (if shift == 0 then |t| % 3 == 0 || q == [] else shift + |t| >= 10)
    ensures var form := Form(|p| % 3, TrimSpace(v));
            && IsMasked(UsedPairs(enc, Build(enc, [], secretValues), c, slice, masks), form)
            && form != [] && OccursAt(form, Base64.Encode(p + TrimSpace(v) + q), FormPlace(|p|))
  {
    hide Build, TrimSpace, Form, IsMasked, Paired, Base64.Encode, UsedPairs, Agrees, Lines, OtherForm, LinesForm;
    var shift, t := |p| % 3, TrimSpace(v);
    FormIsPlain(shift, t);
    assert LeavesForm(shift, t);
    assert Base64Form(t, Form(shift, t));
    assert SecretForm(enc, v, Form(shift, t));
    hide SecretForm, Base64Form;
    PatternsAreForms(enc, secretValues, c, slice, masks, Form(shift, t));
    FormOccurs(t, p, q);
  }

  // ---------------------------------------------------------------- the masker

  /** A job's mask slice; ::add-mask:: only ever appends to it. */
  class MaskSlice {
    var items: seq<Bytes>

    method AddMask(mask: Bytes)
      modifies this
      ensures items == old(items) + [mask]
    {
      items := items + [mask];
    }
  }

  class ValueMasker {
    const enc: Encoders
    const secrets: seq<Bytes>
    var masksRef: Option<MaskSlice>
    var pairs: seq<Bytes>
    var masked: nat
    var replacer: Option<seq<Bytes>>

    constructor (enc: Encoders, secretValues: seq<Bytes>)
      ensures Valid() && this.enc == enc && secrets == Build(enc, [], secretValues)
      ensures masksRef == None
    {
      this.enc := enc;
      secrets := Build(enc, [], secretValues);
      masksRef, pairs, masked, replacer := None, [], 0, None;
    }

    ghost function Value(): Cache<MaskSlice>
      reads this
    {
      Cache(masksRef, pairs, masked, replacer)
    }

    ghost predicate Valid()
      reads this, if masksRef.Some? then {masksRef.value} else {}
    {
      masksRef.Some? ==> Agrees(enc, secrets, Value(), masksRef.value.items)
    }

    method AppendMasks(items: seq<Bytes>, from: nat)
      requires from <= |items|
      modifies this`pairs
      ensures pairs == AppendFrom(enc, old(pairs), items, from)
    {
      for i := from to |items|
        invariant AppendFrom(enc, pairs, items, i) == AppendFrom(enc, old(pairs), items, from)
      {
        pairs := AppendSecretMasker(enc, pairs, items[i]);
      }
    }

    /** The patterns for one log line: those of the secrets and of every mask the slice holds now. */
    method PairsFor(masks: MaskSlice) returns (used: seq<Bytes>)
      requires Valid()
      modifies this
      ensures Valid() && used == Build(enc, secrets, masks.items)
      ensures masks.items != [] ==> (Value(), used) == Refresh(enc, secrets, old(Value()), masks, masks.items)
    {
      hide AppendSecretMasker, AppendFrom;
      if |masks.items| == 0 {
        return secrets;
      }
      if masksRef != Some(masks) {
        masksRef, pairs, masked, replacer := Some(masks), secrets, 0, None;
      }
      assert Agrees(enc, secrets, Value(), masks.items);
      assert masks.items[..|masks.items|] == masks.items;
      hide Build;
      if replacer == None || masked != |masks.items| {
        AppendFromBuilds(enc, secrets, masks.items, masked);
        AppendMasks(masks.items, masked);
        masked := |masks.items|;
        replacer := Some(pairs);
      }
      used := replacer.value;
    }
  }

  /** Masks appended behind the cache's back leave it valid. */
  twostate lemma GrowthKeepsValid(masker: ValueMasker)
    requires old(masker.Valid()) && unchanged(masker)
    requires masker.masksRef.Some? ==> old(masker.masksRef.value.items) <= masker.masksRef.value.items
    ensures masker.Valid()
  {
    if masker.masksRef.Some? {
      GrowthAgrees(masker.enc, masker.secrets, masker.Value(), old(masker.masksRef.value.items),
                   masker.masksRef.value.items);
    }
  }
}
