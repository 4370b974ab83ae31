/** Standard padded base64 (section 4 of RFC 4648), and the fragment of a secret's encoding that is
    the same wherever the secret stands in an encoded payload. */
module Base64 {
  import opened Basics

  const PAD: byte := 61

  /** What one character of an encoding stands for. */
  type Sextet = n: nat | n < 64

  function Digit(n: Sextet): byte {
    if n < 26 then (65 + n) as byte
    else if n < 52 then (71 + n) as byte
    else if n < 62 then (n - 4) as byte
    else if n == 62 then 43
    else 47
  }

  function Value(c: byte): Option<nat> {
    var n := c as int;
    if 65 <= n <= 90 then Some(n - 65)
    else if 97 <= n <= 122 then Some(n - 71)
    else if 48 <= n <= 57 then Some(n + 4)
    else if n == 43 then Some(62)
    else if n == 47 then Some(63)
    else None
  }

  /** Three bytes as four six-bit values. */
  function Sextets(b0: byte, b1: byte, b2: byte): (Sextet, Sextet, Sextet, Sextet) {
    (b0 as int / 4, b0 as int % 4 * 16 + b1 as int / 16, b1 as int % 16 * 4 + b2 as int / 64, b2 as int % 64)
  }

  /** Four six-bit values as three bytes. */
  function Octets(v0: nat, v1: nat, v2: nat, v3: nat): (byte, byte, byte) {
    (Low(v0 * 4 + v1 / 16), Low(v1 * 16 + v2 / 4), Low(v2 * 64 + v3))
  }

  function Low(n: nat): byte {
    (n % 256) as byte
  }

  /** One group: up to three bytes as four characters, padded. */
  function EncodeGroup(g: Bytes): (s: Bytes)
    requires 1 <= |g| <= 3
    ensures |s| == 4
  {
    var v := Sextets(g[0], if |g| > 1 then g[1] else 0, if |g| > 2 then g[2] else 0);
    [Digit(v.0), Digit(v.1), if |g| > 1 then Digit(v.2) else PAD, if |g| > 2 then Digit(v.3) else PAD]
  }

  function Encode(b: Bytes): Bytes {
    if b == [] then []
    else if |b| <= 3 then EncodeGroup(b)
    else EncodeGroup(b[..3]) + Encode(b[3..])
  }

  /** The alphabet of Table 1 of RFC 4648: capital letters, small ones, digits, plus and slash. */
  lemma DigitIsLetter(n: Sextet)
    ensures var c := Digit(n) as char;
            if n < 26 then c == 'A' + n as char
            else if n < 52 then c == 'a' + (n - 26) as char
            else if n < 62 then c == '0' + (n - 52) as char
            else c == if n == 62 then '+' else '/'
    ensures PAD as char == '='
  {
    var i := Digit(n) as int;
    assert n < 26 ==> i == 65 + n;
    assert 26 <= n < 52 ==> i == 97 + (n - 26);
    assert 52 <= n < 62 ==> i == 48 + (n - 52);
  }

  /** Sextets are the bits of the three bytes, the first ones first. */
  lemma SextetsAreBits(b0: byte, b1: byte, b2: byte)
    ensures var v := Sextets(b0, b1, b2);
            ((v.0 * 64 + v.1) * 64 + v.2) * 64 + v.3 == (b0 as int * 256 + b1 as int) * 256 + b2 as int
  {
  }

  /** Decodes one group, if it is well formed. */
  function DecodeGroup(s: Bytes): Option<Bytes>
    requires |s| == 4
  {
    match (Value(s[0]), Value(s[1]), Value(s[2]), Value(s[3]))
    case (Some(v0), Some(v1), Some(v2), Some(v3)) =>
      var b := Octets(v0, v1, v2, v3);
      Some([b.0, b.1, b.2])
    case (Some(v0), Some(v1), Some(v2), None) =>
      var b := Octets(v0, v1, v2, 0);
      if s[3] == PAD then Some([b.0, b.1]) else None
    case (Some(v0), Some(v1), None, _) =>
      var b := Octets(v0, v1, 0, 0);
      if s[2] == PAD && s[3] == PAD then Some([b.0]) else None
    case _ => None
  }

  function Decode(s: Bytes): Option<Bytes> {
    if s == [] then Some([])
    else if |s| < 4 then None
    else
      match (DecodeGroup(s[..4]), Decode(s[4..]))
      case (Some(g), Some(rest)) => Some(g + rest)
      case _ => None
  }

  lemma DigitValue(n: Sextet)
    ensures Value(Digit(n)) == Some(n) && Value(PAD) == None
  {
  }

  lemma FirstByte(b0: byte, b1: byte)
    ensures Low(b0 as int / 4 * 4 + (b0 as int % 4 * 16 + b1 as int / 16) / 16) == b0
  {
    assert (b0 as int % 4 * 16 + b1 as int / 16) / 16 == b0 as int % 4;
  }

  lemma SecondByte(b0: byte, b1: byte, b2: byte)
    ensures Low((b0 as int % 4 * 16 + b1 as int / 16) * 16 + (b1 as int % 16 * 4 + b2 as int / 64) / 4) == b1
  {
    assert (b1 as int % 16 * 4 + b2 as int / 64) / 4 == b1 as int % 16;
    var x := b0 as int % 4 * 16 + b1 as int / 16;
    assert x * 16 + b1 as int % 16 == b0 as int % 4 * 256 + b1 as int;
  }

  lemma ThirdByte(b1: byte, b2: byte)
    ensures Low((b1 as int % 16 * 4 + b2 as int / 64) * 64 + b2 as int % 64) == b2
  {
    var x := b1 as int % 16 * 4 + b2 as int / 64;
    assert x * 64 + b2 as int % 64 == b1 as int % 16 * 256 + b2 as int;
  }

  lemma OctetsOfSextets(b0: byte, b1: byte, b2: byte)
    ensures var v := Sextets(b0, b1, b2);
            && Octets(v.0, v.1, v.2, v.3) == (b0, b1, b2)
            && (b2 == 0 ==> v.3 == 0)
            && (b1 == 0 && b2 == 0 ==> v.2 == 0)
  {
    hide Low;
    FirstByte(b0, b1);
    SecondByte(b0, b1, b2);
    ThirdByte(b1, b2);
    ZeroSextets(b0, b1, b2);
  }

  lemma ZeroSextets(b0: byte, b1: byte, b2: byte)
    ensures b2 == 0 ==> b2 as int % 64 == 0
    ensures b1 == 0 && b2 == 0 ==> b1 as int % 16 * 4 + b2 as int / 64 == 0
  {
  }

  lemma DecodeEncodeGroup(g: Bytes)
    requires 1 <= |g| <= 3
    ensures DecodeGroup(EncodeGroup(g)) == Some(g)
  {
    hide Digit, Value, Sextets, Octets;
    var b1, b2 := if |g| > 1 then g[1] else 0, if |g| > 2 then g[2] else 0;
    var v := Sextets(g[0], b1, b2);
    OctetsOfSextets(g[0], b1, b2);
    DigitValue(v.0);
    DigitValue(v.1);
    DigitValue(v.2);
    DigitValue(v.3);
    var s := EncodeGroup(g);
    assert s[0] == Digit(v.0) && s[1] == Digit(v.1);
    assert s[2] == (if |g| > 1 then Digit(v.2) else PAD) && s[3] == (if |g| > 2 then Digit(v.3) else PAD);
    hide EncodeGroup;
    if |g| == 1 {
      assert DecodeGroup(s) == Some([Octets(v.0, v.1, 0, 0).0]);
      assert g == [g[0]];
    } else if |g| == 2 {
      assert DecodeGroup(s) == Some([Octets(v.0, v.1, v.2, 0).0, Octets(v.0, v.1, v.2, 0).1]);
      assert g == [g[0], g[1]];
    } else {
      assert g == [g[0], g[1], g[2]];
    }
  }

  /** Decoding inverts encoding. */
  lemma {:induction false} DecodeEncode(b: Bytes)
    ensures Decode(Encode(b)) == Some(b)
  {
    hide EncodeGroup, DecodeGroup;
    if 1 <= |b| <= 3 {
      DecodeEncodeGroup(b);
      assert Encode(b)[..4] == Encode(b) && Encode(b)[4..] == [];
      assert Decode([]) == Some([]) && b + [] == b;
    } else if |b| > 3 {
      DecodeEncodeGroup(b[..3]);
      DecodeEncode(b[3..]);
      assert Encode(b)[..4] == EncodeGroup(b[..3]) && Encode(b)[4..] == Encode(b[3..]);
      assert b[..3] + b[3..] == b;
    }
  }

  lemma {:induction false} EncodeLength(b: Bytes)
    ensures |Encode(b)| == (|b| + 2) / 3 * 4
  {
    hide EncodeGroup;
    if |b| > 3 {
      EncodeLength(b[3..]);
      assert |Encode(b)| == 4 + |Encode(b[3..])|;
      assert (|b| + 2) / 3 == 1 + (|b| - 1) / 3;
    }
  }

  /** Whole groups encode on their own. */
  lemma {:induction false} EncodeConcat(x: Bytes, y: Bytes)
    requires |x| % 3 == 0
    ensures Encode(x + y) == Encode(x) + Encode(y)
  {
    hide EncodeGroup;
    if x == [] {
      assert x + y == y;
    } else {
      var g, rest := x[..3], x[3..];
      EncodeConcat(rest, y);
      assert (x + y)[..3] == g && (x + y)[3..] == rest + y;
      assert Encode(x) == EncodeGroup(g) + Encode(rest) by {
        if rest == [] { assert x == g && EncodeGroup(g) + [] == EncodeGroup(g); }
      }
      ConcatAssociative(EncodeGroup(g), Encode(rest), Encode(y));
      if |x + y| <= 3 {
        assert y == [] && x + y == x;
      }
    }
  }

  const MIN_SHIFTED_LENGTH := 8

  /** The group-aligned middle of the encoding of v behind `shift` filler bytes, if it is long enough. */
  function ShiftEncode(shift: nat, v: Bytes): Bytes {
    var encoded := Encode(seq(shift, _ => 0 as byte) + v);
    if |encoded| < 8 + MIN_SHIFTED_LENGTH then [] else encoded[4..|encoded| - 4]
  }

  /** Which values leave a fragment, and how long it is. */
  lemma ShiftEncodeLength(shift: nat, v: Bytes)
    ensures ShiftEncode(shift, v) != [] <==> shift + |v| >= 10
    ensures shift + |v| >= 10 ==> |ShiftEncode(shift, v)| == ((shift + |v| + 2) / 3 - 2) * 4
  {
    hide Encode;
    EncodeLength(seq(shift, _ => 0 as byte) + v);
  }

  lemma EncodeSplit(b: Bytes, i: nat, j: nat)
    requires i <= j <= |b| && i % 3 == 0 && j % 3 == 0
    ensures Encode(b) == Encode(b[..i]) + Encode(b[i..j]) + Encode(b[j..])
    ensures |Encode(b[..i])| == i / 3 * 4 && |Encode(b[i..j])| == (j - i) / 3 * 4
  {
    hide Encode;
    CutInThree(b, i, j);
    EncodeConcat(b[..j], b[j..]);
    EncodeConcat(b[..i], b[i..j]);
    EncodeLength(b[..i]);
    EncodeLength(b[i..j]);
  }

  lemma CutInThree(b: Bytes, i: nat, j: nat)
    requires i <= j <= |b|
    ensures b == b[..j] + b[j..] && b[..j] == b[..i] + b[i..j]
  {
  }

  lemma SliceShift(p: Bytes, v: Bytes, q: Bytes, i: nat, j: nat)
    requires |p| <= i <= j <= |p| + |v|
    ensures (p + v + q)[i..j] == v[i - |p|..j - |p|]
  {
  }

  lemma MiddleOccurs(a: Bytes, m: Bytes, z: Bytes)
    ensures OccursAt(m, a + m + z, |a|)
  {
    MiddleOf(a, m, z);
  }

  lemma MiddleOf(a: Bytes, m: Bytes, z: Bytes)
    ensures (a + m + z)[|a|..|a| + |m|] == m
  {
  }

  /** The kept middle encodes bytes of the secret only. */
  lemma ShiftEncodeIsMiddle(shift: nat, v: Bytes) returns (n: nat)
    requires 1 <= shift <= 2 && shift + |v| >= 10
    ensures n % 3 == 0 && 6 < n < shift + |v| <= n + 3
    ensures ShiftEncode(shift, v) == Encode(v[3 - shift..n - shift])
  {
    hide Encode;
    var zeros := seq(shift, _ => 0 as byte);
    var buf := zeros + v;
    EncodeLength(buf);
    n := ((|buf| + 2) / 3 - 1) * 3;
    EncodeSplit(buf, 3, n);
    EncodeLength(buf[n..]);
    SliceShift(zeros, v, [], 3, n);
    assert zeros + v + [] == buf;
    MiddleOf(Encode(buf[..3]), Encode(buf[3..n]), Encode(buf[n..]));
  }

  lemma ShiftAligned(p: nat, shift: nat, n: nat)
    requires p % 3 == shift && n % 3 == 0 && n >= 3
    ensures (p + 3 - shift) % 3 == 0 && (p + n - shift) % 3 == 0
    ensures (p + 3 - shift) / 3 * 4 == (p - shift) / 3 * 4 + 4
  {
    var k, m := p / 3, n / 3;
    assert p + 3 - shift == 3 * (k + 1) && p + n - shift == 3 * (k + m);
  }

  /** Masking is complete: the fragment stands in the encoding of any payload that contains the secret
      at that alignment, whatever comes before and after it. */
  lemma ShiftedFragmentOccurs(shift: nat, v: Bytes, p: Bytes, q: Bytes)
    requires 1 <= shift <= 2 && |p| % 3 == shift && shift + |v| >= 10
    ensures |ShiftEncode(shift, v)| == ((shift + |v| + 2) / 3 - 2) * 4
    ensures OccursAt(ShiftEncode(shift, v), Encode(p + v + q), (|p| - shift) / 3 * 4 + 4)
  {
    hide *;
    ShiftEncodeLength(shift, v);
    var n := ShiftEncodeIsMiddle(shift, v);
    var i, j := |p| + 3 - shift, |p| + n - shift;
    ShiftAligned(|p|, shift, n);
    SliceShift(p, v, q, i, j);
    MiddleEncoded(p + v + q, i, j);
  }

  /** Whole groups of a payload are encoded where they stand. */
  lemma MiddleEncoded(w: Bytes, i: nat, j: nat)
    requires i <= j <= |w| && i % 3 == 0 && j % 3 == 0
    ensures OccursAt(Encode(w[i..j]), Encode(w), i / 3 * 4)
  {
    hide *;
    EncodeSplit(w, i, j);
    MiddleOccurs(Encode(w[..i]), Encode(w[i..j]), Encode(w[j..]));
  }

  /** Unshifted, the whole encoding of v stands in the payload's at an aligned position exactly when v
      fills its last group or ends the payload. */
  lemma AlignedFormOccurs(v: Bytes, p: Bytes, q: Bytes)
    requires |p| % 3 == 0
    ensures OccursAt(Encode(v), Encode(p + v + q), |p| / 3 * 4) <==> |v| % 3 == 0 || q == []
  {
    hide Encode;
    var k := |v| / 3 * 3;
    var h, t := v[..k], v[k..];
    assert v == h + t && p + v + q == p + (h + (t + q));
    EncodeConcat(h, t);
    EncodeConcat(p, h + (t + q));
    EncodeConcat(h, t + q);
    EncodeLength(p);
    TailOccurs(t, q);
    PrefixOccurs(Encode(p), Encode(h), Encode(t), Encode(t + q));
  }

  lemma PrefixOccurs(a: Bytes, m: Bytes, t: Bytes, z: Bytes)
    ensures OccursAt(m + t, a + (m + z), |a|) <==> t <= z
  {
    var s := a + (m + z);
    assert s[|a|..] == m + z;
    if OccursAt(m + t, s, |a|) {
      assert s[|a|..|a| + |m + t|] == (m + z)[..|m + t|];
      assert (m + t)[|m|..] == t && (m + z)[..|m + t|][|m|..] == z[..|t|];
    }
  }

  lemma TailOccurs(t: Bytes, q: Bytes)
    requires |t| < 3
    ensures Encode(t) <= Encode(t + q) <==> t == [] || q == []
  {
    if t == [] {
    } else if q == [] {
      assert t + q == t;
    } else {
      var x := t + q;
      var g := if |x| <= 3 then x else x[..3];
      assert Encode(x)[..4] == EncodeGroup(g);
      var i := |t| + 1;
      assert Encode(t)[i] == PAD;
      assert EncodeGroup(g)[i] != PAD by {
        var v := Sextets(g[0], g[1], if |g| > 2 then g[2] else 0);
        DigitValue(v.2);
        DigitValue(v.3);
      }
      assert Encode(x)[i] == EncodeGroup(g)[i];
    }
  }

  /** A payload that begins with a secret may not hold the secret's own encoding anywhere. */
  lemma AlignedFormCanBeMissing()
    ensures forall at: nat :: !OccursAt(Encode([97]), Encode([97, 98]), at)
  {
    EncodeLength([97]);
    EncodeLength([97, 98]);
    AlignedFormOccurs([97], [], [98]);
    hide Encode;
    assert [] + [97] + [98] == [97, 98];
  }
}
