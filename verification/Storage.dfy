/** The blob store of the cache server: final blobs and, per entry id, a directory of staged files. */
module Storage {
  import opened Basics

  // ---------------------------------------------------------------- file names

  /** An upload offset: Go's non-negative int64. */
  type Offset = n: nat | n < 0x8000_0000_0000_0000

  const HEX_DIGITS := "0123456789abcdef"

  /** The last `width` hexadecimal digits of n, zero padded. */
  function Hex(n: nat, width: nat): (s: string)
    ensures |s| == width
  {
    if width == 0 then "" else Hex(n / 16, width - 1) + [HEX_DIGITS[n % 16]]
  }

  /** Name of the staged file holding the part that starts at `offset` (the verb %016x). */
  function TempName(offset: Offset): (s: string) {
    Hex(offset, 16)
  }

  const BLOCK_FILE_PREFIX := "block-"

  /** A staged file: a part at an offset, or a block that is not yet ordered. */
  datatype FileName = PartFile(offset: Offset) | BlockFile(blockId: string)

  /** Stands for the hexadecimal SHA-256 of a block id, taken to be injective. */
  function Digest(blockId: string): string {
    blockId
  }

  /** The name on disk. */
  function Text(n: FileName): string {
    match n
    case PartFile(offset) => TempName(offset)
    case BlockFile(blockId) => BLOCK_FILE_PREFIX + Digest(blockId)
  }

  // ---------------------------------------------------------------- directory order

  /** Byte-wise lexicographic order, the order in which a directory is listed. */
  predicate NameLess(a: string, b: string) {
    b != "" && (a == "" || a[0] < b[0] || (a[0] == b[0] && NameLess(a[1..], b[1..])))
  }

  lemma {:induction false} NameLessIrreflexive(a: string)
    ensures !NameLess(a, a)
  {
    if a != "" {
      NameLessIrreflexive(a[1..]);
    }
  }

  lemma {:induction false} NameLessTransitive(a: string, b: string, c: string)
    requires NameLess(a, b) && NameLess(b, c)
    ensures NameLess(a, c)
  {
    if a != "" && a[0] == b[0] && b[0] == c[0] {
      NameLessTransitive(a[1..], b[1..], c[1..]);
    }
  }

  lemma {:induction false} NameLessTotal(a: string, b: string)
    ensures a == b || NameLess(a, b) || NameLess(b, a)
  {
    if a != "" && b != "" && a[0] == b[0] {
      NameLessTotal(a[1..], b[1..]);
      if a[1..] == b[1..] {
        assert a == [a[0]] + a[1..] && b == [b[0]] + b[1..];
      }
    }
  }

  // ---------------------------------------------------------------- numeric order = name order

  function Pow16(w: nat): nat {
    if w == 0 then 1 else 16 * Pow16(w - 1)
  }

  lemma {:induction false} NameLessSnoc(a: string, b: string, c: char, d: char)
    requires |a| == |b|
    ensures NameLess(a + [c], b + [d]) <==> NameLess(a, b) || (a == b && c < d)
  {
    if a == "" {
      assert a + [c] == [c] && b + [d] == [d];
    } else {
      assert (a + [c])[1..] == a[1..] + [c] && (b + [d])[1..] == b[1..] + [d];
      NameLessSnoc(a[1..], b[1..], c, d);
      if a[0] == b[0] && a[1..] == b[1..] {
        assert a == [a[0]] + a[1..] && b == [b[0]] + b[1..];
      }
    }
  }

  /** Fixed-width hexadecimal names sort as the numbers they print. */
  lemma {:induction false} HexOrder(m: nat, n: nat, w: nat)
    requires m < Pow16(w) && n < Pow16(w)
    ensures NameLess(Hex(m, w), Hex(n, w)) <==> m < n
    ensures Hex(m, w) == Hex(n, w) <==> m == n
  {
    if w > 0 {
      HexOrder(m / 16, n / 16, w - 1);
      var a, b := Hex(m / 16, w - 1), Hex(n / 16, w - 1);
      var c, d := HEX_DIGITS[m % 16], HEX_DIGITS[n % 16];
      DigitOrder(m % 16, n % 16);
      NameLessSnoc(a, b, c, d);
      assert a + [c] == b + [d] <==> a == b && c == d by {
        assert (a + [c])[..|a|] == a && (b + [d])[..|b|] == b;
        assert (a + [c])[|a|] == c && (b + [d])[|b|] == d;
      }
    }
  }

  lemma DigitOrder(c: nat, d: nat)
    requires c < 16 && d < 16
    ensures HEX_DIGITS[c] < HEX_DIGITS[d] <==> c < d
    ensures HEX_DIGITS[c] == HEX_DIGITS[d] <==> c == d
  {
  }

  lemma Pow16Large()
    ensures Pow16(16) == 0x1_0000_0000_0000_0000
  {
    assert Pow16(4) == 0x1_0000;
    assert Pow16(8) == 0x1_0000_0000 by { assert Pow16(6) == 0x100_0000; }
    assert Pow16(12) == 0x1_0000_0000_0000 by { assert Pow16(10) == 0x100_0000_0000; }
    assert Pow16(14) == 0x100_0000_0000_0000;
  }

  lemma {:induction false} HexCharacters(n: nat, w: nat, i: nat)
    requires i < w
    ensures Hex(n, w)[i] in HEX_DIGITS
  {
    if i < w - 1 {
      HexCharacters(n / 16, w - 1, i);
    }
  }

  lemma TempNameOrder(m: Offset, n: Offset)
    ensures NameLess(TempName(m), TempName(n)) <==> m < n
    ensures TempName(m) == TempName(n) <==> m == n
  {
    Pow16Large();
    HexOrder(m, n, 16);
  }

  /** The prefix tells a block from a part, so no part name is ever the name of a block. */
  lemma PrefixMarksBlocks(n: FileName)
    ensures BLOCK_FILE_PREFIX <= Text(n) <==> n.BlockFile?
  {
    if n.PartFile? {
      HexCharacters(n.offset, 16, 1);
      assert BLOCK_FILE_PREFIX[1] == 'l';
    }
  }

  lemma TextInjective(a: FileName, b: FileName)
    ensures Text(a) == Text(b) ==> a == b
  {
    PrefixMarksBlocks(a);
    PrefixMarksBlocks(b);
    if a.PartFile? && b.PartFile? {
      TempNameOrder(a.offset, b.offset);
    } else if a.BlockFile? && b.BlockFile? {
      assert Text(a)[|BLOCK_FILE_PREFIX|..] == a.blockId && Text(b)[|BLOCK_FILE_PREFIX|..] == b.blockId;
    }
  }

  // ---------------------------------------------------------------- listings

  predicate Before(a: FileName, b: FileName) {
    NameLess(Text(a), Text(b))
  }

  /** n is the first of the names in s. */
  predicate IsFirst(n: FileName, s: set<FileName>) {
    n in s && forall m | m in s :: m != n ==> Before(n, m)
  }

  lemma {:induction false} FirstExists(s: set<FileName>)
    requires s != {}
    ensures exists n :: IsFirst(n, s)
  {
    hide NameLess, Text;
    var x :| x in s;
    if s == {x} {
      assert IsFirst(x, s);
    } else {
      FirstExists(s - {x});
      var y :| IsFirst(y, s - {x});
      NameLessTotal(Text(x), Text(y));
      TextInjective(x, y);
      if Before(y, x) {
        assert IsFirst(y, s);
      } else {
        forall m | m in s && m != x ensures Before(x, m) {
          assert m in s - {x};
          if m != y { NameLessTransitive(Text(x), Text(y), Text(m)); }
        }
        assert IsFirst(x, s);
      }
    }
  }

  lemma FirstUnique(s: set<FileName>, a: FileName, b: FileName)
    requires IsFirst(a, s) && IsFirst(b, s)
    ensures a == b
  {
    if a != b {
      NameLessTransitive(Text(a), Text(b), Text(a));
      NameLessIrreflexive(Text(a));
    }
  }

  function First(s: set<FileName>): (n: FileName)
    requires s != {}
    ensures IsFirst(n, s)
  {
    FirstExists(s);
    assert forall a, b | IsFirst(a, s) && IsFirst(b, s) :: a == b by {
      forall a, b | IsFirst(a, s) && IsFirst(b, s) ensures a == b { FirstUnique(s, a, b); }
    }
    var n :| n in s && IsFirst(n, s);
    n
  }

  /** The names of a directory in listing order. */
  function Listing(s: set<FileName>): (xs: seq<FileName>)
    ensures forall n :: n in xs <==> n in s
    decreases |s|
  {
    if s == {} then [] else
      var n := First(s);
      [n] + Listing(s - {n})
  }

  /** A listing is sorted by name and repeats nothing. */
  lemma {:induction false} ListingSorted(s: set<FileName>, i: nat, j: nat)
    requires i < j < |Listing(s)|
    ensures Before(Listing(s)[i], Listing(s)[j])
    decreases |s|
  {
    hide NameLess, Text;
    var n := First(s);
    var rest := Listing(s - {n});
    if i == 0 {
      assert Listing(s)[j] == rest[j - 1];
      assert rest[j - 1] in s - {n};
    } else {
      ListingSorted(s - {n}, i - 1, j - 1);
    }
  }

  // ---------------------------------------------------------------- the disk and its operations

  /** A directory of staged files. */
  type Dir = map<FileName, Bytes>

  /** Final blobs, and the staging directories that exist. */
  datatype Disk = Disk(blobs: map<nat, Bytes>, tmp: map<nat, Dir>)

  datatype CommitError = NothingUploaded | BrokenFile

  /** The staged files commit uses: those whose name lacks the block prefix, in listing order. */
  function PartNames(d: Dir): (names: seq<FileName>)
    ensures forall n :: n in names <==> n in d && n.PartFile?
  {
    assert forall n | n in d :: BLOCK_FILE_PREFIX <= Text(n) <==> n.BlockFile? by {
      forall n | n in d ensures BLOCK_FILE_PREFIX <= Text(n) <==> n.BlockFile? { PrefixMarksBlocks(n); }
    }
    Listing(set n | n in d && !(BLOCK_FILE_PREFIX <= Text(n)))
  }

  function Join(d: Dir, names: seq<FileName>): Bytes
    requires forall n | n in names :: n in d
  {
    if names == [] then [] else d[names[0]] + Join(d, names[1..])
  }

  function WithFile(disk: Disk, id: nat, name: FileName, body: Bytes): Disk {
    var d := if id in disk.tmp then disk.tmp[id] else map[];
    disk.(tmp := disk.tmp[id := d[name := body]])
  }

  function Rename(d: Dir, from: FileName, to: FileName): Option<Dir> {
    if from in d then Some((d - {from})[to := d[from]]) else None
  }

  /** Renames the listed blocks to the part names i, i+1, ... and stops at one that is not staged. */
  function OrderFrom(d: Dir, blockIds: seq<string>, i: nat): (Dir, bool)
    requires i + |blockIds| < 0x8000_0000_0000_0000
    decreases |blockIds|
  {
    if blockIds == [] then (d, true) else
      match Rename(d, BlockFile(blockIds[0]), PartFile(i))
      case None => (d, false)
      case Some(d') => OrderFrom(d', blockIds[1..], i + 1)
  }

  function WithBlocksOrdered(disk: Disk, id: nat, blockIds: seq<string>): (Disk, bool)
    requires |blockIds| < 0x8000_0000_0000_0000
  {
    if id in disk.tmp then
      var (d, ok) := OrderFrom(disk.tmp[id], blockIds, 0);
      (disk.(tmp := disk.tmp[id := d]), ok)
    else
      (disk, blockIds == [])
  }

  /** What commit concatenates. */
  function Assembled(d: Dir): Bytes {
    Join(d, PartNames(d))
  }

  /** Assembles the ordered parts into the final blob; a negative size is an unknown one. */
  function Committed(disk: Disk, id: nat, size: int): (Disk, Result<nat, CommitError>) {
    if id !in disk.tmp then
      (disk, Err(NothingUploaded))
    else
      var blob := Assembled(disk.tmp[id]);
      var cleaned := disk.tmp - {id};
      if size >= 0 && |blob| != size then
        (Disk(disk.blobs - {id}, cleaned), Err(BrokenFile))
      else
        (Disk(disk.blobs[id := blob], cleaned), Ok(|blob|))
  }

  function Without(disk: Disk, id: nat): Disk {
    Disk(disk.blobs - {id}, disk.tmp - {id})
  }

  // ---------------------------------------------------------------- assembly in numeric order

  ghost predicate IsLeast(o: Offset, s: set<Offset>) {
    o in s && forall x | x in s :: o <= x
  }

  lemma {:induction false} LeastExists(s: set<Offset>)
    requires s != {}
    ensures exists o :: IsLeast(o, s)
  {
    var x :| x in s;
    if s == {x} {
      assert IsLeast(x, s);
    } else {
      LeastExists(s - {x});
      var y :| IsLeast(y, s - {x});
      if x < y {
        assert IsLeast(x, s) by {
          forall w | w in s ensures x <= w { if w != x { assert w in s - {x}; } }
        }
      } else {
        assert IsLeast(y, s) by {
          forall w | w in s ensures y <= w { if w != x { assert w in s - {x}; } }
        }
      }
    }
  }

  ghost function Least(s: set<Offset>): (o: Offset)
    requires s != {}
    ensures IsLeast(o, s)
  {
    LeastExists(s);
    var o :| IsLeast(o, s);
    o
  }

  /** The parts of d with offsets in s, concatenated by increasing offset. */
  ghost function InOrder(d: Dir, s: set<Offset>): Bytes
    requires forall o | o in s :: PartFile(o) in d
    decreases |s|
  {
    if s == {} then [] else d[PartFile(Least(s))] + InOrder(d, s - {Least(s)})
  }

  /** The offsets from i on at which d has an ordered part. */
  ghost function OffsetsFrom(d: Dir, i: nat): (s: set<Offset>)
    ensures forall o: Offset :: o in s <==> PartFile(o) in d && o >= i
  {
    assert forall o: Offset | PartFile(o) in d :: PartFile(o).offset == o;
    set n | n in d && n.PartFile? && n.offset >= i :: n.offset
  }

  lemma {:induction false} JoinIsInOrder(d: Dir, s: set<Offset>)
    requires forall o | o in s :: PartFile(o) in d
    ensures var names := set o | o in s :: PartFile(o);
            Join(d, Listing(names)) == InOrder(d, s)
    decreases |s|
  {
    hide TempName, NameLess;
    var names := set o | o in s :: PartFile(o);
    if s == {} {
      assert names == {};
    } else {
      var o := Least(s);
      assert IsFirst(PartFile(o), names) by {
        forall n | n in names && n != PartFile(o) ensures Before(PartFile(o), n) {
          TempNameOrder(o, n.offset);
        }
      }
      FirstUnique(names, First(names), PartFile(o));
      assert names - {PartFile(o)} == set x | x in s - {o} :: PartFile(x);
      JoinIsInOrder(d, s - {o});
    }
  }

  /** Commit assembles the parts in numeric order of offset and leaves staged blocks out. */
  lemma AssembledInOrder(d: Dir)
    ensures Assembled(d) == InOrder(d, OffsetsFrom(d, 0))
  {
    hide TempName, NameLess;
    JoinIsInOrder(d, OffsetsFrom(d, 0));
    forall n | n in d ensures BLOCK_FILE_PREFIX <= Text(n) <==> n.BlockFile? { PrefixMarksBlocks(n); }
    assert (set n | n in d && !(BLOCK_FILE_PREFIX <= Text(n))) == set o | o in OffsetsFrom(d, 0) :: PartFile(o);
  }

  // ---------------------------------------------------------------- v1: parts in any order

  /** One upload request: a body and the offset it starts at. */
  datatype Part = Part(start: Offset, body: Bytes)

  /** The directory d after the uploads: for each offset, the last body sent. */
  function Uploaded(d: Dir, ups: seq<Part>): Dir
    decreases |ups|
  {
    if ups == [] then d else Uploaded(d[PartFile(ups[0].start) := ups[0].body], ups[1..])
  }

  function WithParts(disk: Disk, id: nat, ups: seq<Part>): Disk
    decreases |ups|
  {
    if ups == [] then disk else
      WithParts(WithFile(disk, id, PartFile(ups[0].start), ups[0].body), id, ups[1..])
  }

  lemma {:induction false} WithPartsDir(disk: Disk, id: nat, ups: seq<Part>)
    requires id in disk.tmp
    ensures WithParts(disk, id, ups) == disk.(tmp := disk.tmp[id := Uploaded(disk.tmp[id], ups)])
    decreases |ups|
  {
    if ups == [] {
      assert disk.tmp[id := disk.tmp[id]] == disk.tmp;
    } else {
      WithPartsDir(WithFile(disk, id, PartFile(ups[0].start), ups[0].body), id, ups[1..]);
    }
  }

  /** The part at offset o holds byte i. */
  ghost predicate Covers(d: Dir, o: Offset, i: nat) {
    PartFile(o) in d && o <= i < o + |d[PartFile(o)]|
  }

  ghost predicate Covered(d: Dir, i: nat) {
    exists o :: Covers(d, o, i)
  }

  ghost predicate IsPiece(A: Bytes, o: nat, body: Bytes) {
    o + |body| <= |A| && A[o..o + |body|] == body
  }

  /** The parts are pieces of A, every byte of A is in one, and no two overlap. */
  ghost predicate Partitions(d: Dir, A: Bytes) {
    && (forall o: Offset | PartFile(o) in d :: IsPiece(A, o, d[PartFile(o)]))
    && (forall i | 0 <= i < |A| :: Covered(d, i))
    && (forall o1: Offset, o2: Offset | PartFile(o1) in d && PartFile(o2) in d && o1 < o2 && d[PartFile(o2)] != [] ::
          o1 + |d[PartFile(o1)]| <= o2)
  }

  /** Every byte below e is behind us, and every part in s with bytes starts at e or later. */
  ghost predicate Frontier(d: Dir, s: set<Offset>, e: nat) {
    && (forall o | o in s :: PartFile(o) in d)
    && (forall o: Offset | PartFile(o) in d && o !in s && d[PartFile(o)] != [] :: o + |d[PartFile(o)]| <= e)
    && (forall o | o in s && d[PartFile(o)] != [] :: e <= o)
  }

  lemma FrontierAdvances(d: Dir, A: Bytes, s: set<Offset>, e: nat, o: Offset)
    requires Partitions(d, A) && Frontier(d, s, e) && IsLeast(o, s)
    ensures var body := d[PartFile(o)];
            && Frontier(d, s - {o}, e + |body|)
            && (body != [] ==> o == e && IsPiece(A, e, body))
  {
    var body := d[PartFile(o)];
    assert IsPiece(A, o, body);
    if body != [] {
      assert Covered(d, e);
      var x :| Covers(d, x, e);
      assert x in s && o <= x;
    }
  }

  lemma FrontierEnds(d: Dir, A: Bytes, e: nat)
    requires Partitions(d, A) && Frontier(d, {}, e) && e <= |A|
    ensures e == |A|
  {
    assert e < |A| ==> Covered(d, e);
  }

  lemma {:induction false} PartitionInOrder(d: Dir, A: Bytes, s: set<Offset>, e: nat)
    requires Partitions(d, A) && Frontier(d, s, e) && e <= |A|
    ensures InOrder(d, s) == A[e..]
    decreases |s|
  {
    if s == {} {
      FrontierEnds(d, A, e);
    } else {
      var o := Least(s);
      var body := d[PartFile(o)];
      FrontierAdvances(d, A, s, e, o);
      assert InOrder(d, s) == body + InOrder(d, s - {o});
      hide *;
      PartitionInOrder(d, A, s - {o}, e + |body|);
      assert A[e..] == body + A[e + |body|..] by {
        if body != [] { PieceThenRest(A, e, body); }
      }
    }
  }

  lemma PieceThenRest(A: Bytes, e: nat, body: Bytes)
    requires IsPiece(A, e, body)
    ensures A[e..] == body + A[e + |body|..]
  {
    SplitAt(A, e, e + |body|);
  }

  lemma PartitionAssembles(d: Dir, A: Bytes)
    requires Partitions(d, A)
    ensures Assembled(d) == A
  {
    AssembledInOrder(d);
    PartitionInOrder(d, A, OffsetsFrom(d, 0), 0);
  }

  /** Parts uploaded in any order, with retries, reassemble to the archive they partition. */
  lemma ReassemblyIsOrderIndependent(disk: Disk, id: nat, ups: seq<Part>, A: Bytes, size: int)
    requires ups != [] && id !in disk.tmp
    requires Partitions(Uploaded(map[], ups), A)
    ensures Committed(WithParts(disk, id, ups), id, size) ==
            if size < 0 || size == |A| then (Disk(disk.blobs[id := A], disk.tmp), Ok(|A|))
            else (Disk(disk.blobs - {id}, disk.tmp), Err(BrokenFile))
  {
    var d := Uploaded(map[], ups);
    assert WithParts(disk, id, ups) == disk.(tmp := disk.tmp[id := d]) by {
      WithPartsDir(WithFile(disk, id, PartFile(ups[0].start), ups[0].body), id, ups[1..]);
    }
    PartitionAssembles(d, A);
    hide Uploaded, WithParts, Assembled;
    assert disk.tmp[id := d] - {id} == disk.tmp;
  }

  // ---------------------------------------------------------------- v2: block lists

  ghost predicate AllStaged(d: Dir, blockIds: seq<string>) {
    forall k | k in blockIds :: BlockFile(k) in d
  }

  /** The bodies of the listed blocks, in list order. */
  ghost function BlockBytes(d: Dir, blockIds: seq<string>): Bytes
    requires AllStaged(d, blockIds)
  {
    if blockIds == [] then [] else d[BlockFile(blockIds[0])] + BlockBytes(d, blockIds[1..])
  }

  /** The rename pass succeeds exactly on a list of distinct staged blocks. */
  lemma {:induction false} OrderSucceeds(d: Dir, blockIds: seq<string>, i: nat)
    requires i + |blockIds| < 0x8000_0000_0000_0000
    ensures OrderFrom(d, blockIds, i).1 <==> Distinct(blockIds) && AllStaged(d, blockIds)
    decreases |blockIds|
  {
    if blockIds != [] {
      var k, rest := blockIds[0], blockIds[1..];
      assert blockIds == [k] + rest;
      if BlockFile(k) in d {
        var d' := (d - {BlockFile(k)})[PartFile(i) := d[BlockFile(k)]];
        OrderSucceeds(d', rest, i + 1);
        DistinctCons(blockIds);
        hide Distinct, OrderFrom;
        if k !in rest {
          assert AllStaged(d', rest) <==> AllStaged(d, rest);
        } else {
          assert !AllStaged(d', rest);
        }
      }
    }
  }

  /** From d to d', part i+j becomes block j, the listed blocks are gone, and every other file is as it
      was. */
  ghost predicate Moved(d: Dir, d': Dir, blockIds: seq<string>, i: nat)
    requires AllStaged(d, blockIds)
  {
    && (forall o: Offset | i <= o < i + |blockIds| ::
          PartFile(o) in d' && d'[PartFile(o)] == d[BlockFile(blockIds[o - i])])
    && (forall k | k in blockIds :: BlockFile(k) !in d')
    && (forall n: FileName | n.PartFile? && !(i <= n.offset < i + |blockIds|) ::
          (n in d' <==> n in d) && (n in d ==> d'[n] == d[n]))
    && (forall n: FileName | n.BlockFile? && n.blockId !in blockIds ::
          (n in d' <==> n in d) && (n in d ==> d'[n] == d[n]))
  }

  /** What the pass moves, and what it leaves alone: part i+j becomes block j, the listed blocks are
      gone, and every other file is as it was. */
  lemma {:induction false} OrderMoves(d: Dir, blockIds: seq<string>, i: nat)
    requires i + |blockIds| < 0x8000_0000_0000_0000
    requires Distinct(blockIds) && AllStaged(d, blockIds)
    ensures Moved(d, OrderFrom(d, blockIds, i).0, blockIds, i)
    decreases |blockIds|
  {
    if blockIds != [] {
      var k, rest := blockIds[0], blockIds[1..];
      var d1 := (d - {BlockFile(k)})[PartFile(i) := d[BlockFile(k)]];
      DistinctCons(blockIds);
      assert blockIds == [k] + rest;
      assert AllStaged(d1, rest);
      hide Distinct, Moved;
      OrderMoves(d1, rest, i + 1);
      MovedCons(d, OrderFrom(d, blockIds, i).0, blockIds, i);
    }
  }

  lemma MovedCons(d: Dir, d': Dir, blockIds: seq<string>, i: nat)
    requires blockIds != [] && i + |blockIds| < 0x8000_0000_0000_0000 && AllStaged(d, blockIds)
    requires blockIds[0] in blockIds && blockIds[0] !in blockIds[1..]
    requires var d1 := (d - {BlockFile(blockIds[0])})[PartFile(i) := d[BlockFile(blockIds[0])]];
             AllStaged(d1, blockIds[1..]) && Moved(d1, d', blockIds[1..], i + 1)
    ensures Moved(d, d', blockIds, i)
  {
    var k, rest := blockIds[0], blockIds[1..];
    assert blockIds == [k] + rest;
    forall o: Offset | i <= o < i + |blockIds|
      ensures PartFile(o) in d' && d'[PartFile(o)] == d[BlockFile(blockIds[o - i])]
    {
      if o > i {
        assert blockIds[o - i] == rest[o - (i + 1)];
        assert rest[o - (i + 1)] in rest;
      }
    }
  }

  lemma {:induction false} InOrderFrame(d: Dir, d': Dir, s: set<Offset>)
    requires forall o | o in s :: PartFile(o) in d && PartFile(o) in d' && d[PartFile(o)] == d'[PartFile(o)]
    ensures InOrder(d, s) == InOrder(d', s)
    decreases |s|
  {
    if s != {} {
      InOrderFrame(d, d', s - {Least(s)});
    }
  }

  /** A directory whose parts from i on are the listed blocks of d followed by d's own parts. */
  ghost predicate Ordered(d: Dir, d': Dir, blockIds: seq<string>, i: nat) {
    && AllStaged(d, blockIds)
    && (forall o: Offset | i <= o < i + |blockIds| ::
          PartFile(o) in d' && d'[PartFile(o)] == d[BlockFile(blockIds[o - i])])
    && (forall o: Offset | o >= i + |blockIds| ::
          (PartFile(o) in d' <==> PartFile(o) in d) && (PartFile(o) in d ==> d'[PartFile(o)] == d[PartFile(o)]))
  }

  lemma OrderedStep(d: Dir, d': Dir, blockIds: seq<string>, i: nat)
    requires blockIds != [] && i + |blockIds| < 0x8000_0000_0000_0000
    requires Ordered(d, d', blockIds, i)
    ensures Ordered(d, d', blockIds[1..], i + 1)
    ensures IsLeast(i, OffsetsFrom(d', i)) && OffsetsFrom(d', i) - {i} == OffsetsFrom(d', i + 1)
    ensures d'[PartFile(i)] == d[BlockFile(blockIds[0])]
  {
    assert blockIds == [blockIds[0]] + blockIds[1..];
    var first: Offset := i;
    assert PartFile(first) in d';
    assert first in OffsetsFrom(d', i);
  }

  lemma {:induction false} OrderedInOrder(d: Dir, d': Dir, blockIds: seq<string>, i: nat)
    requires i + |blockIds| < 0x8000_0000_0000_0000
    requires Ordered(d, d', blockIds, i)
    ensures InOrder(d', OffsetsFrom(d', i)) == BlockBytes(d, blockIds) + InOrder(d, OffsetsFrom(d, i + |blockIds|))
    decreases |blockIds|
  {
    hide OffsetsFrom, Least, OrderFrom;
    if blockIds == [] {
      assert OffsetsFrom(d', i) == OffsetsFrom(d, i);
      InOrderFrame(d, d', OffsetsFrom(d, i));
    } else {
      var x, y := d[BlockFile(blockIds[0])], BlockBytes(d, blockIds[1..]);
      var rest := InOrder(d, OffsetsFrom(d, i + |blockIds|));
      OrderedStep(d, d', blockIds, i);
      assert BlockBytes(d, blockIds) == x + y;
      hide *;
      OrderedInOrder(d, d', blockIds[1..], i + 1);
      ConcatAssociative(x, y, rest);
    }
  }

  /** A block list on any directory: commit yields the listed blocks in list order, then whatever
      ordered parts lay beyond them. No unlisted block is used. */
  lemma BlockListCommit(d: Dir, blockIds: seq<string>)
    requires |blockIds| < 0x8000_0000_0000_0000
    requires Distinct(blockIds) && AllStaged(d, blockIds)
    ensures OrderFrom(d, blockIds, 0).1
    ensures Assembled(OrderFrom(d, blockIds, 0).0) ==
            BlockBytes(d, blockIds) + InOrder(d, OffsetsFrom(d, |blockIds|))
  {
    var d' := OrderFrom(d, blockIds, 0).0;
    OrderSucceeds(d, blockIds, 0);
    OrderMoves(d, blockIds, 0);
    assert Ordered(d, d', blockIds, 0);
    AssembledInOrder(d');
    OrderedInOrder(d, d', blockIds, 0);
  }

  /** No byte is left in a part at or beyond n. */
  predicate NoneBeyond(d: Dir, n: nat) {
    forall o: Offset | PartFile(o) in d && o >= n :: d[PartFile(o)] == []
  }

  /** What becomes of a block list: the listed blocks with what is left in parts beyond them, or nothing
      when that is not of the declared size. So it is committed as its concatenation exactly when no byte
      is left beyond it and its size is declared or unknown. */
  lemma BlockListIsConcatenation(disk: Disk, id: nat, blockIds: seq<string>, size: int)
    requires |blockIds| < 0x8000_0000_0000_0000
    requires id in disk.tmp
    requires Distinct(blockIds) && AllStaged(disk.tmp[id], blockIds)
    ensures var d := disk.tmp[id];
            var (ordered, ok) := WithBlocksOrdered(disk, id, blockIds);
            var listed := BlockBytes(d, blockIds);
            var written := listed + InOrder(d, OffsetsFrom(d, |blockIds|));
            && ok
            && Committed(ordered, id, size) ==
               (if size < 0 || size == |written|
                then (Disk(disk.blobs[id := written], disk.tmp - {id}), Ok(|written|))
                else (Disk(disk.blobs - {id}, disk.tmp - {id}), Err(BrokenFile)))
            && (Committed(ordered, id, size) ==
                  (Disk(disk.blobs[id := listed], disk.tmp - {id}), Ok(|listed|))
                <==> (size < 0 || size == |listed|) && NoneBeyond(d, |blockIds|))
  {
    hide Assembled, OrderFrom, BlockBytes, InOrder;
    var d := disk.tmp[id];
    BlockListCommit(d, blockIds);
    var (d', ok) := OrderFrom(d, blockIds, 0);
    assert disk.tmp[id := d'] - {id} == disk.tmp - {id};
    var B, rest := BlockBytes(d, blockIds), InOrder(d, OffsetsFrom(d, |blockIds|));
    InOrderEmpty(d, OffsetsFrom(d, |blockIds|));
    assert NoneBeyond(d, |blockIds|) <==> rest == [];
    assert |B + rest| == |B| + |rest|;
    if rest == [] {
      assert B + rest == B;
    } else if size < 0 || size == |B + rest| {
      assert disk.blobs[id := B + rest][id] == B + rest;
      assert disk.blobs[id := B][id] == B;
    }
  }

  lemma {:induction false} InOrderEmpty(d: Dir, s: set<Offset>)
    requires forall o | o in s :: PartFile(o) in d
    ensures InOrder(d, s) == [] <==> forall o | o in s :: d[PartFile(o)] == []
    decreases |s|
  {
    if s != {} {
      InOrderEmpty(d, s - {Least(s)});
    }
  }

  // ---------------------------------------------------------------- the storage object

  lemma WithoutLast<T>(m: map<nat, T>, id: nat, v: T)
    ensures m[id := v] - {id} == m - {id}
  {
  }

  /** The storage: operations that write, rename and delete files in place. */
  class BlobStore {
    var blobs: map<nat, Bytes>
    var tmp: map<nat, Dir>

    constructor ()
      ensures Value() == Disk(map[], map[])
    {
      blobs, tmp := map[], map[];
    }

    function Value(): Disk
      reads this
    {
      Disk(blobs, tmp)
    }

    method Exist(id: nat) returns (ok: bool)
      ensures ok <==> id in Value().blobs
    {
      ok := id in blobs;
    }

    method WriteFile(id: nat, name: FileName, body: Bytes)
      modifies this
      ensures Value() == WithFile(old(Value()), id, name, body)
    {
      if id !in tmp {
        tmp := tmp[id := map[]];
      }
      tmp := tmp[id := tmp[id][name := body]];
    }

    method Write(id: nat, offset: Offset, body: Bytes)
      modifies this
      ensures Value() == WithFile(old(Value()), id, PartFile(offset), body)
    {
      WriteFile(id, PartFile(offset), body);
    }

    method WriteBlock(id: nat, blockId: string, body: Bytes)
      modifies this
      ensures Value() == WithFile(old(Value()), id, BlockFile(blockId), body)
    {
      WriteFile(id, BlockFile(blockId), body);
    }

    method RenameFile(id: nat, from: FileName, to: FileName) returns (ok: bool)
      modifies this
      ensures blobs == old(blobs)
      ensures ok <==> id in old(tmp) && from in old(tmp)[id]
      ensures tmp == if ok then old(tmp)[id := Rename(old(tmp)[id], from, to).value] else old(tmp)
    {
      ok := id in tmp && from in tmp[id];
      if ok {
        tmp := tmp[id := (tmp[id] - {from})[to := tmp[id][from]]];
      }
    }

    method OrderBlocks(id: nat, blockIds: seq<string>) returns (ok: bool)
      requires |blockIds| < 0x8000_0000_0000_0000
      modifies this
      ensures (Value(), ok) == WithBlocksOrdered(old(Value()), id, blockIds)
    {
      for i := 0 to |blockIds|
        invariant blobs == old(blobs)
        invariant id !in old(tmp) ==> i == 0 && tmp == old(tmp)
        invariant id in old(tmp) ==>
                    id in tmp && tmp == old(tmp)[id := tmp[id]] &&
                    OrderFrom(tmp[id], blockIds[i..], i) == OrderFrom(old(tmp)[id], blockIds, 0)
      {
        assert blockIds[i..][1..] == blockIds[i + 1..];
        ok := RenameFile(id, BlockFile(blockIds[i]), PartFile(i));
        if !ok {
          return;
        }
      }
      ok := true;
    }

    /** Concatenates the named parts into the final blob; a single part is moved instead. */
    method Assemble(id: nat, names: seq<FileName>) returns (written: nat)
      requires id in tmp && forall n | n in names :: n in tmp[id]
      modifies this
      ensures blobs == old(blobs)[id := Join(old(tmp)[id], names)]
      ensures written == |Join(old(tmp)[id], names)|
      ensures id in tmp && tmp == old(tmp)[id := tmp[id]]
    {
      if |names| == 1 {
        assert Join(tmp[id], names) == tmp[id][names[0]] + Join(tmp[id], names[1..]) == tmp[id][names[0]];
        written := |tmp[id][names[0]]|;
        blobs := blobs[id := tmp[id][names[0]]];
        tmp := tmp[id := tmp[id] - {names[0]}];
        return;
      }
      blobs := blobs[id := []];
      written := 0;
      for i := 0 to |names|
        invariant tmp == old(tmp)
        invariant id in blobs && blobs == old(blobs)[id := blobs[id]]
        invariant written == |blobs[id]|
        invariant blobs[id] + Join(tmp[id], names[i..]) == Join(tmp[id], names)
      {
        var part := tmp[id][names[i]];
        assert names[i..][1..] == names[i + 1..];
        ConcatAssociative(blobs[id], part, Join(tmp[id], names[i + 1..]));
        blobs := blobs[id := blobs[id] + part];
        written := written + |part|;
      }
      assert names[|names|..] == [] && blobs[id] == Join(tmp[id], names);
    }

    method Commit(id: nat, size: int) returns (r: Result<nat, CommitError>)
      modifies this
      ensures (Value(), r) == Committed(old(Value()), id, size)
    {
      if id !in tmp {
        return Err(NothingUploaded);
      }
      hide Join, PartNames;
      var written := Assemble(id, PartNames(tmp[id]));
      if size >= 0 && written != size {
        WithoutLast(old(blobs), id, blobs[id]);
        blobs := blobs - {id};
        r := Err(BrokenFile);
      } else {
        r := Ok(written);
      }
      WithoutLast(old(tmp), id, tmp[id]);
      tmp := tmp - {id};
    }

    method Remove(id: nat)
      modifies this
      ensures Value() == Without(old(Value()), id)
    {
      blobs := blobs - {id};
      tmp := tmp - {id};
    }
  }
}
