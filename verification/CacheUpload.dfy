/** From a reservation to the blob that is served: what is uploaded is what is downloaded, whatever
    other requests run in between. */
module CacheUpload {
  import opened Basics
  import opened Storage
  import opened CacheModel
  import opened CacheInvariant
  import opened CacheIsolation

  function DirAt(s: Store, id: nat): Dir {
    if id in s.disk.tmp then s.disk.tmp[id] else map[]
  }

  function DirOf(slot: Slot): Dir {
    if slot.dir.Some? then slot.dir.value else map[]
  }

  /** The effect of an event on the staged files of an open reservation of `repo`. */
  function Staged(d: Dir, e: Event, id: nat, repo: string): Dir {
    match e.req
    case Upload(r, i, Some(start), body) => if i == id && r == repo then d[PartFile(start) := body] else d
    case PutBlob(i, body) => if i == id then d[PartFile(0) := body] else d
    case PutBlock(i, blockId, body) => if i == id && blockId != "" then d[BlockFile(blockId) := body] else d
    case PutBlockList(i, Some(ids)) =>
      if i == id && |ids| < 0x8000_0000_0000_0000 then OrderFrom(d, ids, 0).0 else d
    case _ => d
  }

  function StagedBy(d: Dir, run: seq<Event>, id: nat, repo: string): Dir
    decreases |run|
  {
    if run == [] then d else StagedBy(Staged(d, run[0], id, repo), run[1..], id, repo)
  }

  /** The event does not try to complete the entry. */
  predicate LeavesOpen(e: Event, id: nat, repo: string) {
    && !(e.req.Commit? && e.req.id == id && e.req.repo == repo)
    && !(e.req.Finalize? && e.pick == Some(id))
  }

  /** id is a reservation of repo that is being uploaded to, with this declared size. */
  ghost predicate IsOpen(s: Store, id: nat, repo: string, size: int) {
    id in s.table && !s.table[id].complete && s.table[id].repo == repo && s.table[id].size == size
  }

  lemma SweptOrSame(s: Store, ids: set<nat>, id: nat)
    requires id in Sweep(s, ids).table
    ensures SlotAt(Sweep(s, ids), id) == SlotAt(s, id)
  {
  }

  lemma CollectedOrSame(s: Store, now: int, keep: set<nat>, id: nat)
    requires id in Collected(s, now, keep).table
    ensures SlotAt(Collected(s, now, keep), id) == SlotAt(s, id)
  {
    var s1 := Sweep(s, Abandoned(s.table, now));
    var s2 := Sweep(s1, Unused(s1.table, now));
    var s3 := Sweep(s2, TooOld(s2.table, now));
    SweptOrSame(s, Abandoned(s.table, now), id);
    SweptOrSame(s1, Unused(s1.table, now), id);
    SweptOrSame(s2, TooOld(s2.table, now), id);
    SweptOrSame(s3, Superseded(s3.table, now, keep), id);
  }

  lemma SlotOfOpen(s: Store, id: nat)
    ensures SlotAt(s, id).entry.Some? <==> id in s.table
    ensures id in s.table ==> SlotAt(s, id).entry.value == s.table[id].(id := 0)
    ensures DirAt(s, id) == DirOf(SlotAt(s, id))
  {
  }

  /** One event between reservation and commit, whoever sends it. */
  lemma OpenStep(s: Store, e: Event, id: nat, repo: string, size: int)
    requires Inv(s) && Legal(s, e) && IsOpen(s, id, repo, size) && LeavesOpen(e, id, repo)
    requires id in Apply(s, e).0.table
    ensures IsOpen(Apply(s, e).0, id, repo, size)
    ensures DirAt(Apply(s, e).0, id) == Staged(DirAt(s, id), e, id, repo)
  {
    var s' := Apply(s, e).0;
    SlotOfOpen(s, id);
    SlotOfOpen(s', id);
    if Target(e).Some? {
      TargetedStep(s, e, Target(e).value);
      if e.req.Find? { FindsEligible(s.table, e.req.repo, e.req.keys, e.req.version, e.pick.value); }
      TargetedOpenStep(s, e, id, repo, size);
    } else if e.req.Reserve? || e.req.Create? {
      assert id in s.owner;
      InsertSlots(s, e.req.repo, e.req.key, e.req.version,
                  if e.req.Create? then -1 else if e.req.size == 0 then -1 else e.req.size, e.now);
    } else if e.req.Collect? && CollectDue(s, e.now) {
      CollectedOrSame(s, e.now, e.keep, id);
    }
  }

  lemma OpenSlotStep(slot: Slot, e: Event, id: nat, repo: string)
    requires Target(e) == Some(id) && LeavesOpen(e, id, repo) && !e.req.Find?
    requires slot.entry.Some? && !slot.entry.value.complete && slot.entry.value.repo == repo
    requires e.req.PutBlockList? && e.req.blockIds.Some? ==> |e.req.blockIds.value| < 0x8000_0000_0000_0000
    ensures var slot' := StepSlot(slot, id, e).0;
            && slot'.entry.Some?
            && slot'.entry.value.(usedAt := 0) == slot.entry.value.(usedAt := 0)
            && DirOf(slot') == Staged(DirOf(slot), e, id, repo)
  {
    hide OrderFrom, Assembled;
    if e.req.PutBlockList? && e.req.blockIds.Some? {
      OrderNothing(e.req.blockIds.value);
    }
  }

  lemma TargetedOpenStep(s: Store, e: Event, id: nat, repo: string, size: int)
    requires IsOpen(s, id, repo, size) && LeavesOpen(e, id, repo) && Legal(s, e)
    requires Target(e).Some?
    requires e.req.Find? || e.req.Finalize? ==> Target(e).value in s.table
    requires e.req.Find? ==> s.table[Target(e).value].complete
    requires ChangesOnly(s, Apply(s, e).0, Target(e).value)
    requires (SlotAt(Apply(s, e).0, Target(e).value), Apply(s, e).1) ==
             StepSlot(SlotAt(s, Target(e).value), Target(e).value, e)
    ensures IsOpen(Apply(s, e).0, id, repo, size)
    ensures DirAt(Apply(s, e).0, id) == Staged(DirAt(s, id), e, id, repo)
  {
    var s' := Apply(s, e).0;
    SlotOfOpen(s, id);
    SlotOfOpen(s', id);
    if Target(e).value == id {
      OpenSlotStep(SlotAt(s, id), e, id, repo);
      hide *;
    } else {
      hide SlotAt, Apply, Inv, Legal, OrderFrom, StepSlot, DirAt;
      assert SlotAt(s', id) == SlotAt(s, id);
    }
  }

  lemma OrderNothing(ids: seq<string>)
    requires |ids| < 0x8000_0000_0000_0000
    ensures OrderFrom(map[], ids, 0).0 == map[]
  {
  }

  /** Between reservation and commit the staged files are what the entry's own uploads make them. */
  lemma {:induction false} OpenRun(s: Store, run: seq<Event>, id: nat, repo: string, size: int)
    requires Inv(s) && LegalRun(s, run) && IsOpen(s, id, repo, size)
    requires forall e | e in run :: LeavesOpen(e, id, repo)
    requires id in Play(s, run).0.table
    ensures IsOpen(Play(s, run).0, id, repo, size)
    ensures DirAt(Play(s, run).0, id) == StagedBy(DirAt(s, id), run, id, repo)
    decreases |run|
  {
    if run != [] {
      var s1 := Apply(s, run[0]).0;
      StepKeeps(s, run[0]);
      RunKeeps(s1, run[1..]);
      assert id in s1.table by {
        assert id in s.owner && id in s1.owner && id <= s1.nextId;
      }
      OpenStep(s, run[0], id, repo, size);
      OpenRun(s1, run[1..], id, repo, size);
    }
  }

  /** The entry is complete, of the blob's size, and the blob is A. */
  ghost predicate Serves(s: Store, id: nat, A: Bytes) {
    && id in s.table && s.table[id].complete && s.table[id].size == |A|
    && id in s.disk.blobs && s.disk.blobs[id] == A
  }

  lemma CommitServes(s: Store, id: nat, size: int, A: Bytes)
    requires id in s.table && id in s.disk.tmp && Assembled(s.disk.tmp[id]) == A
    requires size < 0 || size == |A|
    ensures CommitEntry(s, id, size).1 && Serves(CommitEntry(s, id, size).0, id, A)
  {
    hide Assembled;
  }

  /** v1: the parts of archive A, uploaded in any order and retried at will while other requests run,
      are committed as A, whatever size was declared short of a wrong one. */
  lemma UploadedArchiveIsServed(s: Store, run: seq<Event>, commit: Event, id: nat, repo: string, size: int, A: Bytes)
    requires Inv(s) && LegalRun(s, run) && IsOpen(s, id, repo, size) && id !in s.disk.tmp
    requires forall e | e in run :: LeavesOpen(e, id, repo)
    requires id in Play(s, run).0.table
    requires StagedBy(map[], run, id, repo) != map[] && Partitions(StagedBy(map[], run, id, repo), A)
    requires commit.req == Commit(repo, id)
    ensures var (s', answer) := Apply(Play(s, run).0, commit);
            if size < 0 || size == |A| then answer == Done && Serves(s', id, A)
            else answer == Failed && id !in s'.disk.blobs
  {
    hide Apply, Play, LegalRun, Partitions, Inv, StagedBy;
    OpenRun(s, run, id, repo, size);
    var s1 := Play(s, run).0;
    PartitionAssembles(s1.disk.tmp[id], A);
    CommitAnswers(s1, commit, id, repo, size, A);
  }

  lemma CommitAnswers(s: Store, commit: Event, id: nat, repo: string, size: int, A: Bytes)
    requires IsOpen(s, id, repo, size) && id in s.disk.tmp && Assembled(s.disk.tmp[id]) == A
    requires commit.req == Commit(repo, id)
    ensures var (s', answer) := Apply(s, commit);
            if size < 0 || size == |A| then answer == Done && Serves(s', id, A)
            else answer == Failed && id !in s'.disk.blobs
  {
    hide Assembled;
    if size < 0 || size == |A| {
      CommitServes(s, id, size, A);
    }
  }

  // ---------------------------------------------------------------- v2

  /** Whatever lies staged when the reservation is finalized is what is served, if its size is as declared
      or unknown; else the upload is lost. */
  lemma StagedIsFinalized(s: Store, run: seq<Event>, finalize: Event,
                          id: nat, repo: string, reserved: int, size: int, A: Bytes)
    requires Inv(s) && LegalRun(s, run) && IsOpen(s, id, repo, reserved) && id !in s.disk.tmp
    requires forall e | e in run :: LeavesOpen(e, id, repo)
    requires id in Play(s, run).0.table
    requires StagedBy(map[], run, id, repo) != map[] && Assembled(StagedBy(map[], run, id, repo)) == A
    requires finalize.req.Finalize? && finalize.req.size == size && finalize.pick == Some(id)
    requires Legal(Play(s, run).0, finalize)
    ensures var (s', answer) := Apply(Play(s, run).0, finalize);
            if size < 0 || size == |A| then answer == Finalized(id) && Serves(s', id, A)
            else answer == NotOk && id !in s'.disk.blobs && id !in s'.disk.tmp
  {
    hide Apply, Play, LegalRun, Inv, StagedBy, Assembled, Legal;
    OpenRun(s, run, id, repo, reserved);
    FinalizeAnswers(Play(s, run).0, finalize, id, size, A);
  }

  lemma FinalizeAnswers(s: Store, finalize: Event, id: nat, size: int, A: Bytes)
    requires id in s.table && id in s.disk.tmp && Assembled(s.disk.tmp[id]) == A
    requires finalize.req.Finalize? && finalize.req.size == size && finalize.pick == Some(id) && Legal(s, finalize)
    ensures var (s', answer) := Apply(s, finalize);
            if size < 0 || size == |A| then answer == Finalized(id) && Serves(s', id, A)
            else answer == NotOk && id !in s'.disk.blobs && id !in s'.disk.tmp
  {
    hide Assembled;
  }

  lemma {:induction false} BestExists(t: Table, q: Query)
    ensures exists pick :: IsBest(t, q, pick)
    decreases |t|
  {
    if !HasMatch(t, q) {
      assert IsBest(t, q, None);
    } else {
      var i :| i in t && Matches(q, t[i]);
      var rest := t - {i};
      BestExists(rest, q);
      var pick :| IsBest(rest, q, pick);
      assert forall j | j in t :: j == i || (j in rest && rest[j] == t[j]);
      if pick.Some? && Rank(q, t[i]) <= Rank(q, t[pick.value]) {
        assert IsBest(t, q, pick);
      } else {
        assert forall j | j in rest && Matches(q, rest[j]) :: Rank(q, t[j]) <= Rank(q, t[i]) by {
          if pick == None { assert !HasMatch(rest, q); }
        }
        assert IsBest(t, q, Some(i));
      }
    }
  }

  /** A finalize request is sure to take this reservation exactly when it matches and every other one of
      the same repository, key and version was touched before it. */
  lemma FinalizeTakes(t: Table, repo: string, key: string, version: string, id: nat)
    ensures var q := Query(repo, key, version, true, false);
            (forall pick | IsBest(t, q, pick) :: pick == Some(id)) <==>
            && id in t && Matches(q, t[id])
            && forall j | j in t && j != id && Matches(q, t[j]) :: t[j].usedAt < t[id].usedAt
  {
    var q := Query(repo, key, version, true, false);
    BestExists(t, q);
    if forall pick | IsBest(t, q, pick) :: pick == Some(id) {
      assert IsBest(t, q, Some(id));
      forall j | j in t && j != id && Matches(q, t[j]) ensures t[j].usedAt < t[id].usedAt {
        if t[j].usedAt >= t[id].usedAt {
          assert IsBest(t, q, Some(j));
        }
      }
    }
  }

  /** The event changes what is staged for the reservation. */
  predicate Stages(e: Event, id: nat, repo: string) {
    match e.req
    case Upload(r, i, start, _) => i == id && r == repo && start.Some?
    case PutBlob(i, _) => i == id
    case PutBlock(i, blockId, _) => i == id && blockId != ""
    case PutBlockList(i, ids) => i == id && ids.Some?
    case _ => false
  }

  lemma {:induction false} StagesNothing(d: Dir, run: seq<Event>, id: nat, repo: string)
    requires forall e | e in run :: !Stages(e, id, repo)
    ensures StagedBy(d, run, id, repo) == d
    decreases |run|
  {
    if run != [] {
      hide Stages, Staged;
      assert run[0] in run;
      Unstaged(d, run[0], id, repo);
      StagesNothing(d, run[1..], id, repo);
    }
  }

  lemma Unstaged(d: Dir, e: Event, id: nat, repo: string)
    requires !Stages(e, id, repo)
    ensures Staged(d, e, id, repo) == d
  {
  }

  lemma {:induction false} StagedByAppend(d: Dir, run: seq<Event>, more: seq<Event>, id: nat, repo: string)
    ensures StagedBy(d, run + more, id, repo) == StagedBy(StagedBy(d, run, id, repo), more, id, repo)
    decreases |run|
  {
    hide Staged;
    if run == [] {
      assert run + more == more;
    } else {
      assert (run + more)[1..] == run[1..] + more;
      StagedByAppend(Staged(d, run[0], id, repo), run[1..], more, id, repo);
    }
  }

  /** The last request to stage anything. */
  lemma StagedLast(before: seq<Event>, last: Event, after: seq<Event>, id: nat, repo: string)
    requires forall e | e in after :: !Stages(e, id, repo)
    ensures StagedBy(map[], before + ([last] + after), id, repo) ==
            Staged(StagedBy(map[], before, id, repo), last, id, repo)
  {
    hide Stages, Staged;
    StagedByAppend(map[], before, [last] + after, id, repo);
    var d := StagedBy(map[], before, id, repo);
    assert ([last] + after)[1..] == after;
    StagesNothing(Staged(d, last, id, repo), after, id, repo);
  }

  /** A list whose blocks were moved finds the first of them gone. */
  lemma OrderAgain(d: Dir, ids: seq<string>)
    requires |ids| < 0x8000_0000_0000_0000 && Distinct(ids) && AllStaged(d, ids)
    ensures var d' := OrderFrom(d, ids, 0).0; OrderFrom(d', ids, 0) == (d', ids == [])
  {
    OrderMoves(d, ids, 0);
    if ids != [] { assert ids[0] in ids; }
  }

  /** A block list sent again is refused, and leaves what is staged as it is. */
  lemma RepeatedListFails(s: Store, e: Event, id: nat, d: Dir, ids: seq<string>)
    requires |ids| < 0x8000_0000_0000_0000 && Distinct(ids) && AllStaged(d, ids) && ids != []
    requires id in s.table && !s.table[id].complete
    requires id in s.disk.tmp && s.disk.tmp[id] == OrderFrom(d, ids, 0).0
    requires e.req == PutBlockList(id, Some(ids)) && Legal(s, e)
    ensures Apply(s, e).1 == Failed && Apply(s, e).0.disk == s.disk
  {
    OrderAgain(d, ids);
    hide OrderFrom;
    assert s.disk.tmp[id := s.disk.tmp[id]] == s.disk.tmp;
  }

  lemma {:induction false} RepeatsStageNothing(d: Dir, ids: seq<string>, run: seq<Event>, id: nat, repo: string)
    requires |ids| < 0x8000_0000_0000_0000 && Distinct(ids) && AllStaged(d, ids)
    requires forall e | e in run :: !Stages(e, id, repo) || e.req == PutBlockList(id, Some(ids))
    ensures StagedBy(OrderFrom(d, ids, 0).0, run, id, repo) == OrderFrom(d, ids, 0).0
    decreases |run|
  {
    if run != [] {
      assert run[0] in run;
      var d' := OrderFrom(d, ids, 0).0;
      if !Stages(run[0], id, repo) { Unstaged(d', run[0], id, repo); }
      OrderAgain(d, ids);
      hide OrderFrom, Stages;
      assert Staged(d', run[0], id, repo) == d';
      RepeatsStageNothing(d, ids, run[1..], id, repo);
    }
  }

  /** A block list, whatever else runs before, between and after, and however often it is sent again:
      finalize serves the listed blocks in list order, and after them what is left in parts beyond them,
      which is nothing exactly when no byte is. */
  lemma BlockListIsServed(s: Store, before: seq<Event>, list: Event, after: seq<Event>, finalize: Event,
                          id: nat, repo: string, reserved: int, size: int, ids: seq<string>)
    requires var run := before + ([list] + after);
             && Inv(s) && LegalRun(s, run) && IsOpen(s, id, repo, reserved) && id !in s.disk.tmp
             && (forall e | e in run :: LeavesOpen(e, id, repo))
             && id in Play(s, run).0.table
             && finalize.req.Finalize? && finalize.req.size == size && finalize.pick == Some(id)
             && Legal(Play(s, run).0, finalize)
    requires list.req == PutBlockList(id, Some(ids)) && |ids| < 0x8000_0000_0000_0000
    requires forall e | e in after :: !Stages(e, id, repo) || e.req == list.req
    requires var d := StagedBy(map[], before, id, repo);
             d != map[] && Distinct(ids) && AllStaged(d, ids)
    ensures LegalRun(s, before) && Legal(Play(s, before).0, list) && Apply(Play(s, before).0, list).1 == Done
    ensures var d := StagedBy(map[], before, id, repo);
            var listed := BlockBytes(d, ids);
            var written := listed + InOrder(d, OffsetsFrom(d, |ids|));
            var (s', answer) := Apply(Play(s, before + ([list] + after)).0, finalize);
            && (if size < 0 || size == |written| then answer == Finalized(id) && Serves(s', id, written)
                else answer == NotOk && id !in s'.disk.blobs && id !in s'.disk.tmp)
            && (written == listed <==> NoneBeyond(d, |ids|))
  {
    hide Apply, Play, LegalRun, Inv, StagedBy, Assembled, Legal, OrderFrom, Serves, BlockBytes, InOrder, Stages,
      LeavesOpen;
    var d := StagedBy(map[], before, id, repo);
    SplitRun(s, before, [list] + after);
    ListAnswers(s, before, list, after, id, repo, reserved, ids);
    StagedByList(before, list, after, id, repo, ids);
    BlockListCommit(d, ids);
    ListKeepsFiles(d, ids);
    var listed, rest := BlockBytes(d, ids), InOrder(d, OffsetsFrom(d, |ids|));
    InOrderEmpty(d, OffsetsFrom(d, |ids|));
    assert |listed + rest| == |listed| + |rest|;
    assert rest == [] ==> listed + rest == listed;
    StagedIsFinalized(s, before + ([list] + after), finalize, id, repo, reserved, size, listed + rest);
  }

  lemma StagedByList(before: seq<Event>, list: Event, after: seq<Event>, id: nat, repo: string, ids: seq<string>)
    requires list.req == PutBlockList(id, Some(ids)) && |ids| < 0x8000_0000_0000_0000
    requires forall e | e in after :: !Stages(e, id, repo) || e.req == list.req
    requires Distinct(ids) && AllStaged(StagedBy(map[], before, id, repo), ids)
    ensures StagedBy(map[], before + ([list] + after), id, repo) ==
            OrderFrom(StagedBy(map[], before, id, repo), ids, 0).0
  {
    hide Stages, OrderFrom, Distinct;
    var d := StagedBy(map[], before, id, repo);
    StagedByAppend(map[], before, [list] + after, id, repo);
    assert ([list] + after)[1..] == after;
    RepeatsStageNothing(d, ids, after, id, repo);
  }

  lemma {:induction false} SplitRun(s: Store, run: seq<Event>, more: seq<Event>)
    requires LegalRun(s, run + more)
    ensures LegalRun(s, run) && LegalRun(Play(s, run).0, more)
    ensures Play(s, run + more).0 == Play(Play(s, run).0, more).0
    decreases |run|
  {
    hide Apply, Legal;
    if run == [] {
      assert run + more == more;
    } else {
      assert (run + more)[1..] == run[1..] + more;
      SplitRun(Apply(s, run[0]).0, run[1..], more);
    }
  }

  lemma ListAnswers(s: Store, before: seq<Event>, list: Event, after: seq<Event>,
                    id: nat, repo: string, reserved: int, ids: seq<string>)
    requires Inv(s) && LegalRun(s, before) && LegalRun(Play(s, before).0, [list] + after)
    requires IsOpen(s, id, repo, reserved) && id !in s.disk.tmp
    requires forall e | e in before :: LeavesOpen(e, id, repo)
    requires id in Play(Play(s, before).0, [list] + after).0.table
    requires list.req == PutBlockList(id, Some(ids)) && |ids| < 0x8000_0000_0000_0000
    requires var d := StagedBy(map[], before, id, repo);
             d != map[] && Distinct(ids) && AllStaged(d, ids)
    ensures Legal(Play(s, before).0, list) && Apply(Play(s, before).0, list).1 == Done
  {
    var s1 := Play(s, before).0;
    RunKeeps(s, before);
    RunKeeps(s1, [list] + after);
    assert id in s.owner && id in s1.owner && id <= s1.nextId;
    assert id in s1.table;
    OpenRun(s, before, id, repo, reserved);
    hide Play, LegalRun, Inv, Preserves, StagedBy, OrderFrom;
    OrderSucceeds(s1.disk.tmp[id], ids, 0);
  }

  lemma ListKeepsFiles(d: Dir, ids: seq<string>)
    requires d != map[] && |ids| < 0x8000_0000_0000_0000 && Distinct(ids) && AllStaged(d, ids)
    ensures OrderFrom(d, ids, 0).0 != map[]
  {
    OrderSucceeds(d, ids, 0);
    OrderMoves(d, ids, 0);
    if ids != [] {
      assert PartFile(0) in OrderFrom(d, ids, 0).0;
    }
  }

  /** A single upload, whatever else runs and however often it is retried: finalize serves the last body. */
  lemma BlobIsServed(s: Store, before: seq<Event>, put: Event, after: seq<Event>, finalize: Event,
                     id: nat, repo: string, reserved: int, size: int, body: Bytes)
    requires var run := before + ([put] + after);
             && Inv(s) && LegalRun(s, run) && IsOpen(s, id, repo, reserved) && id !in s.disk.tmp
             && (forall e | e in run :: LeavesOpen(e, id, repo))
             && id in Play(s, run).0.table
             && finalize.req.Finalize? && finalize.req.size == size && finalize.pick == Some(id)
             && Legal(Play(s, run).0, finalize)
    requires put.req == PutBlob(id, body)
    requires forall e | e in before && Stages(e, id, repo) :: e.req.PutBlob?
    requires forall e | e in after :: !Stages(e, id, repo)
    ensures var (s', answer) := Apply(Play(s, before + ([put] + after)).0, finalize);
            if size < 0 || size == |body| then answer == Finalized(id) && Serves(s', id, body)
            else answer == NotOk && id !in s'.disk.blobs && id !in s'.disk.tmp
  {
    hide Apply, Play, LegalRun, Inv, StagedBy, Assembled, Legal, Serves, LeavesOpen;
    StagedLast(before, put, after, id, repo);
    OnlyFirstPart(map[], before, id, repo);
    OnePart(StagedBy(map[], before, id, repo)[PartFile(0) := body], body);
    StagedIsFinalized(s, before + ([put] + after), finalize, id, repo, reserved, size, body);
  }

  lemma {:induction false} OnlyFirstPart(d: Dir, run: seq<Event>, id: nat, repo: string)
    requires d.Keys <= {PartFile(0)}
    requires forall e | e in run && Stages(e, id, repo) :: e.req.PutBlob?
    ensures StagedBy(d, run, id, repo).Keys <= {PartFile(0)}
    decreases |run|
  {
    if run != [] {
      hide OrderFrom;
      assert run[0] in run;
      if !Stages(run[0], id, repo) { Unstaged(d, run[0], id, repo); }
      OnlyFirstPart(Staged(d, run[0], id, repo), run[1..], id, repo);
    }
  }

  lemma OnePart(d: Dir, body: Bytes)
    requires d.Keys == {PartFile(0)} && d[PartFile(0)] == body
    ensures Assembled(d) == body
  {
    AssembledInOrder(d);
    var s := OffsetsFrom(d, 0);
    assert s == {0};
    assert Least(s) == 0 && s - {0} == {};
    assert InOrder(d, {}) == [];
  }

  /** Once served, always served: any later download, in any run, gets A or finds the blob gone. */
  lemma DownloadsAreUnchanged(s: Store, run: seq<Event>, get: Event, id: nat, A: Bytes)
    requires Inv(s) && Serves(s, id, A) && LegalRun(s, run) && get.req == Get(id)
    ensures Legal(Play(s, run).0, get)
    ensures Apply(Play(s, run).0, get).1 in {Blob(A), NoBlob}
  {
    RunKeeps(s, run);
  }

  // ---------------------------------------------------------------- a left-over part

  /** Requests with a signed id. */
  predicate IsUpload(e: Event, id: nat) {
    match e.req
    case PutBlob(i, _) => i == id
    case PutBlock(i, _, _) => i == id
    case PutBlockList(i, ids) => i == id && (ids.Some? ==> |ids.value| < 0x8000_0000_0000_0000)
    case _ => false
  }

  /** Uploads alone never lose the reservation. */
  lemma {:induction false} UploadsAreLegal(s: Store, run: seq<Event>, id: nat, repo: string, size: int)
    requires Inv(s) && IsOpen(s, id, repo, size) && forall e | e in run :: IsUpload(e, id)
    ensures LegalRun(s, run) && Play(s, run).0.table.Keys == s.table.Keys
    ensures IsOpen(Play(s, run).0, id, repo, size)
    decreases |run|
  {
    if run != [] {
      hide Inv, IsOpen, IsUpload, Apply, Legal;
      assert run[0] in run;
      UploadIsLegal(s, run[0], id, repo, size);
      StepKeeps(s, run[0]);
      UploadsAreLegal(Apply(s, run[0]).0, run[1..], id, repo, size);
    } else {
      hide Inv;
    }
  }

  lemma UploadIsLegal(s: Store, e: Event, id: nat, repo: string, size: int)
    requires Inv(s) && IsOpen(s, id, repo, size) && IsUpload(e, id)
    ensures Legal(s, e) && Apply(s, e).0.table.Keys == s.table.Keys && IsOpen(Apply(s, e).0, id, repo, size)
  {
    assert id in s.owner;
    hide Inv, WithBlocksOrdered, WithFile;
  }

  const CREATED: Store :=
    Store(map[1 := Cache(1, "r", "k", "v", -1, false, 0, 0)], 1, Disk(map[], map[]), None, map[1 := "r"])

  function At0(req: Request): Event {
    Event(req, 0, None, {})
  }

  const LEFT: Dir := map[PartFile(0) := [1], PartFile(1) := [2], BlockFile("c") := [3]]

  const BOTH: Dir := map[BlockFile("a") := [1], BlockFile("b") := [2]]
  const MOVED: Dir := map[PartFile(0) := [1], PartFile(1) := [2]]

  lemma StagedBefore(e1: Event, e2: Event, e3: Event, e4: Event)
    requires e1.req == PutBlock(1, "a", [1]) && e2.req == PutBlock(1, "b", [2])
    requires e3.req == PutBlockList(1, Some(["a", "b"])) && e4.req == PutBlock(1, "c", [3])
    ensures StagedBy(map[], [e1, e2, e3, e4], 1, "r") == LEFT
  {
    hide OrderFrom;
    TwoStaged(e1, e2);
    BothMoved();
    StagedByAppend(map[], [e1, e2], [e3, e4], 1, "r");
    StagedByAppend(BOTH, [e3], [e4], 1, "r");
    OneStaged(BOTH, e3);
    OneStaged(MOVED, e4);
    assert [e1, e2] + [e3, e4] == [e1, e2, e3, e4] && [e3] + [e4] == [e3, e4];
    assert MOVED[BlockFile("c") := [3]] == LEFT;
  }

  lemma OneStaged(d: Dir, e: Event)
    ensures StagedBy(d, [e], 1, "r") == Staged(d, e, 1, "r")
  {
    hide Staged;
    assert [e][1..] == [];
    assert StagedBy(Staged(d, e, 1, "r"), [], 1, "r") == Staged(d, e, 1, "r");
  }

  lemma TwoStaged(e1: Event, e2: Event)
    requires e1.req == PutBlock(1, "a", [1]) && e2.req == PutBlock(1, "b", [2])
    ensures StagedBy(map[], [e1, e2], 1, "r") == BOTH
  {
    OneStaged(map[], e1);
    OneStaged(map[BlockFile("a") := [1]], e2);
    StagedByAppend(map[], [e1], [e2], 1, "r");
    assert [e1] + [e2] == [e1, e2];
    assert map[BlockFile("a") := [1]][BlockFile("b") := [2]] == BOTH;
  }

  lemma BothMoved()
    ensures OrderFrom(BOTH, ["a", "b"], 0).0 == MOVED
  {
    var half: Dir := map[PartFile(0) := [1], BlockFile("b") := [2]];
    assert "a" != "b" && BlockFile("a") in BOTH && BlockFile("b") in half;
    assert Rename(BOTH, BlockFile("a"), PartFile(0)).value == half;
    assert Rename(half, BlockFile("b"), PartFile(1)).value == MOVED;
    assert ["a", "b"][1..] == ["b"] && ["b"][1..] == [];
    assert OrderFrom(MOVED, [], 2).0 == MOVED;
    assert OrderFrom(half, ["b"], 1).0 == MOVED;
  }

  lemma LeftPart()
    ensures Distinct(["c"]) && AllStaged(LEFT, ["c"]) && LEFT != map[]
    ensures |BlockBytes(LEFT, ["c"]) + InOrder(LEFT, OffsetsFrom(LEFT, 1))| == 2
  {
    assert BlockFile("c") in LEFT;
    assert ["c"][1..] == [] && BlockBytes(LEFT, []) == [];
    var s := OffsetsFrom(LEFT, 1);
    var one: Offset := 1;
    assert PartFile(one) in LEFT && s == {one};
    assert Least(s) == one && s - {one} == {};
    assert InOrder(LEFT, {}) == [];
  }

  /** A longer block list, then another block and a list of that one only: the part left of the first list
      spoils the size, and finalize loses the upload although the second list is what was declared. */
  lemma LeftoverLosesUpload()
    ensures var create := At0(Create("r", "k", "v"));
            var first := [At0(PutBlock(1, "a", [1])), At0(PutBlock(1, "b", [2])),
                          At0(PutBlockList(1, Some(["a", "b"])))];
            var second := [At0(PutBlock(1, "c", [3])), At0(PutBlockList(1, Some(["c"])))];
            var finalize := Event(Finalize("r", "k", "v", 1), 0, Some(1), {});
            && Legal(EMPTY, create) && Apply(EMPTY, create) == (CREATED, Reserved(1))
            && LegalRun(CREATED, first + second) && Legal(Play(CREATED, first + second).0, finalize)
            && Apply(Play(CREATED, first + second).0, finalize).1 == NotOk
            && 1 !in Apply(Play(CREATED, first + second).0, finalize).0.disk.blobs
  {
    CreatedFirst();
    var e1, e2, e3 := At0(PutBlock(1, "a", [1])), At0(PutBlock(1, "b", [2])), At0(PutBlockList(1, Some(["a", "b"])));
    var e4, list := At0(PutBlock(1, "c", [3])), At0(PutBlockList(1, Some(["c"])));
    StagedBefore(e1, e2, e3, e4);
    hide *;
    assert [e1, e2, e3] + [e4, list] == [e1, e2, e3, e4] + ([list] + []);
    SecondListLoses([e1, e2, e3, e4], list, Event(Finalize("r", "k", "v", 1), 0, Some(1), {}));
  }

  lemma CreatedFirst()
    ensures var create := At0(Create("r", "k", "v"));
            Legal(EMPTY, create) && Apply(EMPTY, create) == (CREATED, Reserved(1))
    ensures Inv(CREATED) && IsOpen(CREATED, 1, "r", -1)
  {
  }

  lemma SecondListLoses(before: seq<Event>, list: Event, finalize: Event)
    requires forall e | e in before :: IsUpload(e, 1)
    requires StagedBy(map[], before, 1, "r") == LEFT
    requires list.req == PutBlockList(1, Some(["c"]))
    requires finalize.req == Finalize("r", "k", "v", 1) && finalize.pick == Some(1)
    ensures var run := before + ([list] + []);
            && LegalRun(CREATED, run) && Legal(Play(CREATED, run).0, finalize)
            && Apply(Play(CREATED, run).0, finalize).1 == NotOk
            && 1 !in Apply(Play(CREATED, run).0, finalize).0.disk.blobs
  {
    var run := before + ([list] + []);
    CreatedFirst();
    UploadsAreLegal(CREATED, run, 1, "r", -1);
    RunKeeps(CREATED, run);
    var s1 := Play(CREATED, run).0;
    assert forall e | e in run :: LeavesOpen(e, 1, "r");
    OpenRun(CREATED, run, 1, "r", -1);
    assert Matches(Query("r", "k", "v", true, false), s1.table[1]);
    LeftPart();
    hide Apply, Play, LegalRun, Inv, StagedBy, OrderFrom, BlockBytes, InOrder, Serves;
    BlockListIsServed(CREATED, before, list, [], finalize, 1, "r", -1, 1, ["c"]);
  }
}
