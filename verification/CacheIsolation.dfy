/** Repositories do not see each other: deleting every request of the others from a run changes no
    answer, up to the numbering of ids. */
module CacheIsolation {
  import opened Basics
  import opened Storage
  import opened CacheModel
  import opened CacheInvariant

  /** All the server holds for one id, without the id itself. */
  datatype Slot = Slot(entry: Option<Cache>, blob: Option<Bytes>, dir: Option<Dir>)

  function SlotAt(s: Store, i: nat): Slot {
    Slot(if i in s.table then Some(s.table[i].(id := 0)) else None,
         if i in s.disk.blobs then Some(s.disk.blobs[i]) else None,
         if i in s.disk.tmp then Some(s.disk.tmp[i]) else None)
  }

  /** A one-to-one numbering of repository r's ids in s by the ids of another run. */
  datatype Numbering = Numbering(to: map<nat, nat>, from: map<nat, nat>)

  /** num numbers exactly the ids issued to r in s by exactly the ids issued in p, all of them to r. */
  ghost predicate Aligned(s: Store, p: Store, r: string, num: Numbering) {
    && (forall i :: i in num.to <==> i in s.owner && s.owner[i] == r)
    && (forall j :: j in num.from <==> j in p.owner)
    && (forall j | j in p.owner :: p.owner[j] == r)
    && (forall i | i in num.to :: num.to[i] in num.from && num.from[num.to[i]] == i)
    && (forall j | j in num.from :: num.from[j] in num.to && num.to[num.from[j]] == j)
  }

  ghost predicate SlotsAgree(s: Store, p: Store, num: Numbering) {
    forall i | i in num.to :: SlotAt(s, i) == SlotAt(p, num.to[i])
  }

  /** p is what s looks like when only repository r ever used it, with ids renumbered by num. */
  ghost predicate Projects(s: Store, p: Store, r: string, num: Numbering) {
    Inv(s) && Inv(p) && s.gcAt == p.gcAt && Aligned(s, p, r, num) && SlotsAgree(s, p, num)
  }

  // ---------------------------------------------------------------- whose event it is

  /** The events of repository r: its jobs' requests, requests with an id signed for it, what happens
      to its blobs, and every garbage collection. */
  predicate Concerns(s: Store, e: Event, r: string) {
    match e.req
    case Find(repo, _, _) => repo == r
    case Reserve(repo, _, _, _) => repo == r
    case Upload(repo, _, _, _) => repo == r
    case Commit(repo, _) => repo == r
    case Create(repo, _, _) => repo == r
    case Finalize(repo, _, _, _) => repo == r
    case PutBlob(id, _) => id in s.owner && s.owner[id] == r
    case PutBlock(id, _, _) => id in s.owner && s.owner[id] == r
    case PutBlockList(id, _) => id in s.owner && s.owner[id] == r
    case Get(id) => id in s.owner && s.owner[id] == r
    case Collect => true
    case LoseBlob(id) => id in s.owner && s.owner[id] == r
  }

  /** An id of r is renumbered; an id that is not r's becomes 0, which is never issued. */
  function Renumber(num: Numbering, id: int): nat {
    if id >= 0 && id in num.to then num.to[id] else 0
  }

  function RenumberPick(num: Numbering, pick: Option<nat>): Option<nat> {
    match pick
    case None => None
    case Some(i) => Some(Renumber(num, i))
  }

  function RenumberSet(num: Numbering, ids: set<nat>): set<nat> {
    set i | i in ids && i in num.to :: num.to[i]
  }

  function RenumberRequest(num: Numbering, req: Request): Request {
    match req
    case Upload(repo, id, start, body) => Upload(repo, Renumber(num, id), start, body)
    case Commit(repo, id) => Commit(repo, Renumber(num, id))
    case PutBlob(id, body) => PutBlob(Renumber(num, id), body)
    case PutBlock(id, blockId, body) => PutBlock(Renumber(num, id), blockId, body)
    case PutBlockList(id, blockIds) => PutBlockList(Renumber(num, id), blockIds)
    case Get(id) => Get(Renumber(num, id))
    case LoseBlob(id) => LoseBlob(Renumber(num, id))
    case _ => req
  }

  function RenumberEvent(num: Numbering, e: Event): Event {
    Event(RenumberRequest(num, e.req), e.now, RenumberPick(num, e.pick),
          RenumberSet(num, e.keep))
  }

  function RenumberIds(num: Numbering, a: Answer): Answer {
    match a
    case Hit(id, key) => Hit(Renumber(num, id), key)
    case Reserved(id) => Reserved(Renumber(num, id))
    case Finalized(id) => Finalized(Renumber(num, id))
    case _ => a
  }

  /** Ids are renumbered, and Forbidden is read as NotReserved: the two refusals differ in status only. */
  function RenumberAnswer(num: Numbering, a: Answer): Answer {
    if a == Forbidden then NotReserved else RenumberIds(num, a)
  }

  /** The numbering after an event of r: an id it was issued gets the next number. */
  function Extend(num: Numbering, s: Store, s': Store, p: Store): Numbering {
    if s'.nextId == s.nextId + 1 then
      Numbering(num.to[s'.nextId := p.nextId + 1], num.from[p.nextId + 1 := s'.nextId])
    else num
  }

  // ---------------------------------------------------------------- one id at a time

  /** Only what the server holds for this id may differ. */
  ghost predicate ChangesOnly(s: Store, s': Store, id: nat) {
    && s'.gcAt == s.gcAt && s'.nextId == s.nextId && s'.owner == s.owner
    && forall j: nat | j != id :: SlotAt(s', j) == SlotAt(s, j)
  }

  /** The one id whose slot a request can change, if it names one. */
  function Target(e: Event): Option<nat> {
    match e.req
    case Upload(_, id, _, _) => if id >= 0 then Some(id) else None
    case Commit(_, id) => if id >= 0 then Some(id) else None
    case PutBlob(id, _) => Some(id)
    case PutBlock(id, _, _) => Some(id)
    case PutBlockList(id, _) => Some(id)
    case Get(id) => Some(id)
    case LoseBlob(id) => Some(id)
    case Find(_, _, _) => e.pick
    case Finalize(_, _, _, _) => e.pick
    case _ => None
  }

  lemma StagingIsLocal(s: Store, id: nat, d: Dir, now: int)
    ensures ChangesOnly(s, Touch(s.(disk := s.disk.(tmp := s.disk.tmp[id := d])), id, now), id)
    ensures SlotAt(Touch(s.(disk := s.disk.(tmp := s.disk.tmp[id := d])), id, now), id) ==
            TouchSlot(SlotAt(s, id).(dir := Some(d)), now)
  {
  }

  function TouchSlot(slot: Slot, now: int): Slot {
    if slot.entry.Some? then slot.(entry := Some(slot.entry.value.(usedAt := now))) else slot
  }

  lemma TouchIsLocal(s: Store, id: nat, now: int)
    ensures ChangesOnly(s, Touch(s, id, now), id)
    ensures SlotAt(Touch(s, id, now), id) == TouchSlot(SlotAt(s, id), now)
  {
  }

  /** A commit reads and writes one slot. */
  function CommitSlot(slot: Slot, size: int): (Slot, bool)
    requires slot.entry.Some?
  {
    match slot.dir
    case None => (slot, false)
    case Some(d) =>
      var blob := Assembled(d);
      if size >= 0 && |blob| != size then (Slot(slot.entry, None, None), false)
      else (Slot(Some(slot.entry.value.(size := |blob|, complete := true)), Some(blob), None), true)
  }

  lemma CommitIsLocal(s: Store, id: nat, size: int)
    requires id in s.table
    ensures ChangesOnly(s, CommitEntry(s, id, size).0, id)
    ensures (SlotAt(CommitEntry(s, id, size).0, id), CommitEntry(s, id, size).1) == CommitSlot(SlotAt(s, id), size)
  {
    hide Assembled;
  }

  function StageSlot(slot: Slot, name: FileName, body: Bytes): Slot {
    slot.(dir := Some((if slot.dir.Some? then slot.dir.value else map[])[name := body]))
  }

  /** A targeted request as a function of its slot. The id occurs in answers only. */
  function StepSlot(slot: Slot, id: nat, e: Event): (Slot, Answer)
    requires Target(e) == Some(id)
    requires e.req.Find? || e.req.Finalize? ==> slot.entry.Some?
    requires e.req.PutBlockList? && e.req.blockIds.Some? ==> |e.req.blockIds.value| < 0x8000_0000_0000_0000
  {
    match e.req
    case Find(_, _, _) =>
      if slot.blob.Some? then (slot, Hit(id, slot.entry.value.key)) else (slot.(entry := None), Miss)
    case Upload(repo, _, start, body) =>
      if slot.entry == None then (slot, NotReserved)
      else if slot.entry.value.repo != repo then (slot, Forbidden)
      else if slot.entry.value.complete then (slot, AlreadyComplete)
      else if start == None then (slot, BadRequest)
      else (TouchSlot(StageSlot(slot, PartFile(start.value), body), e.now), Done)
    case Commit(repo, _) =>
      if slot.entry == None then (slot, NotReserved)
      else if slot.entry.value.repo != repo then (slot, Forbidden)
      else if slot.entry.value.complete then (slot, AlreadyComplete)
      else
        var (slot', ok) := CommitSlot(slot, slot.entry.value.size);
        (slot', if ok then Done else Failed)
    case Finalize(_, _, _, size) =>
      var (slot', ok) := CommitSlot(slot, size);
      (slot', if ok then Finalized(id) else NotOk)
    case PutBlob(_, body) =>
      if slot.entry.Some? && slot.entry.value.complete then (slot, BadRequest)
      else (TouchSlot(StageSlot(slot, PartFile(0), body), e.now), Done)
    case PutBlock(_, blockId, body) =>
      if slot.entry.Some? && slot.entry.value.complete then (slot, BadRequest)
      else if blockId == "" then (TouchSlot(slot, e.now), BadRequest)
      else (TouchSlot(StageSlot(slot, BlockFile(blockId), body), e.now), Done)
    case PutBlockList(_, blockIds) =>
      if slot.entry.Some? && slot.entry.value.complete then (slot, BadRequest)
      else if blockIds == None then (TouchSlot(slot, e.now), BadRequest)
      else if slot.dir == None then (TouchSlot(slot, e.now), if blockIds.value == [] then Done else Failed)
      else
        var (d, ok) := OrderFrom(slot.dir.value, blockIds.value, 0);
        (TouchSlot(slot.(dir := Some(d)), e.now), if ok then Done else Failed)
    case Get(_) =>
      (TouchSlot(slot, e.now), if slot.blob.Some? then Blob(slot.blob.value) else NoBlob)
    case LoseBlob(_) =>
      (slot.(blob := None), Done)
  }

  lemma StageIsWrite(s: Store, id: nat, name: FileName, body: Bytes, now: int)
    ensures var s' := Touch(s.(disk := WithFile(s.disk, id, name, body)), id, now);
            ChangesOnly(s, s', id) && SlotAt(s', id) == TouchSlot(StageSlot(SlotAt(s, id), name, body), now)
  {
    StagingIsLocal(s, id, StageSlot(SlotAt(s, id), name, body).dir.value, now);
  }

  lemma OrderIsLocal(s: Store, id: nat, ids: seq<string>, now: int)
    requires |ids| < 0x8000_0000_0000_0000
    ensures var s' := Touch(s.(disk := WithBlocksOrdered(s.disk, id, ids).0), id, now);
            && ChangesOnly(s, s', id)
            && SlotAt(s', id) ==
               TouchSlot(if id in s.disk.tmp then SlotAt(s, id).(dir := Some(OrderFrom(s.disk.tmp[id], ids, 0).0))
                         else SlotAt(s, id), now)
  {
    hide OrderFrom;
    if id in s.disk.tmp {
      StagingIsLocal(s, id, OrderFrom(s.disk.tmp[id], ids, 0).0, now);
    } else {
      TouchIsLocal(s, id, now);
      assert s.(disk := s.disk) == s;
    }
  }

  /** A targeted request changes its slot only, and slot and answer depend on the slot only. */
  lemma TargetedStep(s: Store, e: Event, id: nat)
    requires Legal(s, e) && Target(e) == Some(id)
    ensures e.req.Find? || e.req.Finalize? ==> id in s.table
    ensures ChangesOnly(s, Apply(s, e).0, id)
    ensures (SlotAt(Apply(s, e).0, id), Apply(s, e).1) == StepSlot(SlotAt(s, id), id, e)
  {
    hide OrderFrom, Assembled, Finds, CommitEntry, CommitSlot, Touch, TouchSlot, WithFile, StageSlot;
    match e.req {
      case Find(repo, keys, version) =>
        FindsEligible(s.table, repo, keys, version, id);
      case Upload(repo, _, start, body) =>
        if start.Some? { StageIsWrite(s, id, PartFile(start.value), body, e.now); }
      case Commit(repo, _) =>
        if id in s.table { CommitIsLocal(s, id, s.table[id].size); }
      case Finalize(_, _, _, size) =>
        CommitIsLocal(s, id, size);
      case PutBlob(_, body) =>
        StageIsWrite(s, id, PartFile(0), body, e.now);
      case PutBlock(_, blockId, body) =>
        TouchIsLocal(s, id, e.now);
        StageIsWrite(s, id, BlockFile(blockId), body, e.now);
      case PutBlockList(_, blockIds) =>
        TouchIsLocal(s, id, e.now);
        if blockIds.Some? { OrderIsLocal(s, id, blockIds.value, e.now); }
      case Get(_) =>
        TouchIsLocal(s, id, e.now);
      case LoseBlob(_) =>
    }
  }

  // ---------------------------------------------------------------- events of others

  lemma OthersInsert(s: Store, p: Store, r: string, num: Numbering,
                     repo: string, key: string, version: string, size: int, now: int)
    requires Projects(s, p, r, num) && repo != r
    ensures Projects(Insert(s, repo, key, version, size, now), p, r, num)
  {
    InsertKeeps(s, repo, key, version, size, now);
    var s' := Insert(s, repo, key, version, size, now);
    forall i | i in num.to ensures SlotAt(s', i) == SlotAt(p, num.to[i]) {
      assert i != s'.nextId;
    }
  }

  lemma OthersChange(s: Store, s': Store, p: Store, r: string, num: Numbering, id: nat)
    requires Projects(s, p, r, num) && Inv(s')
    requires ChangesOnly(s, s', id) && (id in num.to ==> SlotAt(s', id) == SlotAt(s, id))
    ensures Projects(s', p, r, num)
  {
  }

  /** A step that is not r's leaves the projection on r as it is. */
  lemma OthersStep(s: Store, p: Store, r: string, num: Numbering, e: Event)
    requires Projects(s, p, r, num) && Legal(s, e) && !Concerns(s, e, r)
    ensures Projects(Apply(s, e).0, p, r, num)
  {
    StepKeeps(s, e);
    if Target(e).Some? {
      var id := Target(e).value;
      TargetedStep(s, e, id);
      if id in num.to {
        NotTheirs(s, p, r, num, e, id);
      }
      OthersChange(s, Apply(s, e).0, p, r, num, id);
    } else if e.req.Reserve? {
      OthersInsert(s, p, r, num, e.req.repo, e.req.key, e.req.version,
                   if e.req.size == 0 then -1 else e.req.size, e.now);
    } else if e.req.Create? {
      OthersInsert(s, p, r, num, e.req.repo, e.req.key, e.req.version, -1, e.now);
    }
  }

  /** Another repository naming an id of r is refused. */
  lemma NotTheirs(s: Store, p: Store, r: string, num: Numbering, e: Event, id: nat)
    requires Projects(s, p, r, num) && Legal(s, e) && !Concerns(s, e, r)
    requires Target(e) == Some(id) && id in num.to
    requires e.req.Find? || e.req.Finalize? ==> id in s.table
    ensures StepSlot(SlotAt(s, id), id, e).0 == SlotAt(s, id)
  {
    assert id in s.owner && s.owner[id] == r;
    assert id in s.table ==> s.table[id].repo == r;
    if e.req.Find? {
      FindsEligible(s.table, e.req.repo, e.req.keys, e.req.version, id);
    }
  }

  // ---------------------------------------------------------------- events of r

  /** The records of r in t are the records of t', renumbered. */
  ghost predicate TablesAgree(t: Table, t': Table, r: string, num: Numbering) {
    && (forall i | i in t :: i in num.to <==> t[i].repo == r)
    && (forall i | i in t && i in num.to ::
          num.to[i] in t' && t'[num.to[i]].(id := 0) == t[i].(id := 0) &&
          num.to[i] in num.from && num.from[num.to[i]] == i)
    && (forall j | j in t' ::
          t'[j].repo == r && j in num.from && num.from[j] in t && t[num.from[j]].(id := 0) == t'[j].(id := 0))
    && (forall j | j in num.from :: num.from[j] in num.to && num.to[num.from[j]] == j)
  }

  lemma EntriesAgree(s: Store, p: Store, r: string, num: Numbering)
    requires Projects(s, p, r, num)
    ensures TablesAgree(s.table, p.table, r, num)
  {
    forall i | i in s.table && i in num.to
      ensures num.to[i] in p.table && p.table[num.to[i]].(id := 0) == s.table[i].(id := 0)
    {
      assert SlotAt(s, i) == SlotAt(p, num.to[i]);
    }
    forall j | j in p.table
      ensures p.table[j].repo == r && j in num.from && num.from[j] in s.table &&
              s.table[num.from[j]].(id := 0) == p.table[j].(id := 0)
    {
      assert j in num.from && num.from[j] in num.to && SlotAt(s, num.from[j]) == SlotAt(p, j);
    }
  }

  lemma MatchesAgree(t: Table, t': Table, r: string, num: Numbering, q: Query)
    requires TablesAgree(t, t', r, num) && q.repo == r
    ensures HasMatch(t, q) <==> HasMatch(t', q)
  {
    if HasMatch(t, q) {
      var i :| i in t && Matches(q, t[i]);
      assert Matches(q, t'[num.to[i]]);
    }
    if HasMatch(t', q) {
      var j :| j in t' && Matches(q, t'[j]);
      assert Matches(q, t[num.from[j]]);
    }
  }

  lemma BestAgree(t: Table, t': Table, r: string, num: Numbering, q: Query, pick: Option<nat>)
    requires TablesAgree(t, t', r, num) && q.repo == r && IsBest(t, q, pick)
    ensures (pick.Some? ==> pick.value in num.to) && IsBest(t', q, RenumberPick(num, pick))
  {
    MatchesAgree(t, t', r, num, q);
    if pick.Some? {
      var i := pick.value;
      forall j | j in t' && Matches(q, t'[j]) ensures Rank(q, t'[j]) <= Rank(q, t'[num.to[i]]) {
        assert Matches(q, t[num.from[j]]);
      }
    }
  }

  lemma {:induction false} LookupsAgree(t: Table, t': Table, r: string, num: Numbering, keys: seq<string>,
                                        version: string, pick: Option<nat>)
    requires TablesAgree(t, t', r, num) && Finds(t, r, keys, version, pick)
    ensures pick.Some? ==> pick.value in num.to
    ensures Finds(t', r, keys, version, RenumberPick(num, pick))
    decreases |keys|
  {
    hide TablesAgree, HasMatch, IsBest;
    if keys != [] {
      var exact := Query(r, keys[0], version, true, true);
      var prefix := exact.(exact := false);
      MatchesAgree(t, t', r, num, exact);
      MatchesAgree(t, t', r, num, prefix);
      if HasMatch(t, exact) {
        BestAgree(t, t', r, num, exact, pick);
      } else if HasMatch(t, prefix) {
        BestAgree(t, t', r, num, prefix, pick);
      } else {
        LookupsAgree(t, t', r, num, keys[1..], version, pick);
      }
    }
  }

  lemma BothChange(s: Store, s': Store, p: Store, p': Store, r: string, num: Numbering, id: nat)
    requires Projects(s, p, r, num) && Inv(s') && Inv(p') && id in num.to
    requires ChangesOnly(s, s', id) && ChangesOnly(p, p', num.to[id])
    requires SlotAt(s', id) == SlotAt(p', num.to[id])
    ensures Projects(s', p', r, num)
  {
    forall i | i in num.to ensures SlotAt(s', i) == SlotAt(p', num.to[i]) {
      if i != id {
        assert num.to[i] != num.to[id] by {
          assert num.from[num.to[i]] == i && num.from[num.to[id]] == id;
        }
      }
    }
  }

  lemma InsertSlots(s: Store, repo: string, key: string, version: string, size: int, now: int)
    requires Inv(s)
    ensures var s' := Insert(s, repo, key, version, size, now);
            && SlotAt(s', s.nextId + 1) == Slot(Some(Cache(0, repo, key, version, size, false, now, now)), None, None)
            && forall i: nat | i <= s.nextId :: SlotAt(s', i) == SlotAt(s, i)
  {
    assert s.nextId + 1 !in s.owner;
  }

  lemma BothInsert(s: Store, p: Store, r: string, num: Numbering, key: string, version: string, size: int, now: int)
    requires Projects(s, p, r, num)
    ensures var s', p' := Insert(s, r, key, version, size, now), Insert(p, r, key, version, size, now);
            Projects(s', p', r, Extend(num, s, s', p))
  {
    var s', p' := Insert(s, r, key, version, size, now), Insert(p, r, key, version, size, now);
    InsertKeeps(s, r, key, version, size, now);
    InsertKeeps(p, r, key, version, size, now);
    ExtendAligned(s, s', p, p', r, num);
    InsertSlots(s, r, key, version, size, now);
    InsertSlots(p, r, key, version, size, now);
    ExtendAgrees(s, s', p, p', r, num);
  }

  lemma ExtendAligned(s: Store, s': Store, p: Store, p': Store, r: string, num: Numbering)
    requires Aligned(s, p, r, num)
    requires s'.nextId == s.nextId + 1 && s'.nextId !in s.owner && s'.owner == s.owner[s'.nextId := r]
    requires p'.nextId == p.nextId + 1 && p'.nextId !in p.owner && p'.owner == p.owner[p'.nextId := r]
    ensures Aligned(s', p', r, Extend(num, s, s', p))
  {
    var num' := Extend(num, s, s', p);
    var i0, j0 := s'.nextId, p'.nextId;
    assert num'.to == num.to[i0 := j0] && num'.from == num.from[j0 := i0];
    hide Extend;
    forall i | i in num'.to ensures num'.to[i] in num'.from && num'.from[num'.to[i]] == i {
      if i != i0 { assert num.to[i] in p.owner; }
    }
    forall j | j in num'.from ensures num'.from[j] in num'.to && num'.to[num'.from[j]] == j {
      if j != j0 { assert num.from[j] in s.owner; }
    }
  }

  lemma ExtendAgrees(s: Store, s': Store, p: Store, p': Store, r: string, num: Numbering)
    requires Inv(s) && Inv(p) && Aligned(s, p, r, num) && SlotsAgree(s, p, num)
    requires s'.nextId == s.nextId + 1 && p'.nextId == p.nextId + 1
    requires SlotAt(s', s'.nextId) == SlotAt(p', p'.nextId)
    requires forall i: nat | i <= s.nextId :: SlotAt(s', i) == SlotAt(s, i)
    requires forall j: nat | j <= p.nextId :: SlotAt(p', j) == SlotAt(p, j)
    ensures SlotsAgree(s', p', Extend(num, s, s', p))
  {
    hide SlotAt;
    var num' := Extend(num, s, s', p);
    forall i | i in num'.to ensures SlotAt(s', i) == SlotAt(p', num'.to[i]) {
      if i != s'.nextId {
        assert i in s.owner && num.to[i] in p.owner;
      }
    }
  }

  lemma SweptSlots(s: Store, ids: set<nat>)
    ensures forall i: nat :: SlotAt(Sweep(s, ids), i) == if i in ids then Slot(None, None, None) else SlotAt(s, i)
  {
  }

  lemma BothSweep(s: Store, p: Store, r: string, num: Numbering, ids: set<nat>, ids': set<nat>)
    requires Projects(s, p, r, num)
    requires forall i | i in num.to :: i in ids <==> num.to[i] in ids'
    ensures Projects(Sweep(s, ids), Sweep(p, ids'), r, num)
  {
    hide SlotAt, Inv, Preserves, Aligned;
    SweepKeeps(s, ids);
    SweepKeeps(p, ids');
    SweptSlots(s, ids);
    SweptSlots(p, ids');
    SweepIsAligned(s, p, r, num, ids, ids');
  }

  lemma SweepIsAligned(s: Store, p: Store, r: string, num: Numbering, ids: set<nat>, ids': set<nat>)
    requires Aligned(s, p, r, num)
    ensures Aligned(Sweep(s, ids), Sweep(p, ids'), r, num)
  {
  }

  lemma BothAge(s: Store, p: Store, r: string, num: Numbering, now: int)
    requires Projects(s, p, r, num)
    ensures Projects(Aged(s, now), Aged(p, now), r, num)
  {
    hide Projects, Sweep, Abandoned, Unused, TooOld;
    SameAge(s, p, r, num, now);
    BothSweep(s, p, r, num, Abandoned(s.table, now), Abandoned(p.table, now));
    var s1, p1 := Sweep(s, Abandoned(s.table, now)), Sweep(p, Abandoned(p.table, now));
    SameAge(s1, p1, r, num, now);
    BothSweep(s1, p1, r, num, Unused(s1.table, now), Unused(p1.table, now));
    var s2, p2 := Sweep(s1, Unused(s1.table, now)), Sweep(p1, Unused(p1.table, now));
    SameAge(s2, p2, r, num, now);
    BothSweep(s2, p2, r, num, TooOld(s2.table, now), TooOld(p2.table, now));
  }

  /** An entry is as old on one side as on the other. */
  lemma SameAge(s: Store, p: Store, r: string, num: Numbering, now: int)
    requires Projects(s, p, r, num)
    ensures forall i | i in num.to :: i in Abandoned(s.table, now) <==> num.to[i] in Abandoned(p.table, now)
    ensures forall i | i in num.to :: i in Unused(s.table, now) <==> num.to[i] in Unused(p.table, now)
    ensures forall i | i in num.to :: i in TooOld(s.table, now) <==> num.to[i] in TooOld(p.table, now)
  {
    hide Inv, Aligned;
    forall i | i in num.to
      ensures i in Abandoned(s.table, now) <==> num.to[i] in Abandoned(p.table, now)
      ensures i in Unused(s.table, now) <==> num.to[i] in Unused(p.table, now)
      ensures i in TooOld(s.table, now) <==> num.to[i] in TooOld(p.table, now)
    {
      assert SlotAt(s, i) == SlotAt(p, num.to[i]);
    }
  }

  lemma RenumberedIn(s: Store, p: Store, r: string, num: Numbering, ids: set<nat>, j: nat)
    requires Aligned(s, p, r, num)
    ensures j in RenumberSet(num, ids) <==> j in num.from && num.from[j] in ids
  {
    if j in num.from && num.from[j] in ids {
      assert num.to[num.from[j]] == j;
    }
  }

  lemma KeepersAgree(s: Store, p: Store, r: string, num: Numbering, keep: set<nat>)
    requires Projects(s, p, r, num) && KeepsLatest(s.table, keep)
    ensures KeepsLatest(p.table, RenumberSet(num, keep))
  {
    EntriesAgree(s, p, r, num);
    forall j ensures j in RenumberSet(num, keep) <==> j in num.from && num.from[j] in keep {
      RenumberedIn(s, p, r, num, keep, j);
    }
    KeepersMatch(s.table, p.table, r, num, keep, RenumberSet(num, keep));
  }

  lemma KeepersMatch(t: Table, t': Table, r: string, num: Numbering, keep: set<nat>, keep': set<nat>)
    requires TablesAgree(t, t', r, num) && KeepsLatest(t, keep)
    requires forall j :: j in keep' <==> j in num.from && num.from[j] in keep
    ensures KeepsLatest(t', keep')
  {
    forall k | k in keep' ensures k in t' && t'[k].complete {
      assert num.from[k] in t && num.to[num.from[k]] == k;
    }
    forall j | j in t' && t'[j].complete ensures HasKeeper(t', keep', j) {
      var i := num.from[j];
      assert HasKeeper(t, keep, i);
      var k :| k in keep && k in t && SameGroup(t[k], t[i]) && t[i].createdAt <= t[k].createdAt;
      assert num.to[k] in keep';
    }
    forall k1, k2 | k1 in keep' && k2 in keep' && k1 in t' && k2 in t' && SameGroup(t'[k1], t'[k2]) ensures k1 == k2 {
      assert num.from[k1] == num.from[k2];
    }
  }

  lemma BothEvict(s: Store, p: Store, r: string, num: Numbering, now: int, keep: set<nat>)
    requires Projects(s, p, r, num)
    ensures Projects(Sweep(s, Superseded(s.table, now, keep)),
                     Sweep(p, Superseded(p.table, now, RenumberSet(num, keep))), r, num)
  {
    var keep' := RenumberSet(num, keep);
    forall i | i in num.to
      ensures i in Superseded(s.table, now, keep) <==> num.to[i] in Superseded(p.table, now, keep')
    {
      assert SlotAt(s, i) == SlotAt(p, num.to[i]);
      RenumberedIn(s, p, r, num, keep, num.to[i]);
    }
    BothSweep(s, p, r, num, Superseded(s.table, now, keep), Superseded(p.table, now, keep'));
  }

  lemma BothStamp(s: Store, p: Store, r: string, num: Numbering, now: int)
    requires Projects(s, p, r, num)
    ensures Projects(s.(gcAt := Some(now)), p.(gcAt := Some(now)), r, num)
  {
    forall i | i in num.to ensures SlotAt(s.(gcAt := Some(now)), i) == SlotAt(p.(gcAt := Some(now)), num.to[i]) {
      assert SlotAt(s, i) == SlotAt(p, num.to[i]);
    }
  }

  lemma BothCollect(s: Store, p: Store, r: string, num: Numbering, now: int, keep: set<nat>)
    requires Projects(s, p, r, num) && KeepsLatest(Aged(s, now).table, keep)
    ensures KeepsLatest(Aged(p, now).table, RenumberSet(num, keep))
    ensures Projects(Collected(s, now, keep), Collected(p, now, RenumberSet(num, keep)), r, num)
  {
    hide Aged, Superseded, Sweep, KeepsLatest, Projects;
    BothAge(s, p, r, num, now);
    KeepersAgree(Aged(s, now), Aged(p, now), r, num, keep);
    BothEvict(Aged(s, now), Aged(p, now), r, num, now, keep);
    var s4 := Sweep(Aged(s, now), Superseded(Aged(s, now).table, now, keep));
    var p4 := Sweep(Aged(p, now), Superseded(Aged(p, now).table, now, RenumberSet(num, keep)));
    BothStamp(s4, p4, r, num, now);
  }

  // ---------------------------------------------------------------- one event of r

  lemma OwnLegal(s: Store, p: Store, r: string, num: Numbering, e: Event)
    requires Projects(s, p, r, num) && Legal(s, e) && Concerns(s, e, r)
    ensures Legal(p, RenumberEvent(num, e))
    ensures e.req.Find? || e.req.Finalize? ==> e.pick.Some? ==> e.pick.value in num.to
  {
    hide Finds, IsBest, KeepsLatest, Inv, SlotsAgree;
    match e.req {
      case Find(_, keys, version) =>
        EntriesAgree(s, p, r, num);
        LookupsAgree(s.table, p.table, r, num, keys, version, e.pick);
      case Finalize(_, key, version, _) =>
        EntriesAgree(s, p, r, num);
        BestAgree(s.table, p.table, r, num, Query(r, key, version, true, false), e.pick);
      case Collect =>
        if CollectDue(s, e.now) { BothCollect(s, p, r, num, e.now, e.keep); }
      case _ =>
    }
  }

  /** A targeted request on an id of r does the same on both sides. */
  lemma OwnTargetedStep(s: Store, p: Store, r: string, num: Numbering, e: Event, id: nat)
    requires Projects(s, p, r, num) && Legal(s, e) && Concerns(s, e, r)
    requires Target(e) == Some(id) && id in num.to
    requires Legal(p, RenumberEvent(num, e))
    ensures var e' := RenumberEvent(num, e);
            && Projects(Apply(s, e).0, Apply(p, e').0, r, num)
            && Apply(p, e').1 == RenumberAnswer(num, Apply(s, e).1)
  {
    hide Inv, Apply, Legal, StepSlot, RenumberAnswer, RenumberEvent, SlotAt, Aligned, Preserves, ChangesOnly;
    var e' := RenumberEvent(num, e);
    var id' := num.to[id];
    StepKeeps(s, e);
    StepKeeps(p, e');
    OwnSlot(s, p, r, num, id);
    TargetedStep(s, e, id);
    TargetIsOwn(s, e, id, r);
    SameStep(SlotAt(s, id), num, e, id, r);
    TargetedStep(p, e', id');
    BothChange(s, Apply(s, e).0, p, Apply(p, e').0, r, num, id);
  }

  lemma OwnSlot(s: Store, p: Store, r: string, num: Numbering, id: nat)
    requires Projects(s, p, r, num) && id in num.to
    ensures SlotAt(s, id) == SlotAt(p, num.to[id])
    ensures SlotAt(s, id).entry.Some? <==> id in s.table
    ensures SlotAt(s, id).entry.Some? ==> SlotAt(s, id).entry.value.repo == r
  {
  }

  lemma TargetIsOwn(s: Store, e: Event, id: nat, r: string)
    requires Legal(s, e) && Concerns(s, e, r) && Target(e) == Some(id)
    ensures e.req.Upload? || e.req.Commit? ==> e.req.repo == r
    ensures e.req.PutBlockList? && e.req.blockIds.Some? ==> |e.req.blockIds.value| < 0x8000_0000_0000_0000
  {
  }

  lemma SameStep(slot: Slot, num: Numbering, e: Event, id: nat, r: string)
    requires Target(e) == Some(id) && id in num.to
    requires e.req.Find? || e.req.Finalize? ==> slot.entry.Some?
    requires e.req.PutBlockList? && e.req.blockIds.Some? ==> |e.req.blockIds.value| < 0x8000_0000_0000_0000
    requires e.req.Upload? || e.req.Commit? ==> e.req.repo == r
    requires slot.entry.Some? ==> slot.entry.value.repo == r
    ensures var e' := RenumberEvent(num, e);
            && Target(e') == Some(num.to[id])
            && StepSlot(slot, num.to[id], e').0 == StepSlot(slot, id, e).0
            && StepSlot(slot, num.to[id], e').1 == RenumberAnswer(num, StepSlot(slot, id, e).1)
  {
    hide OrderFrom, Assembled;
  }

  /** Naming an id that is not r's gets r nowhere, on either side. */
  lemma OwnStrayStep(s: Store, p: Store, r: string, num: Numbering, e: Event)
    requires Projects(s, p, r, num) && Legal(s, e)
    requires e.req.Upload? || e.req.Commit?
    requires e.req.repo == r && !(e.req.id >= 0 && e.req.id in num.to)
    ensures Apply(s, e).0 == s && Apply(p, RenumberEvent(num, e)) == (p, NotReserved)
    ensures Apply(s, e).1 == Forbidden || Apply(s, e).1 == NotReserved
  {
    assert 0 !in p.table;
    var id := e.req.id;
    if id >= 0 && id in s.table {
      assert s.owner[id] == s.table[id].repo;
    }
  }

  lemma ExtendByNothing(num: Numbering, s: Store, s': Store, p: Store)
    requires s'.nextId == s.nextId
    ensures Extend(num, s, s', p) == num
  {
  }

  /** Applied on both sides, the event keeps the projection and answers the same. */
  ghost predicate StepsTogether(s: Store, p: Store, r: string, num: Numbering, e: Event)
    requires Legal(s, e) && Legal(p, RenumberEvent(num, e))
  {
    var num' := Extend(num, s, Apply(s, e).0, p);
    && Projects(Apply(s, e).0, Apply(p, RenumberEvent(num, e)).0, r, num')
    && Apply(p, RenumberEvent(num, e)).1 == RenumberAnswer(num', Apply(s, e).1)
  }

  lemma OwnReserve(s: Store, p: Store, r: string, num: Numbering, e: Event)
    requires Projects(s, p, r, num) && e.req.Reserve? && e.req.repo == r
    ensures StepsTogether(s, p, r, num, e)
  {
    hide Projects;
    BothInsert(s, p, r, num, e.req.key, e.req.version,
                   if e.req.size == 0 then -1 else e.req.size, e.now);
  }

  lemma OwnCreate(s: Store, p: Store, r: string, num: Numbering, e: Event)
    requires Projects(s, p, r, num) && e.req.Create? && e.req.repo == r
    ensures StepsTogether(s, p, r, num, e)
  {
    hide Projects, TablesAgree, HasMatch;
    EntriesAgree(s, p, r, num);
    MatchesAgree(s.table, p.table, r, num, Query(r, e.req.key, e.req.version, true, true));
    BothInsert(s, p, r, num, e.req.key, e.req.version, -1, e.now);
  }

  lemma CollectApplies(s: Store, e: Event)
    requires e.req.Collect? && Legal(s, e)
    ensures Apply(s, e) == (if CollectDue(s, e.now) then Collected(s, e.now, e.keep) else s, Done)
    ensures CollectDue(s, e.now) ==> KeepsLatest(Aged(s, e.now).table, e.keep)
  {
    hide Collected, KeepsLatest, Aged;
  }

  lemma CollectedIssuesNothing(s: Store, now: int, keep: set<nat>)
    ensures Collected(s, now, keep).nextId == s.nextId
  {
  }

  lemma OwnCollect(s: Store, p: Store, r: string, num: Numbering, e: Event)
    requires Projects(s, p, r, num) && Legal(s, e) && Legal(p, RenumberEvent(num, e)) && e.req.Collect?
    ensures StepsTogether(s, p, r, num, e)
  {
    assert s.gcAt == p.gcAt;
    CollectedIssuesNothing(s, e.now, e.keep);
    CollectApplies(s, e);
    CollectApplies(p, RenumberEvent(num, e));
    hide Projects, Collected, KeepsLatest, Aged, Apply, Legal;
    if CollectDue(s, e.now) {
      BothCollect(s, p, r, num, e.now, e.keep);
    }
  }

  lemma OwnUntargetedStep(s: Store, p: Store, r: string, num: Numbering, e: Event)
    requires Projects(s, p, r, num) && Legal(s, e) && Concerns(s, e, r)
    requires Legal(p, RenumberEvent(num, e))
    requires !(Target(e).Some? && Target(e).value in num.to) && !e.req.Upload? && !e.req.Commit?
    requires e.req.Find? || e.req.Finalize? ==> e.pick == None
    ensures StepsTogether(s, p, r, num, e)
  {
    match e.req {
      case Reserve(_, _, _, _) => OwnReserve(s, p, r, num, e);
      case Create(_, _, _) => OwnCreate(s, p, r, num, e);
      case Collect => OwnCollect(s, p, r, num, e);
      case _ =>
    }
  }

  /** One event of r: legal on the projection too, it keeps the projection and answers the same. */
  lemma OwnStep(s: Store, p: Store, r: string, num: Numbering, e: Event)
    requires Projects(s, p, r, num) && Legal(s, e) && Concerns(s, e, r)
    ensures var e' := RenumberEvent(num, e);
            Legal(p, e') && StepsTogether(s, p, r, num, e)
  {
    OwnLegal(s, p, r, num, e);
    var s' := Apply(s, e).0;
    hide Legal;
    if Target(e).Some? && Target(e).value in num.to {
      OwnTargetedStep(s, p, r, num, e, Target(e).value);
      TargetedStep(s, e, Target(e).value);
      ExtendByNothing(num, s, s', p);
    } else if e.req.Upload? || e.req.Commit? {
      OwnStrayStep(s, p, r, num, e);
    } else {
      OwnUntargetedStep(s, p, r, num, e);
    }
  }

  // ---------------------------------------------------------------- whole runs

  /** The run with every event deleted that is not r's, and ids renumbered as r's jobs would see them. */
  ghost function Projected(s: Store, p: Store, r: string, num: Numbering, run: seq<Event>): seq<Event>
    requires LegalRun(s, run) && Projects(s, p, r, num)
    decreases |run|
  {
    if run == [] then [] else
      var e := run[0];
      var s' := Apply(s, e).0;
      if Concerns(s, e, r) then
        OwnStep(s, p, r, num, e);
        var e' := RenumberEvent(num, e);
        [e'] + Projected(s', Apply(p, e').0, r, Extend(num, s, s', p), run[1..])
      else
        OthersStep(s, p, r, num, e);
        Projected(s', p, r, num, run[1..])
  }

  /** The answers the run gives to r, with ids renumbered. */
  ghost function Observed(s: Store, p: Store, r: string, num: Numbering, run: seq<Event>): seq<Answer>
    requires LegalRun(s, run) && Projects(s, p, r, num)
    decreases |run|
  {
    if run == [] then [] else
      var e := run[0];
      var (s', a) := Apply(s, e);
      if Concerns(s, e, r) then
        OwnStep(s, p, r, num, e);
        var num' := Extend(num, s, s', p);
        [RenumberAnswer(num', a)] + Observed(s', Apply(p, RenumberEvent(num, e)).0, r, num', run[1..])
      else
        OthersStep(s, p, r, num, e);
        Observed(s', p, r, num, run[1..])
  }

  lemma {:induction false} ProjectionAnswers(s: Store, p: Store, r: string, num: Numbering, run: seq<Event>)
    requires LegalRun(s, run) && Projects(s, p, r, num)
    ensures LegalRun(p, Projected(s, p, r, num, run))
    ensures Play(p, Projected(s, p, r, num, run)).1 == Observed(s, p, r, num, run)
    decreases |run|
  {
    if run != [] {
      var e := run[0];
      var s' := Apply(s, e).0;
      if Concerns(s, e, r) {
        OwnStep(s, p, r, num, e);
        var e' := RenumberEvent(num, e);
        var p', num' := Apply(p, e').0, Extend(num, s, s', p);
        ProjectionAnswers(s', p', r, num', run[1..]);
        var rest := Projected(s', p', r, num', run[1..]);
        assert ([e'] + rest)[1..] == rest;
      } else {
        OthersStep(s, p, r, num, e);
        ProjectionAnswers(s', p, r, num, run[1..]);
      }
    }
  }

  const UNNUMBERED := Numbering(map[], map[])

  lemma EmptyProjects(r: string)
    ensures Projects(EMPTY, EMPTY, r, UNNUMBERED)
  {
    EmptyStore();
    hide Inv;
  }

  /** Whole-run independence: the run that is left when all requests of other repositories are deleted
      is a run of the server, and gives repository r the answers the full run gave it. */
  lemma RepositoriesAreIndependent(run: seq<Event>, r: string)
    requires LegalRun(EMPTY, run)
    ensures Projects(EMPTY, EMPTY, r, UNNUMBERED)
    ensures var alone := Projected(EMPTY, EMPTY, r, UNNUMBERED, run);
            LegalRun(EMPTY, alone) && Play(EMPTY, alone).1 == Observed(EMPTY, EMPTY, r, UNNUMBERED, run)
  {
    EmptyProjects(r);
    ProjectionAnswers(EMPTY, EMPTY, r, UNNUMBERED, run);
  }

  /** So nothing other repositories do shows: two runs in which r does the same get r the same answers. */
  lemma OthersDoNotShow(run1: seq<Event>, run2: seq<Event>, r: string)
    requires LegalRun(EMPTY, run1) && LegalRun(EMPTY, run2)
    requires Projects(EMPTY, EMPTY, r, UNNUMBERED)
    requires Projected(EMPTY, EMPTY, r, UNNUMBERED, run1) == Projected(EMPTY, EMPTY, r, UNNUMBERED, run2)
    ensures Observed(EMPTY, EMPTY, r, UNNUMBERED, run1) == Observed(EMPTY, EMPTY, r, UNNUMBERED, run2)
  {
    RepositoriesAreIndependent(run1, r);
    RepositoriesAreIndependent(run2, r);
  }

  /** The request is a v1 upload or commit and names an id that was reserved by another repository. */
  predicate NamesAnothers(s: Store, e: Event, r: string) {
    && (e.req.Upload? || e.req.Commit?)
    && e.req.id >= 0 && e.req.id in s.table && s.table[e.req.id].repo != r
  }

  /** Told apart, the two refusals are all that shows of the others: an answer differs from the one r
      would get alone exactly when the request names another repository's id. */
  lemma OnlyForbiddenShows(s: Store, p: Store, r: string, num: Numbering, e: Event)
    requires Projects(s, p, r, num) && Legal(s, e) && Concerns(s, e, r)
    ensures Legal(p, RenumberEvent(num, e))
    ensures var num' := Extend(num, s, Apply(s, e).0, p);
            Apply(p, RenumberEvent(num, e)).1 == RenumberIds(num', Apply(s, e).1) <==> !NamesAnothers(s, e, r)
  {
    hide Apply, Projects, Legal, Extend;
    OwnStep(s, p, r, num, e);
    ForbiddenIff(s, e, r);
  }

  lemma ForbiddenIff(s: Store, e: Event, r: string)
    requires Legal(s, e) && Concerns(s, e, r)
    ensures Apply(s, e).1 == Forbidden <==> NamesAnothers(s, e, r)
  {
    hide Insert, CommitEntry, Collected, WithFile, WithBlocksOrdered, Finds, IsBest, KeepsLatest;
  }

  /** And that does happen: a job of one repository may name an id reserved by another. */
  lemma ForbiddenHappens(now: int)
    ensures var reserve := Event(Reserve("a/a", "k", "v", 0), now, None, {});
            var commit := Event(Commit("b/b", 1), now, None, {});
            && LegalRun(EMPTY, [reserve, commit])
            && Play(EMPTY, [reserve, commit]).1 == [Reserved(1), Forbidden]
            && LegalRun(EMPTY, [commit])
            && Play(EMPTY, [commit]).1 == [NotReserved]
  {
    var reserve := Event(Reserve("a/a", "k", "v", 0), now, None, {});
    var commit := Event(Commit("b/b", 1), now, None, {});
    var s1 := Apply(EMPTY, reserve).0;
    PlayOne(s1, commit);
    PlayOne(EMPTY, commit);
    var both := [reserve, commit];
    assert both[1..] == [commit];
    assert Apply(s1, commit) == (s1, Forbidden);
  }

  lemma PlayOne(s: Store, e: Event)
    requires Legal(s, e)
    ensures LegalRun(s, [e])
    ensures Play(s, [e]) == (Apply(s, e).0, [Apply(s, e).1])
  {
    var run := [e];
    assert run[0] == e && run[1..] == [];
    assert LegalRun(Apply(s, e).0, run[1..]);
    assert Play(Apply(s, e).0, run[1..]) == (Apply(s, e).0, []);
    assert [Apply(s, e).1] + [] == [Apply(s, e).1];
  }
}
