/** The cache server as a state machine: one request, garbage collection or lost blob is one step. */
module CacheModel {
  import opened Basics
  import opened Storage

  const KEEP_TEMP := 5 * 60
  const KEEP_OLD := 5 * 60
  const KEEP_UNUSED := 7 * 24 * 3600
  const KEEP_USED := 30 * 24 * 3600
  const GC_INTERVAL := 3600

  /** A table record. Times are Unix seconds; a negative size is an unknown one. */
  datatype Cache = Cache(id: nat, repo: string, key: string, version: string,
                         size: int, complete: bool, usedAt: int, createdAt: int)

  type Table = map<nat, Cache>

  /** `owner` records the repository each id was ever issued to. */
  datatype Store = Store(table: Table, nextId: nat, disk: Disk, gcAt: Option<int>, owner: map<nat, string>)

  const EMPTY := Store(map[], 0, Disk(map[], map[]), None, map[])

  // ---------------------------------------------------------------- queries

  /** A table query: an exact key or a key prefix, among complete or incomplete entries. */
  datatype Query = Query(repo: string, key: string, version: string, exact: bool, complete: bool)

  predicate Matches(q: Query, c: Cache) {
    && c.repo == q.repo
    && (if q.exact then c.key == q.key else q.key <= c.key)
    && c.version == q.version
    && c.complete == q.complete
  }

  /** Complete entries rank by when they were written, reservations by when they were last touched. */
  function Rank(q: Query, c: Cache): int {
    if q.complete then c.createdAt else c.usedAt
  }

  predicate HasMatch(t: Table, q: Query) {
    exists i | i in t :: Matches(q, t[i])
  }

  /** pick is an answer a sorted query may give. Which of several records of equal rank it returns is
      up to the table library, so any of them is allowed. */
  predicate IsBest(t: Table, q: Query, pick: Option<nat>) {
    match pick
    case None => !HasMatch(t, q)
    case Some(i) =>
      i in t && Matches(q, t[i]) && forall j | j in t && Matches(q, t[j]) :: Rank(q, t[j]) <= Rank(q, t[i])
  }

  /** pick is an answer the key list may give: for the first key with a match, the best exact match
      if there is one and else the best prefix match. */
  predicate Finds(t: Table, repo: string, keys: seq<string>, version: string, pick: Option<nat>) {
    if keys == [] then pick == None else
      var exact := Query(repo, keys[0], version, true, true);
      var prefix := exact.(exact := false);
      if HasMatch(t, exact) then IsBest(t, exact, pick)
      else if HasMatch(t, prefix) then IsBest(t, prefix, pick)
      else Finds(t, repo, keys[1..], version, pick)
  }

  /** Whatever a key list finds is a complete entry of that repository and version. */
  lemma {:induction false} FindsEligible(t: Table, repo: string, keys: seq<string>, version: string, i: nat)
    requires Finds(t, repo, keys, version, Some(i))
    ensures i in t && t[i].repo == repo && t[i].version == version && t[i].complete
  {
    var exact := Query(repo, keys[0], version, true, true);
    if !HasMatch(t, exact) && !HasMatch(t, exact.(exact := false)) {
      FindsEligible(t, repo, keys[1..], version, i);
    }
  }

  // ---------------------------------------------------------------- garbage collection

  predicate CollectDue(s: Store, now: int) {
    s.gcAt == None || now - s.gcAt.value >= GC_INTERVAL
  }

  /** Removes entries with their blobs and staged files. */
  function Sweep(s: Store, ids: set<nat>): Store {
    s.(table := s.table - ids, disk := Disk(s.disk.blobs - ids, s.disk.tmp - ids))
  }

  function Abandoned(t: Table, now: int): set<nat> {
    set i | i in t && t[i].usedAt < now - KEEP_TEMP && !t[i].complete
  }

  function Unused(t: Table, now: int): set<nat> {
    set i | i in t && t[i].usedAt < now - KEEP_UNUSED
  }

  function TooOld(t: Table, now: int): set<nat> {
    set i | i in t && t[i].createdAt < now - KEEP_USED
  }

  /** The state after the first three passes. */
  function Aged(s: Store, now: int): Store {
    var s1 := Sweep(s, Abandoned(s.table, now));
    var s2 := Sweep(s1, Unused(s1.table, now));
    Sweep(s2, TooOld(s2.table, now))
  }

  datatype Group = Group(repo: string, key: string, version: string)

  function GroupOf(c: Cache): Group {
    Group(c.repo, c.key, c.version)
  }

  predicate SameGroup(a: Cache, b: Cache) {
    GroupOf(a) == GroupOf(b)
  }

  /** keep holds, of every group of complete entries, exactly one, and it was created last. */
  predicate KeepsLatest(t: Table, keep: set<nat>) {
    && (forall k | k in keep :: k in t && t[k].complete)
    && (forall i | i in t && t[i].complete :: HasKeeper(t, keep, i))
    && (forall k1, k2 | k1 in keep && k2 in keep && k1 in t && k2 in t && SameGroup(t[k1], t[k2]) :: k1 == k2)
  }

  predicate HasKeeper(t: Table, keep: set<nat>, i: nat)
    requires i in t
  {
    exists k | k in keep :: k in t && SameGroup(t[k], t[i]) && t[i].createdAt <= t[k].createdAt
  }

  /** Entries with a later one of the same key that have not been used for a while. */
  function Superseded(t: Table, now: int, keep: set<nat>): set<nat> {
    set i | i in t && t[i].complete && i !in keep && now - t[i].usedAt >= KEEP_OLD
  }

  function Collected(s: Store, now: int, keep: set<nat>): Store {
    var s3 := Aged(s, now);
    Sweep(s3, Superseded(s3.table, now, keep)).(gcAt := Some(now))
  }

  // ---------------------------------------------------------------- requests

  /** Requests with a `repo` carry the repository of the job's credential; the others carry a signed id.
      `Collect` is the garbage collector, `LoseBlob` the environment deleting a file. */
  datatype Request =
    | Find(repo: string, keys: seq<string>, version: string)
    | Reserve(repo: string, key: string, version: string, size: int)
    | Upload(repo: string, id: int, start: Option<Offset>, body: Bytes)
    | Commit(repo: string, id: int)
    | Create(repo: string, key: string, version: string)
    | Finalize(repo: string, key: string, version: string, size: int)
    | PutBlob(sid: nat, body: Bytes)
    | PutBlock(sid: nat, blockId: string, body: Bytes)
    | PutBlockList(sid: nat, blockIds: Option<seq<string>>)
    | Get(sid: nat)
    | Collect
    | LoseBlob(sid: nat)

  /** A request at a time, with the outcome of every tie the table library breaks: the record a query
      returns, and the record of each group the collector regards as the latest. */
  datatype Event = Event(req: Request, now: int, pick: Option<nat>, keep: set<nat>)

  datatype Answer =
    | Hit(id: nat, key: string)
    | Miss
    | Reserved(id: nat)
    | Finalized(id: nat)
    | Done
    | NotOk
    | NotReserved
    | Forbidden
    | AlreadyComplete
    | BadRequest
    | Failed
    | Blob(body: Bytes)
    | NoBlob

  function Insert(s: Store, repo: string, key: string, version: string, size: int, now: int): Store {
    var id := s.nextId + 1;
    s.(table := s.table[id := Cache(id, repo, key, version, size, false, now, now)],
       nextId := id,
       owner := s.owner[id := repo])
  }

  function Touch(s: Store, id: nat, now: int): Store {
    if id in s.table then s.(table := s.table[id := s.table[id].(usedAt := now)]) else s
  }

  function CommitEntry(s: Store, id: nat, size: int): (Store, bool)
    requires id in s.table
  {
    var (disk, r) := Committed(s.disk, id, size);
    match r
    case Err(_) => (s.(disk := disk), false)
    case Ok(n) => (s.(disk := disk, table := s.table[id := s.table[id].(size := n, complete := true)]), true)
  }

  /** What the environment guarantees of an event: ties are broken among equals, and a signed id was
      issued. */
  predicate Legal(s: Store, e: Event) {
    match e.req
    case Find(repo, keys, version) => Finds(s.table, repo, keys, version, e.pick)
    case Finalize(repo, key, version, _) => IsBest(s.table, Query(repo, key, version, true, false), e.pick)
    case PutBlob(id, _) => id in s.owner
    case PutBlock(id, _, _) => id in s.owner
    case PutBlockList(id, ids) => id in s.owner && (ids.Some? ==> |ids.value| < 0x8000_0000_0000_0000)
    case Get(id) => id in s.owner
    case Collect => CollectDue(s, e.now) ==> KeepsLatest(Aged(s, e.now).table, e.keep)
    case _ => true
  }

  function Apply(s: Store, e: Event): (Store, Answer)
    requires Legal(s, e)
  {
    match e.req
    case Find(repo, keys, version) =>
      (match e.pick
       case None => (s, Miss)
       case Some(i) =>
         FindsEligible(s.table, repo, keys, version, i);
         if i in s.disk.blobs then (s, Hit(i, s.table[i].key)) else (s.(table := s.table - {i}), Miss))
    case Reserve(repo, key, version, size) =>
      (Insert(s, repo, key, version, if size == 0 then -1 else size, e.now), Reserved(s.nextId + 1))
    case Upload(repo, id, start, body) =>
      if id < 0 || id !in s.table then (s, NotReserved)
      else if s.table[id].repo != repo then (s, Forbidden)
      else if s.table[id].complete then (s, AlreadyComplete)
      else if start == None then (s, BadRequest)
      else (Touch(s.(disk := WithFile(s.disk, id, PartFile(start.value), body)), id, e.now), Done)
    case Commit(repo, id) =>
      if id < 0 || id !in s.table then (s, NotReserved)
      else if s.table[id].repo != repo then (s, Forbidden)
      else if s.table[id].complete then (s, AlreadyComplete)
      else
        var (s', ok) := CommitEntry(s, id, s.table[id].size);
        (s', if ok then Done else Failed)
    case Create(repo, key, version) =>
      if key == "" || version == "" then (s, BadRequest)
      else if HasMatch(s.table, Query(repo, key, version, true, true)) then (s, NotOk)
      else (Insert(s, repo, key, version, -1, e.now), Reserved(s.nextId + 1))
    case Finalize(repo, key, version, size) =>
      (match e.pick
       case None => (s, NotOk)
       case Some(i) =>
         var (s', ok) := CommitEntry(s, i, size);
         (s', if ok then Finalized(i) else NotOk))
    case PutBlob(id, body) =>
      if id in s.table && s.table[id].complete then (s, BadRequest)
      else (Touch(s.(disk := WithFile(s.disk, id, PartFile(0), body)), id, e.now), Done)
    case PutBlock(id, blockId, body) =>
      if id in s.table && s.table[id].complete then (s, BadRequest)
      else if blockId == "" then (Touch(s, id, e.now), BadRequest)
      else (Touch(s.(disk := WithFile(s.disk, id, BlockFile(blockId), body)), id, e.now), Done)
    case PutBlockList(id, blockIds) =>
      if id in s.table && s.table[id].complete then (s, BadRequest)
      else if blockIds == None then (Touch(s, id, e.now), BadRequest)
      else
        var (disk, ok) := WithBlocksOrdered(s.disk, id, blockIds.value);
        (Touch(s.(disk := disk), id, e.now), if ok then Done else Failed)
    case Get(id) =>
      (Touch(s, id, e.now), if id in s.disk.blobs then Blob(s.disk.blobs[id]) else NoBlob)
    case Collect =>
      (if CollectDue(s, e.now) then Collected(s, e.now, e.keep) else s, Done)
    case LoseBlob(id) =>
      (s.(disk := s.disk.(blobs := s.disk.blobs - {id})), Done)
  }

  // ---------------------------------------------------------------- runs

  predicate LegalRun(s: Store, run: seq<Event>)
    decreases |run|
  {
    run == [] || (Legal(s, run[0]) && LegalRun(Apply(s, run[0]).0, run[1..]))
  }

  /** The state after a run, and the answers it gave. */
  function Play(s: Store, run: seq<Event>): (Store, seq<Answer>)
    requires LegalRun(s, run)
    decreases |run|
  {
    if run == [] then (s, []) else
      var (s1, a) := Apply(s, run[0]);
      var (s2, rest) := Play(s1, run[1..]);
      (s2, [a] + rest)
  }
}
