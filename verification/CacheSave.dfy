/** What is saved under a key is what is restored under it. */
module CacheSave {
  import opened Basics
  import opened Storage
  import opened CacheModel
  import opened CacheInvariant
  import opened CacheLookup
  import opened CacheUpload

  /** The entry of this id is for this repository, key and version. */
  ghost predicate IsFor(s: Store, id: nat, repo: string, key: string, version: string) {
    id in s.table && s.table[id].repo == repo && s.table[id].key == key && s.table[id].version == version
  }

  /** From s to s' one open entry was added, under an id that was never issued, and nothing else changed. */
  ghost predicate Opens(s: Store, s': Store, id: nat, repo: string, key: string, version: string, size: int, now: int) {
    && id !in s.owner && id !in s.disk.tmp && s'.disk == s.disk && s'.gcAt == s.gcAt
    && IsFor(s', id, repo, key, version) && IsOpen(s', id, repo, size)
    && s'.table[id].createdAt == now && s'.table[id].usedAt == now
    && s'.table == s.table[id := s'.table[id]]
  }

  /** A reservation is always granted. A declared size of zero is an unknown one. */
  lemma ReserveOpens(s: Store, e: Event, repo: string, key: string, version: string, size: int)
    requires Inv(s) && e.req == Reserve(repo, key, version, size)
    ensures var (s', answer) := Apply(s, e);
            answer.Reserved? && Opens(s, s', answer.id, repo, key, version, if size == 0 then -1 else size, e.now)
  {
    assert s.nextId + 1 !in s.owner && s.nextId + 1 !in s.disk.tmp;
  }

  /** A create with a key and a version is refused exactly when that very key is there already; else it
      reserves. */
  lemma CreateOpens(s: Store, e: Event, repo: string, key: string, version: string)
    requires Inv(s) && e.req == Create(repo, key, version)
    ensures var (s', answer) := Apply(s, e);
            if key == "" || version == "" then answer == BadRequest && s' == s
            else
              && (answer == NotOk <==> KeyIsThere(s.table, repo, key, version))
              && (if answer == NotOk then s' == s
                  else answer.Reserved? && Opens(s, s', answer.id, repo, key, version, -1, e.now))
  {
    assert s.nextId + 1 !in s.owner && s.nextId + 1 !in s.disk.tmp;
    var q := Query(repo, key, version, true, true);
    if KeyIsThere(s.table, repo, key, version) {
      var i :| i in s.table && Eligible(s.table[i], repo, version) && s.table[i].key == key;
      assert Matches(q, s.table[i]);
    }
    if HasMatch(s.table, q) {
      var i :| i in s.table && Matches(q, s.table[i]);
      assert Eligible(s.table[i], repo, version);
    }
  }

  /** The event reserves an entry of this id for this repository, key and version. */
  ghost predicate Saves(s: Store, e: Event, id: nat, repo: string, key: string, version: string) {
    && (e.req == Create(repo, key, version) || (e.req.Reserve? && e.req == Reserve(repo, key, version, e.req.size)))
    && Apply(s, e).1 == Reserved(id)
  }

  function DeclaredSize(e: Event): int {
    if e.req.Reserve? && e.req.size != 0 then e.req.size else -1
  }

  /** Every answer the key list may give is this entry. */
  ghost predicate SurelyFinds(t: Table, repo: string, keys: seq<string>, version: string, id: nat) {
    forall pick | Finds(t, repo, keys, version, pick) :: pick == Some(id)
  }

  /** Every other complete entry of its key and version was created before it. */
  ghost predicate IsLatest(t: Table, id: nat)
    requires id in t
  {
    forall j | j in t && j != id && t[j].complete && SameGroup(t[j], t[id]) :: t[j].createdAt < t[id].createdAt
  }

  /** A lookup whose first key is a complete entry's own is sure to find that entry exactly when it is the
      latest of its key and version. */
  lemma LookupTakes(t: Table, repo: string, key: string, version: string, keys: seq<string>, id: nat)
    requires id in t && t[id].complete && GroupOf(t[id]) == Group(repo, key, version)
    ensures SurelyFinds(t, repo, [key] + keys, version, id) <==> IsLatest(t, id)
  {
    var q := Query(repo, key, version, true, true);
    forall pick ensures Finds(t, repo, [key] + keys, version, pick) == IsBest(t, q, pick) {
      assert ([key] + keys)[0] == key && Matches(q, t[id]);
    }
    hide IsBest, Finds;
    forall j | j in t ensures Matches(q, t[j]) == (t[j].complete && SameGroup(t[j], t[id])) {}
    BestIsLatest(t, q, id);
  }

  lemma BestIsLatest(t: Table, q: Query, id: nat)
    requires id in t && Matches(q, t[id]) && q.complete
    ensures (forall pick | IsBest(t, q, pick) :: pick == Some(id)) <==>
            forall j | j in t && j != id && Matches(q, t[j]) :: t[j].createdAt < t[id].createdAt
  {
    BestExists(t, q);
    hide Matches;
    if forall pick | IsBest(t, q, pick) :: pick == Some(id) {
      assert IsBest(t, q, Some(id));
      forall j | j in t && j != id && Matches(q, t[j]) ensures t[j].createdAt < t[id].createdAt {
        assert t[j].createdAt >= t[id].createdAt ==> IsBest(t, q, Some(j));
      }
    }
    if forall j | j in t && j != id && Matches(q, t[j]) :: t[j].createdAt < t[id].createdAt {
      forall pick | IsBest(t, q, pick) ensures pick == Some(id) {
        assert HasMatch(t, q);
        assert Rank(q, t[id]) <= Rank(q, t[pick.value]);
      }
    }
  }

  /** A hit names an entry that has its blob, and its key. A miss means that no key matches any entry, or
      that the optimal one has lost its blob: then it is dropped, so that the next lookup passes it over. */
  lemma FindAnswers(s: Store, e: Event, repo: string, keys: seq<string>, version: string)
    requires e.req == Find(repo, keys, version) && Legal(s, e)
    ensures var (s', answer) := Apply(s, e);
            match e.pick
            case None =>
              answer == Miss && s' == s && forall n | 0 <= n < |keys| :: !KeyMatches(s.table, repo, keys[n], version)
            case Some(i) =>
              && IsOptimal(s.table, repo, keys, version, i) && i in s.table
              && if i in s.disk.blobs then answer == Hit(i, s.table[i].key) && s' == s
                 else answer == Miss && s'.table == s.table - {i} && s' == s.(table := s'.table)
  {
    if e.pick.Some? { FindsEligible(s.table, repo, keys, version, e.pick.value); }
    hide IsOptimal;
    LookupIsOptimal(s.table, repo, keys, version, e.pick);
  }

  /** The event completes the entry, and what is staged is of a size it accepts. */
  predicate Completes(e: Event, id: nat, repo: string, declared: int, n: nat) {
    match e.req
    case Commit(r, i) => r == repo && i == id && (declared < 0 || declared == n)
    case Finalize(_, _, _, size) => e.pick == Some(id) && (size < 0 || size == n)
    case _ => false
  }

  lemma CompletedServes(s: Store, e: Event, id: nat, repo: string, declared: int, A: Bytes)
    requires IsOpen(s, id, repo, declared) && id in s.disk.tmp && Assembled(s.disk.tmp[id]) == A
    requires Legal(s, e) && Completes(e, id, repo, declared, |A|)
    ensures Apply(s, e).1 in {Done, Finalized(id)} && Serves(Apply(s, e).0, id, A)
  {
    hide Assembled, Legal, Apply, Serves;
    match e.req {
      case Commit(_, _) => CommitAnswers(s, e, id, repo, declared, A);
      case Finalize(_, _, _, size) => FinalizeAnswers(s, e, id, size, A);
    }
  }

  lemma SaveOpens(s: Store, save: Event, id: nat, repo: string, key: string, version: string)
    requires Inv(s) && Legal(s, save) && Saves(s, save, id, repo, key, version)
    ensures Opens(s, Apply(s, save).0, id, repo, key, version, DeclaredSize(save), save.now)
  {
    hide Inv, Apply, Opens, Legal;
    if save.req.Create? {
      CreateOpens(s, save, repo, key, version);
    } else {
      ReserveOpens(s, save, repo, key, version, save.req.size);
    }
  }

  /** What is kept from the reservation on. */
  lemma StaysFor(s: Store, s': Store, id: nat, repo: string, key: string, version: string, now: int)
    requires Inv(s) && Preserves(s, s') && id in s'.table
    requires IsFor(s, id, repo, key, version) && s.table[id].createdAt == now
    ensures IsFor(s', id, repo, key, version) && s'.table[id].createdAt == now
  {
  }

  lemma StaysServed(s: Store, s': Store, id: nat, A: Bytes)
    requires Serves(s, id, A) && Preserves(s, s') && id in s'.table && id in s'.disk.blobs
    ensures Serves(s', id, A)
  {
  }

  lemma FoundIsHit(s: Store, find: Event, id: nat, repo: string, key: string, version: string, keys: seq<string>)
    requires IsFor(s, id, repo, key, version) && s.table[id].complete && id in s.disk.blobs
    requires IsLatest(s.table, id)
    requires find.req == Find(repo, [key] + keys, version) && Legal(s, find)
    ensures Apply(s, find).1 == Hit(id, key)
  {
    LookupTakes(s.table, repo, key, version, keys, id);
    hide Finds;
    assert find.pick == Some(id);
  }

  lemma DownloadIsBlob(s: Store, id: nat, A: Bytes)
    requires Inv(s) && Serves(s, id, A)
    ensures forall get: Event | get.req == Get(id) :: Legal(s, get) && Apply(s, get).1 == Blob(A)
  {
  }

  /** Save and restore: an entry is reserved, written while other requests run, and completed; and whatever
      runs after that, while the entry is not collected, its blob not lost and no entry of the same key that
      was created later or at the same time is complete, a lookup for the key answers with this entry, and
      downloading it gives what was written. */
  lemma SavedIsRestored(s: Store, save: Event, run: seq<Event>, complete: Event, more: seq<Event>, find: Event,
                        id: nat, repo: string, key: string, version: string, keys: seq<string>, A: Bytes)
    requires Inv(s) && Legal(s, save) && Saves(s, save, id, repo, key, version)
    requires var s1 := Apply(s, save).0;
             && LegalRun(s1, run) && (forall e | e in run :: LeavesOpen(e, id, repo))
             && id in Play(s1, run).0.table && Legal(Play(s1, run).0, complete)
             && LegalRun(Apply(Play(s1, run).0, complete).0, more)
    requires StagedBy(map[], run, id, repo) != map[] && Assembled(StagedBy(map[], run, id, repo)) == A
    requires Completes(complete, id, repo, DeclaredSize(save), |A|)
    requires var s4 := Play(Apply(Play(Apply(s, save).0, run).0, complete).0, more).0;
             && id in s4.table && id in s4.disk.blobs
             && IsLatest(s4.table, id) && find.req == Find(repo, [key] + keys, version) && Legal(s4, find)
    ensures var s4 := Play(Apply(Play(Apply(s, save).0, run).0, complete).0, more).0;
            && Apply(s4, find).1 == Hit(id, key)
            && IsFor(s4, id, repo, key, version) && s4.table[id].createdAt == save.now && Serves(s4, id, A)
            && forall get: Event | get.req == Get(id) :: Legal(s4, get) && Apply(s4, get).1 == Blob(A)
  {
    var s1 := Apply(s, save).0;
    var s2 := Play(s1, run).0;
    var s3 := Apply(s2, complete).0;
    var s4 := Play(s3, more).0;
    SaveOpens(s, save, id, repo, key, version);
    StepKeeps(s, save);
    OpenRun(s1, run, id, repo, DeclaredSize(save));
    RunKeeps(s1, run);
    CompletedServes(s2, complete, id, repo, DeclaredSize(save), A);
    StepKeeps(s2, complete);
    RunKeeps(s3, more);
    hide Legal, LegalRun, Play, Apply, Assembled, StagedBy, LeavesOpen, Saves, Completes, DeclaredSize, Inv, Preserves;
    StaysFor(s1, s2, id, repo, key, version, save.now);
    StaysFor(s2, s3, id, repo, key, version, save.now);
    StaysFor(s3, s4, id, repo, key, version, save.now);
    StaysServed(s3, s4, id, A);
    FoundIsHit(s4, find, id, repo, key, version, keys);
    DownloadIsBlob(s4, id, A);
  }
}
