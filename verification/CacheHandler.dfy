/** The cache server's handlers, updating the table and the blob store in place. Each is proved to be
    one step of the state machine in CacheModel. */
module CacheHandler {
  import opened Basics
  import opened Storage
  import opened CacheModel
  import CacheLookup

  class Handler {
    var table: Table
    var nextId: nat
    var gcAt: Option<int>
    const storage: BlobStore
    ghost var owner: map<nat, string>

    constructor ()
      ensures State() == EMPTY
      ensures fresh(storage)
    {
      table, nextId, gcAt, owner := map[], 0, None, map[];
      storage := new BlobStore();
    }

    ghost function State(): Store
      reads this, storage
    {
      Store(table, nextId, storage.Value(), gcAt, owner)
    }

    // -------------------------------------------------------------- queries

    /** Returns a record of highest rank among those that match, if any does. */
    method FindOne(q: Query) returns (pick: Option<nat>)
      ensures IsBest(table, q, pick)
    {
      pick := None;
      var rest := table.Keys;
      while rest != {}
        invariant rest <= table.Keys
        invariant match pick
                  case None => forall j | j in table && j !in rest :: !Matches(q, table[j])
                  case Some(i) =>
                    i in table && Matches(q, table[i]) &&
                    forall j | j in table && j !in rest && Matches(q, table[j]) ::
                      Rank(q, table[j]) <= Rank(q, table[i])
      {
        var i :| i in rest;
        rest := rest - {i};
        if Matches(q, table[i]) && (pick == None || Rank(q, table[pick.value]) < Rank(q, table[i])) {
          pick := Some(i);
        }
      }
    }

    method FindExactCache(repo: string, key: string, version: string, complete: bool) returns (pick: Option<nat>)
      ensures IsBest(table, Query(repo, key, version, true, complete), pick)
    {
      pick := FindOne(Query(repo, key, version, true, complete));
    }

    /** The entry to restore for a key list: optimal if any key matches anything, else none. */
    method FindCache(repo: string, keys: seq<string>, version: string) returns (pick: Option<nat>)
      ensures Finds(table, repo, keys, version, pick)
      ensures match pick
              case None => forall n | 0 <= n < |keys| :: !CacheLookup.KeyMatches(table, repo, keys[n], version)
              case Some(i) => CacheLookup.IsOptimal(table, repo, keys, version, i)
    {
      for n := 0 to |keys|
        invariant forall p :: Finds(table, repo, keys[n..], version, p) <==> Finds(table, repo, keys, version, p)
      {
        assert keys[n..][0] == keys[n] && keys[n..][1..] == keys[n + 1..];
        pick := FindExactCache(repo, keys[n], version, true);
        if pick != None {
          CacheLookup.LookupIsOptimal(table, repo, keys, version, pick);
          return;
        }
        pick := FindOne(Query(repo, keys[n], version, false, true));
        if pick != None {
          CacheLookup.LookupIsOptimal(table, repo, keys, version, pick);
          return;
        }
      }
      pick := None;
      CacheLookup.LookupIsOptimal(table, repo, keys, version, pick);
    }

    // -------------------------------------------------------------- records

    method InsertCache(repo: string, key: string, version: string, size: int, now: int) returns (id: nat)
      modifies this
      ensures State() == Insert(old(State()), repo, key, version, size, now)
      ensures id == old(nextId) + 1
    {
      nextId := nextId + 1;
      id := nextId;
      table := table[id := Cache(id, repo, key, version, size, false, now, now)];
      owner := owner[id := repo];
    }

    /** Stamps the entry as used; with requireIncomplete, refuses one that is complete. */
    method TouchCache(id: nat, now: int, requireIncomplete: bool) returns (ok: bool)
      modifies this
      ensures ok <==> !(requireIncomplete && id in old(table) && old(table)[id].complete)
      ensures State() == if ok then Touch(old(State()), id, now) else old(State())
    {
      if id !in table {
        return true;
      }
      if requireIncomplete && table[id].complete {
        return false;
      }
      table := table[id := table[id].(usedAt := now)];
      ok := true;
    }

    method CommitCache(id: nat, size: int) returns (ok: bool)
      requires id in table
      modifies this, storage
      ensures (State(), ok) == CommitEntry(old(State()), id, size)
    {
      var r := storage.Commit(id, size);
      if r.Err? {
        return false;
      }
      table := table[id := table[id].(size := r.value, complete := true)];
      ok := true;
    }

    // -------------------------------------------------------------- v1 requests

    /** Also the v2 download request, whose key list is its key followed by the restore keys. */
    method Find(repo: string, keys: seq<string>, version: string, now: int) returns (answer: Answer, ghost e: Event)
      modifies this
      ensures e.req == Request.Find(repo, keys, version) && e.now == now
      ensures Legal(old(State()), e) && (State(), answer) == Apply(old(State()), e)
    {
      var pick := FindCache(repo, keys, version);
      e := Event(Request.Find(repo, keys, version), now, pick, {});
      if pick == None {
        return Miss, e;
      }
      FindsEligible(table, repo, keys, version, pick.value);
      var ok := storage.Exist(pick.value);
      if !ok {
        table := table - {pick.value};
        return Miss, e;
      }
      answer := Hit(pick.value, table[pick.value].key);
    }

    method Reserve(repo: string, key: string, version: string, size: int, now: int) returns (answer: Answer)
      modifies this
      ensures (State(), answer) == Apply(old(State()), Event(Request.Reserve(repo, key, version, size), now, None, {}))
    {
      var id := InsertCache(repo, key, version, if size == 0 then -1 else size, now);
      answer := Reserved(id);
    }

    /** `start` is what the Content-Range header parses to, if it does. */
    method Upload(repo: string, id: int, start: Option<Offset>, body: Bytes, now: int) returns (answer: Answer)
      modifies this, storage
      ensures (State(), answer) == Apply(old(State()), Event(Request.Upload(repo, id, start, body), now, None, {}))
    {
      if id < 0 || id !in table {
        return NotReserved;
      }
      if table[id].repo != repo {
        return Forbidden;
      }
      if table[id].complete {
        return AlreadyComplete;
      }
      if start == None {
        return BadRequest;
      }
      storage.Write(id, start.value, body);
      var _ := TouchCache(id, now, false);
      answer := Done;
    }

    method Commit(repo: string, id: int, now: int) returns (answer: Answer)
      modifies this, storage
      ensures (State(), answer) == Apply(old(State()), Event(Request.Commit(repo, id), now, None, {}))
    {
      if id < 0 || id !in table {
        return NotReserved;
      }
      if table[id].repo != repo {
        return Forbidden;
      }
      if table[id].complete {
        return AlreadyComplete;
      }
      var ok := CommitCache(id, table[id].size);
      answer := if ok then Done else Failed;
    }

    method Get(id: nat, now: int) returns (answer: Answer)
      requires id in owner
      modifies this
      ensures (State(), answer) == Apply(old(State()), Event(Request.Get(id), now, None, {}))
    {
      var _ := TouchCache(id, now, false);
      answer := if id in storage.blobs then Blob(storage.blobs[id]) else NoBlob;
    }

    // -------------------------------------------------------------- v2 requests

    method CreateEntry(repo: string, key: string, version: string, now: int) returns (answer: Answer)
      modifies this
      ensures (State(), answer) == Apply(old(State()), Event(Request.Create(repo, key, version), now, None, {}))
    {
      if key == "" || version == "" {
        return BadRequest;
      }
      var existing := FindExactCache(repo, key, version, true);
      if existing != None {
        assert HasMatch(table, Query(repo, key, version, true, true));
        return NotOk;
      }
      var id := InsertCache(repo, key, version, -1, now);
      answer := Reserved(id);
    }

    method FinalizeUpload(repo: string, key: string, version: string, size: int, now: int)
        returns (answer: Answer, ghost e: Event)
      modifies this, storage
      ensures e.req == Request.Finalize(repo, key, version, size) && e.now == now
      ensures Legal(old(State()), e) && (State(), answer) == Apply(old(State()), e)
    {
      var pick := FindExactCache(repo, key, version, false);
      e := Event(Request.Finalize(repo, key, version, size), now, pick, {});
      if pick == None {
        return NotOk, e;
      }
      var ok := CommitCache(pick.value, size);
      answer := if ok then Finalized(pick.value) else NotOk;
    }

    method UploadBlob(id: nat, body: Bytes, now: int) returns (answer: Answer)
      requires id in owner
      modifies this, storage
      ensures (State(), answer) == Apply(old(State()), Event(PutBlob(id, body), now, None, {}))
    {
      var ok := TouchCache(id, now, true);
      if !ok {
        return BadRequest;
      }
      storage.Write(id, 0, body);
      answer := Done;
    }

    method UploadBlock(id: nat, blockId: string, body: Bytes, now: int) returns (answer: Answer)
      requires id in owner
      modifies this, storage
      ensures (State(), answer) == Apply(old(State()), Event(PutBlock(id, blockId, body), now, None, {}))
    {
      var ok := TouchCache(id, now, true);
      if !ok {
        return BadRequest;
      }
      if blockId == "" {
        return BadRequest;
      }
      storage.WriteBlock(id, blockId, body);
      answer := Done;
    }

    /** `blockIds` is what the request body decodes to, if it does. */
    method UploadBlockList(id: nat, blockIds: Option<seq<string>>, now: int) returns (answer: Answer)
      requires id in owner
      requires blockIds.Some? ==> |blockIds.value| < 0x8000_0000_0000_0000
      modifies this, storage
      ensures (State(), answer) == Apply(old(State()), Event(PutBlockList(id, blockIds), now, None, {}))
    {
      var ok := TouchCache(id, now, true);
      if !ok {
        return BadRequest;
      }
      if blockIds == None {
        return BadRequest;
      }
      var ordered := storage.OrderBlocks(id, blockIds.value);
      answer := if ordered then Done else Failed;
    }

    // -------------------------------------------------------------- garbage collection

    /** Removes these entries one by one, each with its files. */
    method RemoveEntries(ids: set<nat>)
      modifies this, storage
      ensures State() == Sweep(old(State()), ids)
    {
      hide Sweep, Without;
      var rest := ids;
      ghost var gone := {};
      SweepNone(State());
      while rest != {}
        invariant rest + gone == ids
        invariant State() == Sweep(old(State()), gone)
      {
        var i :| i in rest;
        storage.Remove(i);
        table := table - {i};
        SweepMore(old(State()), gone, i);
        rest := rest - {i};
        gone := gone + {i};
      }
      assert gone == ids;
    }

    /** The member of a group that was created last. */
    method Latest(group: set<nat>) returns (latest: nat)
      requires group != {} && group <= table.Keys
      ensures latest in group && forall i | i in group :: table[i].createdAt <= table[latest].createdAt
    {
      latest :| latest in group;
      var rest := group - {latest};
      while rest != {}
        invariant rest <= group && latest in group
        invariant forall i | i in group - rest :: table[i].createdAt <= table[latest].createdAt
      {
        var i :| i in rest;
        rest := rest - {i};
        if table[latest].createdAt < table[i].createdAt {
          latest := i;
        }
      }
    }

    /** One group of the same-key pass. Its latest entry is kept. */
    method RemoveSupersededIn(g: Group, now: int) returns (latest: nat)
      requires Members(table, g) != {}
      modifies this, storage
      ensures latest in Members(old(table), g)
      ensures forall i | i in Members(old(table), g) :: old(table)[i].createdAt <= old(table)[latest].createdAt
      ensures State() == Sweep(old(State()), SupersededIn(old(table), now, g, latest))
    {
      var group := Members(table, g);
      latest := Latest(group);
      RemoveEntries(SupersededIn(table, now, g, latest));
    }

    /** The same-key pass: of each group of complete entries all but the latest, unless used lately. */
    method RemoveSuperseded(now: int) returns (ghost keep: set<nat>)
      modifies this, storage
      ensures KeepsLatest(old(table), keep)
      ensures State() == Sweep(old(State()), Superseded(old(table), now, keep))
    {
      ghost var t := table;
      var groups := set i | i in table && table[i].complete :: GroupOf(table[i]);
      keep := {};
      ghost var gone := {};
      NoGroupsDone(t, now);
      hide GroupsDone, SupersededOutside, SupersededIn, Members;
      while groups != {}
        invariant State() == Sweep(old(State()), gone)
        invariant gone == SupersededOutside(t, now, keep, groups)
        invariant GroupsDone(t, groups, keep)
      {
        var g :| g in groups;
        RemainingMembers(t, now, keep, groups, gone, g);
        assert table == t - gone;
        var latest := RemoveSupersededIn(g, now);
        ghost var superseded := SupersededIn(t, now, g, latest);
        SweepTwice(old(State()), gone, superseded);
        GroupDone(t, groups, keep, g, latest);
        SupersededGrows(t, now, keep, groups, g, latest);
        groups := groups - {g};
        keep := keep + {latest};
        gone := gone + superseded;
      }
      AllGroupsDone(t, now, keep);
    }

    /** The three passes by age. */
    method RemoveAged(now: int)
      modifies this, storage
      ensures State() == Aged(old(State()), now)
    {
      hide Sweep;
      RemoveEntries(set i | i in table && table[i].usedAt < now - KEEP_TEMP && !table[i].complete);
      RemoveEntries(set i | i in table && table[i].usedAt < now - KEEP_UNUSED);
      RemoveEntries(set i | i in table && table[i].createdAt < now - KEEP_USED);
    }

    method GcCache(now: int) returns (ghost e: Event)
      modifies this, storage
      ensures e.req == Collect && e.now == now
      ensures Legal(old(State()), e) && (State(), Done) == Apply(old(State()), e)
    {
      if gcAt != None && now - gcAt.value < GC_INTERVAL {
        return Event(Collect, now, None, {});
      }
      hide Sweep, Superseded, KeepsLatest, Aged;
      ghost var s := State();
      gcAt := Some(now);
      RemoveAged(now);
      AgedStamped(s, now);
      ghost var keep := RemoveSuperseded(now);
      SweepStamped(Aged(s, now), Superseded(Aged(s, now).table, now, keep), now);
      e := Event(Collect, now, None, keep);
    }
  }

  lemma SweepNone(s: Store)
    ensures Sweep(s, {}) == s
  {
    assert s.table - {} == s.table && s.disk.blobs - {} == s.disk.blobs && s.disk.tmp - {} == s.disk.tmp;
  }

  lemma SweepMore(s: Store, ids: set<nat>, i: nat)
    ensures var swept := Sweep(s, ids);
            Sweep(s, ids + {i}) == swept.(table := swept.table - {i}, disk := Without(swept.disk, i))
  {
    assert s.table - (ids + {i}) == s.table - ids - {i};
    assert s.disk.blobs - (ids + {i}) == s.disk.blobs - ids - {i};
    assert s.disk.tmp - (ids + {i}) == s.disk.tmp - ids - {i};
  }

  lemma SweepStamped(s: Store, ids: set<nat>, now: int)
    ensures Sweep(s.(gcAt := Some(now)), ids) == Sweep(s, ids).(gcAt := Some(now))
  {
  }

  /** The three passes by age do not look at the time of the last collection. */
  lemma AgedStamped(s: Store, now: int)
    ensures Aged(s.(gcAt := Some(now)), now) == Aged(s, now).(gcAt := Some(now))
  {
  }

  lemma SweepTwice(s: Store, a: set<nat>, b: set<nat>)
    ensures Sweep(Sweep(s, a), b) == Sweep(s, a + b)
  {
    assert s.table - a - b == s.table - (a + b);
    assert s.disk.blobs - a - b == s.disk.blobs - (a + b);
    assert s.disk.tmp - a - b == s.disk.tmp - (a + b);
  }

  function Members(t: Table, g: Group): set<nat> {
    set i | i in t && t[i].complete && GroupOf(t[i]) == g
  }

  function SupersededIn(t: Table, now: int, g: Group, latest: nat): set<nat> {
    set i | i in t && t[i].complete && GroupOf(t[i]) == g && i != latest && now - t[i].usedAt >= KEEP_OLD
  }

  /** keep holds the latest of every group of complete entries other than these. */
  ghost predicate GroupsDone(t: Table, groups: set<Group>, keep: set<nat>) {
    && (forall g | g in groups :: Members(t, g) != {})
    && (forall k | k in keep :: k in t && t[k].complete && GroupOf(t[k]) !in groups)
    && (forall i | i in t && t[i].complete && GroupOf(t[i]) !in groups :: HasKeeper(t, keep, i))
    && (forall k1, k2 | k1 in keep && k2 in keep && GroupOf(t[k1]) == GroupOf(t[k2]) :: k1 == k2)
  }

  function SupersededOutside(t: Table, now: int, keep: set<nat>, groups: set<Group>): set<nat> {
    set i | i in t && t[i].complete && GroupOf(t[i]) !in groups && i !in keep && now - t[i].usedAt >= KEEP_OLD
  }

  lemma NoGroupsDone(t: Table, now: int)
    ensures var groups := set i | i in t && t[i].complete :: GroupOf(t[i]);
            GroupsDone(t, groups, {}) && SupersededOutside(t, now, {}, groups) == {}
  {
    var groups := set i | i in t && t[i].complete :: GroupOf(t[i]);
    forall g | g in groups ensures Members(t, g) != {} {
      var i :| i in t && t[i].complete && GroupOf(t[i]) == g;
      assert i in Members(t, g);
    }
  }

  /** The pass has not touched a group it has yet to come to. */
  lemma RemainingMembers(t: Table, now: int, keep: set<nat>, groups: set<Group>, gone: set<nat>, g: Group)
    requires GroupsDone(t, groups, keep) && g in groups && gone == SupersededOutside(t, now, keep, groups)
    ensures Members(t, g) != {} && Members(t, g) <= t.Keys && Members(t, g) !! gone
    ensures Members(t, g) == Members(t - gone, g)
    ensures forall latest :: SupersededIn(t - gone, now, g, latest) == SupersededIn(t, now, g, latest)
  {
  }

  lemma GroupDone(t: Table, groups: set<Group>, keep: set<nat>, g: Group, latest: nat)
    requires GroupsDone(t, groups, keep) && g in groups && latest in Members(t, g)
    requires forall i | i in Members(t, g) :: t[i].createdAt <= t[latest].createdAt
    ensures GroupsDone(t, groups - {g}, keep + {latest})
  {
    var keep' := keep + {latest};
    forall i | i in t && t[i].complete && GroupOf(t[i]) !in groups - {g} ensures HasKeeper(t, keep', i) {
      if GroupOf(t[i]) == g {
        assert i in Members(t, g);
        KeeperFound(t, keep', i, latest);
      } else {
        assert HasKeeper(t, keep, i);
        var k :| k in keep && k in t && SameGroup(t[k], t[i]) && t[i].createdAt <= t[k].createdAt;
        KeeperFound(t, keep', i, k);
      }
    }
    hide HasKeeper;
  }

  lemma KeeperFound(t: Table, keep: set<nat>, i: nat, k: nat)
    requires i in t && k in keep && k in t && SameGroup(t[k], t[i]) && t[i].createdAt <= t[k].createdAt
    ensures HasKeeper(t, keep, i)
  {
  }

  lemma SupersededGrows(t: Table, now: int, keep: set<nat>, groups: set<Group>, g: Group, latest: nat)
    requires GroupsDone(t, groups, keep) && g in groups && latest in Members(t, g)
    ensures SupersededOutside(t, now, keep + {latest}, groups - {g}) ==
            SupersededOutside(t, now, keep, groups) +
            SupersededIn(t, now, g, latest)
  {
  }

  lemma AllGroupsDone(t: Table, now: int, keep: set<nat>)
    requires GroupsDone(t, {}, keep)
    ensures KeepsLatest(t, keep)
    ensures SupersededOutside(t, now, keep, {}) == Superseded(t, now, keep)
  {
  }
}
