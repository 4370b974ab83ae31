/** What every request, collection and lost blob keeps. */
module CacheInvariant {
  import opened Basics
  import opened Storage
  import opened CacheModel

  /** The state invariant of the store. */
  ghost predicate Inv(s: Store) {
    && (forall i :: i in s.owner <==> 1 <= i <= s.nextId)
    && (forall i | i in s.table :: s.table[i].id == i && i in s.owner && s.owner[i] == s.table[i].repo)
    && (forall i | i in s.disk.blobs ::
          i in s.table && s.table[i].complete && s.table[i].size == |s.disk.blobs[i]|)
    && (forall i | i in s.disk.tmp :: i in s.owner && (i in s.table ==> !s.table[i].complete))
  }

  /** What a step may do to what is there. */
  ghost predicate Preserves(s: Store, s': Store) {
    && s.nextId <= s'.nextId
    && (forall i | i in s.owner :: i in s'.owner && s'.owner[i] == s.owner[i])
    && (forall i | i in s'.table && i !in s.table :: s.nextId < i)
    && (forall i | i in s.table && i in s'.table ::
          var c, c' := s.table[i], s'.table[i];
          && SameGroup(c, c') && c.createdAt == c'.createdAt
          && (c.complete ==> c'.complete && c'.size == c.size))
    && (forall i | i in s'.disk.blobs && i in s.table && s.table[i].complete ::
          i in s.disk.blobs && s'.disk.blobs[i] == s.disk.blobs[i])
  }

  lemma SweepKeeps(s: Store, ids: set<nat>)
    requires Inv(s)
    ensures Inv(Sweep(s, ids)) && Preserves(s, Sweep(s, ids))
  {
  }

  lemma CollectedKeeps(s: Store, now: int, keep: set<nat>)
    requires Inv(s)
    ensures Inv(Collected(s, now, keep)) && Preserves(s, Collected(s, now, keep))
  {
    var s1 := Sweep(s, Abandoned(s.table, now));
    var s2 := Sweep(s1, Unused(s1.table, now));
    var s3 := Sweep(s2, TooOld(s2.table, now));
    SweepKeeps(s, Abandoned(s.table, now));
    SweepKeeps(s1, Unused(s1.table, now));
    SweepKeeps(s2, TooOld(s2.table, now));
    SweepKeeps(s3, Superseded(s3.table, now, keep));
  }

  ghost predicate Kept(s: Store, s': Store) {
    Inv(s') && Preserves(s, s')
  }

  lemma InsertKeeps(s: Store, repo: string, key: string, version: string, size: int, now: int)
    requires Inv(s)
    ensures Kept(s, Insert(s, repo, key, version, size, now))
  {
  }

  lemma TouchKeeps(s: Store, id: nat, now: int)
    requires Inv(s)
    ensures Kept(s, Touch(s, id, now))
  {
  }

  /** Staging files of an entry that is not complete is harmless. */
  lemma StageKeeps(s: Store, id: nat, tmp: map<nat, Dir>, now: int)
    requires Inv(s) && id in s.owner && (id in s.table ==> !s.table[id].complete)
    requires forall i | i in tmp && i != id :: i in s.disk.tmp
    ensures Kept(s, Touch(s.(disk := s.disk.(tmp := tmp)), id, now))
  {
  }

  lemma CommitKeeps(s: Store, id: nat, size: int)
    requires Inv(s) && id in s.table && !s.table[id].complete
    ensures Kept(s, CommitEntry(s, id, size).0)
  {
    hide Assembled, Kept;
    if id !in s.disk.tmp {
      StaysKept(s);
    } else {
      var blob := Assembled(s.disk.tmp[id]);
      AssembledKeeps(s, id, blob);
      BrokenKeeps(s, id);
    }
  }

  lemma AssembledKeeps(s: Store, id: nat, blob: Bytes)
    requires Inv(s) && id in s.table && !s.table[id].complete
    ensures Kept(s, s.(disk := Disk(s.disk.blobs[id := blob], s.disk.tmp - {id}),
                       table := s.table[id := s.table[id].(size := |blob|, complete := true)]))
  {
  }

  lemma BrokenKeeps(s: Store, id: nat)
    requires Inv(s) && id in s.table && !s.table[id].complete
    ensures Kept(s, s.(disk := Disk(s.disk.blobs - {id}, s.disk.tmp - {id})))
  {
  }

  lemma DropKeeps(s: Store, i: nat)
    requires Inv(s) && i !in s.disk.blobs
    ensures Kept(s, s.(table := s.table - {i}))
  {
  }

  lemma StaysKept(s: Store)
    requires Inv(s)
    ensures Kept(s, s)
  {
  }

  lemma Owned(s: Store, i: nat)
    requires Inv(s) && i in s.table
    ensures i in s.owner
  {
  }

  lemma LossKeeps(s: Store, id: nat)
    requires Inv(s)
    ensures Kept(s, s.(disk := s.disk.(blobs := s.disk.blobs - {id})))
  {
  }

  /** One step keeps the invariant, whatever the request and however ties fall. */
  lemma StepKeeps(s: Store, e: Event)
    requires Inv(s) && Legal(s, e)
    ensures Kept(s, Apply(s, e).0)
  {
    hide Inv, Preserves, Finds, Insert, CommitEntry, Collected;
    StaysKept(s);
    match e.req {
      case Find(repo, keys, version) =>
        if e.pick.Some? {
          FindsEligible(s.table, repo, keys, version, e.pick.value);
          if e.pick.value !in s.disk.blobs { DropKeeps(s, e.pick.value); }
        }
      case Reserve(repo, key, version, size) =>
        InsertKeeps(s, repo, key, version, if size == 0 then -1 else size, e.now);
      case Upload(repo, id, start, body) =>
        if id in s.table && start.Some? && !s.table[id].complete {
          Owned(s, id);
          StageKeeps(s, id, WithFile(s.disk, id, PartFile(start.value), body).tmp, e.now);
        }
      case Commit(repo, id) =>
        if id in s.table && !s.table[id].complete { CommitKeeps(s, id, s.table[id].size); }
      case Create(repo, key, version) =>
        InsertKeeps(s, repo, key, version, -1, e.now);
      case Finalize(repo, key, version, size) =>
        if e.pick.Some? { CommitKeeps(s, e.pick.value, size); }
      case PutBlob(id, body) =>
        if id in s.table ==> !s.table[id].complete {
          StageKeeps(s, id, WithFile(s.disk, id, PartFile(0), body).tmp, e.now);
        }
      case PutBlock(id, blockId, body) =>
        TouchKeeps(s, id, e.now);
        if id in s.table ==> !s.table[id].complete {
          StageKeeps(s, id, WithFile(s.disk, id, BlockFile(blockId), body).tmp, e.now);
        }
      case PutBlockList(id, blockIds) =>
        TouchKeeps(s, id, e.now);
        if (id in s.table ==> !s.table[id].complete) && blockIds.Some? {
          StageKeeps(s, id, WithBlocksOrdered(s.disk, id, blockIds.value).0.tmp, e.now);
        }
      case Get(id) =>
        TouchKeeps(s, id, e.now);
      case Collect =>
        CollectedKeeps(s, e.now, e.keep);
        assert Kept(s, Collected(s, e.now, e.keep));
      case LoseBlob(id) =>
        LossKeeps(s, id);
    }
  }

  lemma PreservesTransitive(s1: Store, s2: Store, s3: Store)
    requires Inv(s1) && Inv(s2) && Inv(s3) && Preserves(s1, s2) && Preserves(s2, s3)
    ensures Preserves(s1, s3)
  {
    forall i | i in s3.table && i !in s1.table ensures s1.nextId < i {
      if i in s2.table {
        assert s1.nextId < i;
      } else {
        assert s2.nextId < i;
      }
    }
    forall i | i in s1.table && i in s3.table ensures i in s2.table {
      assert i <= s1.nextId <= s2.nextId;
    }
    forall i | i in s3.disk.blobs && i in s1.table && s1.table[i].complete
      ensures i in s1.disk.blobs && s3.disk.blobs[i] == s1.disk.blobs[i]
    {
      assert i in s3.table && i in s2.table;
    }
  }

  /** The same over a whole run from the empty store or any state it reached: ids are never reused,
      complete entries stay complete and keep their size, and no blob's bytes change or come back. */
  lemma {:induction false} RunKeeps(s: Store, run: seq<Event>)
    requires Inv(s) && LegalRun(s, run)
    ensures Inv(Play(s, run).0) && Preserves(s, Play(s, run).0)
    decreases |run|
  {
    if run != [] {
      var s1 := Apply(s, run[0]).0;
      StepKeeps(s, run[0]);
      RunKeeps(s1, run[1..]);
      PreservesTransitive(s, s1, Play(s, run).0);
    }
  }

  lemma EmptyStore()
    ensures Inv(EMPTY)
  {
  }
}
