/** What garbage collection removes, and what it leaves to find. */
module CacheGc {
  import opened Basics
  import opened Storage
  import opened CacheModel

  /** An entry used in the last five minutes and created in the last thirty days survives with its
      blob and its staged files. */
  lemma RecentSurvives(s: Store, now: int, keep: set<nat>, i: nat)
    requires i in s.table
    requires s.table[i].usedAt > now - KEEP_OLD && s.table[i].createdAt >= now - KEEP_USED
    ensures var s' := Collected(s, now, keep);
            && i in s'.table && s'.table[i] == s.table[i]
            && (i in s.disk.blobs ==> i in s'.disk.blobs && s'.disk.blobs[i] == s.disk.blobs[i])
            && (i in s.disk.tmp ==> i in s'.disk.tmp && s'.disk.tmp[i] == s.disk.tmp[i])
  {
  }

  /** The request uses the entry: it writes to an incomplete one, or downloads. */
  predicate Uses(s: Store, e: Event, id: nat) {
    && id in s.table
    && match e.req
       case Upload(repo, i, start, _) => i == id && s.table[id].repo == repo && !s.table[id].complete && start.Some?
       case PutBlob(i, _) => i == id && !s.table[id].complete
       case PutBlock(i, _, _) => i == id && !s.table[id].complete
       case PutBlockList(i, _) => i == id && !s.table[id].complete
       case Get(i) => i == id
       case _ => false
  }

  /** An entry that was used is safe from collections in the five minutes after, if it is no older than
      thirty days. */
  lemma UsedSurvives(s: Store, e: Event, collect: Event, id: nat)
    requires Legal(s, e) && Uses(s, e, id)
    requires collect.req == Collect && Legal(Apply(s, e).0, collect)
    requires collect.now < e.now + 300 && s.table[id].createdAt >= collect.now - 30 * 24 * 3600
    ensures var s1 := Apply(s, e).0;
            var s2 := Apply(s1, collect).0;
            && id in s1.table && s1.table[id] == s.table[id].(usedAt := e.now)
            && id in s2.table && s2.table[id] == s1.table[id]
            && (id in s1.disk.blobs ==> id in s2.disk.blobs && s2.disk.blobs[id] == s1.disk.blobs[id])
            && (id in s1.disk.tmp ==> id in s2.disk.tmp && s2.disk.tmp[id] == s1.disk.tmp[id])
  {
    hide WithFile, WithBlocksOrdered, KeepsLatest;
    var s1 := Apply(s, e).0;
    assert id in s1.table && s1.table[id] == s.table[id].(usedAt := e.now);
    hide Uses;
    if CollectDue(s1, collect.now) { RecentSurvives(s1, collect.now, collect.keep, id); }
  }

  /** A collection takes place when none has, or the last is an hour or more ago; it removes these entries
      with their files, and no others. */
  lemma CollectionTakesPlace(s: Store, e: Event, i: nat)
    requires e.req == Collect && Legal(s, e) && i in s.table
    ensures var s', c := Apply(s, e).0, s.table[i];
            if s.gcAt.Some? && e.now - s.gcAt.value < 3600 then s' == s
            else
              && s'.gcAt == Some(e.now)
              && (i !in s'.table <==>
                    || (!c.complete && c.usedAt < e.now - 300)
                    || c.usedAt < e.now - 7 * 24 * 3600
                    || c.createdAt < e.now - 30 * 24 * 3600
                    || (c.complete && i !in e.keep && e.now - c.usedAt >= 300))
              && (i !in s'.table ==> i !in s'.disk.blobs && i !in s'.disk.tmp)
  {
    hide KeepsLatest;
    if CollectDue(s, e.now) { CollectionRemoves(s, e.now, e.keep, i); }
  }

  /** Exactly which entries a collection removes. */
  lemma CollectionRemoves(s: Store, now: int, keep: set<nat>, i: nat)
    requires i in s.table
    ensures var c := s.table[i];
            i !in Collected(s, now, keep).table <==>
            || (!c.complete && c.usedAt < now - KEEP_TEMP)
            || c.usedAt < now - KEEP_UNUSED
            || c.createdAt < now - KEEP_USED
            || (c.complete && i !in keep && now - c.usedAt >= KEEP_OLD)
  {
  }

  /** A query over complete entries has a match after the same-key pass iff it had one before, and the
      best match was created at the same time. */
  lemma EvictionKeepsBest(t: Table, now: int, keep: set<nat>, q: Query, p: Option<nat>, p': Option<nat>)
    requires KeepsLatest(t, keep) && q.complete
    requires IsBest(t, q, p) && IsBest(t - Superseded(t, now, keep), q, p')
    ensures p.Some? <==> p'.Some?
    ensures p.Some? ==> t[p.value].createdAt == t[p'.value].createdAt
  {
    var t' := t - Superseded(t, now, keep);
    if p.Some? {
      var i := p.value;
      assert HasKeeper(t, keep, i);
      var k :| k in keep && k in t && SameGroup(t[k], t[i]) && t[i].createdAt <= t[k].createdAt;
      assert k in t' && Matches(q, t'[k]);
    }
  }

  lemma EvictionKeepsMatch(t: Table, now: int, keep: set<nat>, q: Query)
    requires KeepsLatest(t, keep) && q.complete
    ensures HasMatch(t, q) <==> HasMatch(t - Superseded(t, now, keep), q)
  {
    var t' := t - Superseded(t, now, keep);
    if HasMatch(t, q) {
      var i :| i in t && Matches(q, t[i]);
      assert HasKeeper(t, keep, i);
      var k :| k in keep && k in t && SameGroup(t[k], t[i]) && t[i].createdAt <= t[k].createdAt;
      assert k in t' && Matches(q, t'[k]);
    }
    if HasMatch(t', q) {
      var i :| i in t' && Matches(q, t'[i]);
      assert i in t && Matches(q, t[i]);
    }
  }

  /** Evicting superseded duplicates changes no lookup: same hit or miss, same creation time. */
  lemma {:induction false} EvictionPreservesLookups(t: Table, now: int, keep: set<nat>,
      repo: string, keys: seq<string>, version: string, p: Option<nat>, p': Option<nat>)
    requires KeepsLatest(t, keep)
    requires Finds(t, repo, keys, version, p)
    requires Finds(t - Superseded(t, now, keep), repo, keys, version, p')
    ensures p.Some? <==> p'.Some?
    ensures p.Some? ==> p.value in t && p'.value in t && t[p.value].createdAt == t[p'.value].createdAt
    decreases |keys|
  {
    if keys != [] {
      var exact := Query(repo, keys[0], version, true, true);
      var prefix := exact.(exact := false);
      EvictionKeepsMatch(t, now, keep, exact);
      EvictionKeepsMatch(t, now, keep, prefix);
      if HasMatch(t, exact) {
        EvictionKeepsBest(t, now, keep, exact, p, p');
      } else if HasMatch(t, prefix) {
        EvictionKeepsBest(t, now, keep, prefix, p, p');
      } else {
        EvictionPreservesLookups(t, now, keep, repo, keys[1..], version, p, p');
      }
    }
  }
}
