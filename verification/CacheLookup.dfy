/** What a cache lookup returns, said without following its loop. */
module CacheLookup {
  import opened Basics
  import opened CacheModel

  /** An entry a lookup of this repository and version may return. */
  predicate Eligible(c: Cache, repo: string, version: string) {
    c.repo == repo && c.version == version && c.complete
  }

  /** The n-th key is a prefix of some eligible entry's key. */
  ghost predicate KeyMatches(t: Table, repo: string, key: string, version: string) {
    exists i | i in t :: Eligible(t[i], repo, version) && key <= t[i].key
  }

  ghost predicate KeyIsThere(t: Table, repo: string, key: string, version: string) {
    exists i | i in t :: Eligible(t[i], repo, version) && t[i].key == key
  }

  /** i answers the n-th key: it matches, exactly if any entry does, and is the newest that does. */
  ghost predicate AnswersKey(t: Table, repo: string, key: string, version: string, i: nat) {
    && i in t
    && Eligible(t[i], repo, version) && key <= t[i].key
    && (KeyIsThere(t, repo, key, version) ==> t[i].key == key)
    && (forall j | j in t && Eligible(t[j], repo, version) && key <= t[j].key &&
                  (t[i].key == key ==> t[j].key == key) ::
          t[j].createdAt <= t[i].createdAt)
  }

  /** i answers the first key that any eligible entry's key extends. */
  ghost predicate IsOptimal(t: Table, repo: string, keys: seq<string>, version: string, i: nat) {
    exists n | 0 <= n < |keys| ::
      && AnswersKey(t, repo, keys[n], version, i)
      && forall m | 0 <= m < n :: !KeyMatches(t, repo, keys[m], version)
  }

  /** A lookup misses exactly when no key is a prefix of an eligible entry's key, and otherwise may
      return exactly the optimal entries. */
  lemma {:induction false} LookupIsOptimal(t: Table, repo: string, keys: seq<string>, version: string,
                                          pick: Option<nat>)
    ensures Finds(t, repo, keys, version, pick) <==>
            match pick
            case None => forall n | 0 <= n < |keys| :: !KeyMatches(t, repo, keys[n], version)
            case Some(i) => IsOptimal(t, repo, keys, version, i)
    decreases |keys|
  {
    if keys != [] {
      var key, rest := keys[0], keys[1..];
      if KeyMatches(t, repo, key, version) {
        if pick.Some? {
          OptimalHere(t, repo, keys, version, pick.value);
        }
      } else {
        LookupIsOptimal(t, repo, rest, version, pick);
        if pick.Some? {
          OptimalLater(t, repo, keys, version, pick.value);
        } else {
          assert forall n | 0 < n < |keys| :: keys[n] == rest[n - 1];
        }
      }
    }
  }

  lemma OptimalHere(t: Table, repo: string, keys: seq<string>, version: string, i: nat)
    requires keys != [] && KeyMatches(t, repo, keys[0], version)
    ensures IsOptimal(t, repo, keys, version, i) <==> AnswersKey(t, repo, keys[0], version, i)
  {
  }

  lemma OptimalLater(t: Table, repo: string, keys: seq<string>, version: string, i: nat)
    requires keys != [] && !KeyMatches(t, repo, keys[0], version)
    ensures IsOptimal(t, repo, keys, version, i) <==> IsOptimal(t, repo, keys[1..], version, i)
  {
    var rest := keys[1..];
    if IsOptimal(t, repo, keys, version, i) {
      var n :| 0 <= n < |keys| && AnswersKey(t, repo, keys[n], version, i)
               && forall m | 0 <= m < n :: !KeyMatches(t, repo, keys[m], version);
      assert rest[n - 1] == keys[n] && forall m | 0 <= m < n - 1 :: rest[m] == keys[m + 1];
    }
    if IsOptimal(t, repo, rest, version, i) {
      var n :| 0 <= n < |rest| && AnswersKey(t, repo, rest[n], version, i)
               && forall m | 0 <= m < n :: !KeyMatches(t, repo, rest[m], version);
      assert keys[n + 1] == rest[n] && forall m | 0 < m < n + 1 :: keys[m] == rest[m - 1];
    }
  }
}
