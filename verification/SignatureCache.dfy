/** The signature cache as it runs: bucket objects behind a map, entries written, refreshed and
    deleted in place. Each operation is one atomic step here; SignatureCacheSteps takes them apart. */
module SignatureCacheObjects {
  import opened SignatureCacheModel

  class GroupCache {
    var entries: Bucket

    constructor ()
      ensures entries == map[]
    {
      entries := map[];
    }
  }

  class SignatureCache {
    var buckets: map<string, GroupCache>
    const hash: string -> string

    /** No two groups share a bucket. */
    ghost predicate Valid()
      reads this
    {
      forall a, b :: a in buckets && b in buckets && a != b ==> buckets[a] != buckets[b]
    }

    ghost function View(): State
      reads this, buckets.Values
    {
      map group | group in buckets :: buckets[group].entries
    }

    constructor (hash: string -> string)
      ensures Valid() && View() == map[] && this.hash == hash
    {
      this.hash := hash;
      buckets := map[];
    }

    method GetOrCreateGroupCache(group: string) returns (bucket: GroupCache)
      requires Valid()
      modifies this`buckets
      ensures Valid() && group in buckets && buckets[group] == bucket
      ensures old(group in buckets) ==> buckets == old(buckets)
      ensures old(group !in buckets) ==>
        buckets == old(buckets)[group := bucket] && fresh(bucket) && bucket.entries == map[]
    {
      if group in buckets {
        return buckets[group];
      }
      bucket := new GroupCache();
      buckets := buckets[group := bucket];
    }

    method CacheSignature(model: string, text: string, signature: string, now: int)
      requires Valid()
      modifies this`buckets, buckets.Values
      ensures Valid() && View() == Step(hash, old(View()), Event(now, Store(model, text, signature))).0
    {
      if text == "" || signature == "" {
        return;
      }
      if |signature| < MinValidSignatureLen {
        return;
      }
      var group := ModelGroup(model);
      var key := hash(text);
      var bucket := GetOrCreateGroupCache(group);
      bucket.entries := bucket.entries[key := Entry(signature, now)];
      assert View() == Stored(old(View()), group, key, Entry(signature, now));
    }

    method GetCachedSignature(model: string, text: string, now: int) returns (signature: string)
      requires Valid()
      modifies buckets.Values
      ensures Valid()
      ensures (View(), signature) == Step(hash, old(View()), Event(now, Get(model, text)))
    {
      var group := ModelGroup(model);
      signature := Missing(group);
      if text == "" || group !in buckets {
        return;
      }
      var bucket, key := buckets[group], hash(text);
      if key !in bucket.entries {
        return;
      }
      var entry := bucket.entries[key];
      if !Fresh(entry, now) {
        bucket.entries := bucket.entries - {key};
        assert View() == Read(old(View()), group, key, now).0;
        return;
      }
      entry := entry.(timestamp := now);
      bucket.entries := bucket.entries[key := entry];
      assert View() == Read(old(View()), group, key, now).0;
      signature := entry.signature;
    }

    /** Deletes the expired entries of one bucket. */
    method DeleteExpired(bucket: GroupCache, now: int) returns (isEmpty: bool)
      modifies bucket
      ensures bucket.entries == Live(old(bucket.entries), now) && isEmpty == (bucket.entries == map[])
    {
      var keys := bucket.entries.Keys;
      while keys != {}
        invariant keys <= bucket.entries.Keys <= old(bucket.entries).Keys
        invariant forall key :: key in bucket.entries ==> bucket.entries[key] == old(bucket.entries)[key]
        invariant forall key :: key in old(bucket.entries) && key !in keys ==>
          (key in bucket.entries <==> Fresh(old(bucket.entries)[key], now))
        decreases keys
      {
        var key :| key in keys;
        if !Fresh(bucket.entries[key], now) {
          bucket.entries := bucket.entries - {key};
        }
        keys := keys - {key};
      }
      isEmpty := |bucket.entries| == 0;
    }

    /** The view while the groups that are left still have to be visited. */
    ghost predicate Purging(view: State, left: set<string>, now: int)
      reads this, buckets.Values
    {
      && left <= buckets.Keys <= view.Keys
      && (forall g :: g in view && g !in left ==> (g in buckets <==> Live(view[g], now) != map[]))
      && forall g :: g in buckets ==> buckets[g].entries == if g in left then view[g] else Live(view[g], now)
    }

    /** The visit of one bucket during a purge. */
    method PurgeGroup(group: string, now: int, ghost view: State, ghost left: set<string>)
      requires Valid() && Purging(view, left, now) && group in left
      modifies this`buckets, buckets[group]
      ensures Valid() && Purging(view, left - {group}, now)
      ensures buckets == old(buckets) || buckets == old(buckets) - {group}
    {
      var isEmpty := DeleteExpired(buckets[group], now);
      if isEmpty {
        buckets := buckets - {group};
      }
    }

    lemma PurgedView(view: State, now: int)
      requires Purging(view, {}, now)
      ensures View() == Purged(view, now)
    {
    }

    method PurgeExpiredCaches(now: int)
      requires Valid()
      modifies this`buckets, buckets.Values
      ensures Valid() && View() == Step(hash, old(View()), Event(now, Purge)).0
    {
      ghost var view := View();
      var groups := buckets.Keys;
      while groups != {}
        invariant Valid() && Purging(view, groups, now) && buckets.Values <= old(buckets.Values)
        decreases groups
      {
        var group :| group in groups;
        PurgeGroup(group, now, view, groups);
        groups := groups - {group};
      }
      PurgedView(view, now);
    }

    method ClearSignatureCache(model: string, ghost now: int)
      requires Valid()
      modifies this`buckets
      ensures Valid() && View() == Step(hash, old(View()), Event(now, Clear(model))).0
    {
      if model == "" {
        var groups := buckets.Keys;
        while groups != {}
          invariant buckets.Keys == groups && Valid()
          decreases groups
        {
          var group :| group in groups;
          buckets := buckets - {group};
          groups := groups - {group};
        }
        return;
      }
      buckets := buckets - {ModelGroup(model)};
    }
  }
}
