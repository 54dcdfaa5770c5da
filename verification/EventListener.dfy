/** The event listener: deduplicate, then flush the cache, then tell the hub. */
module EventListener {
  import opened GenerationCache
  import opened CacheService
  import opened Deduplication

  datatype Source = Postgres | RedisChannel | Other

  class Listener {
    const dedup: Deduplicator
    const cache: Cache
    /** What has been handed to the hub, in order. */
    var broadcasts: seq<string>

    constructor (dedup: Deduplicator, cache: Cache)
      ensures this.dedup == dedup && this.cache == cache && broadcasts == []
    {
      this.dedup, this.cache, broadcasts := dedup, cache, [];
    }

    /**
     A payload let through reaches the hub only after the cache was flushed, so a client
     that reloads on hearing of it is not served an entry from before; a suppressed
     payload neither flushes nor is broadcast.
     */
    method ProcessEvent(source: Source, payload: string, now: int) returns (processed: bool)
      requires cache.client != null ==> Inv(cache.View())
      modifies this, dedup, cache, cache.client
      ensures cache.client != null ==> Inv(cache.View())
      ensures processed == !Recent(old(dedup.seen), dedup.window, Arrival(payload, now))
      ensures dedup.seen == RememberPruned(old(dedup.seen), dedup.window, Arrival(payload, now))
      ensures broadcasts == if processed then old(broadcasts) + [payload] else old(broadcasts)
      ensures cache.client == null || !processed || source == Other ==> cache.searchGen == old(cache.searchGen)
      ensures cache.client != null && (!processed || source == Other) ==> cache.View() == old(cache.View())
      ensures cache.client != null && processed && source != Other ==>
        cache.View() == Apply(old(cache.View()), Invalidate(0)) &&
        forall key :: IsSearch(key) ==> Lookup(cache.View(), 0, key).None?
    {
      processed := dedup.ShouldProcess(payload, now);
      if !processed {
        return;
      }
      if source == Postgres || source == RedisChannel {
        OnNotify();
      }
      broadcasts := broadcasts + [payload];
    }

    /** Flushes the cache; without a connection there is nothing to flush. */
    method OnNotify()
      requires cache.client != null ==> Inv(cache.View())
      modifies cache, cache.client
      ensures cache.client == null ==> cache.searchGen == old(cache.searchGen)
      ensures cache.client != null ==>
        && Inv(cache.View())
        && cache.View() == Apply(old(cache.View()), Invalidate(0))
        && forall key :: IsSearch(key) ==> Lookup(cache.View(), 0, key).None?
    {
      if cache.client == null {
        cache.InvalidateAll();
      } else {
        ghost var s := cache.View();
        StepKeepsInv(s, Invalidate(0));
        cache.InvalidateAll();
        forall key | IsSearch(key) ensures Lookup(cache.View(), 0, key).None? {
          NothingAboveCounter(s, Counter(s) + 1, key[|SEARCH|..]);
        }
      }
    }
  }
}
