/** The cache object of one server instance over a Redis it shares with the others. */
module CacheService {
  import opened Options
  import opened GenerationCache

  datatype Reply<+T> = Ok(value: T) | Miss | Disabled

  /** The shared key space and counter. */
  class Redis {
    var counter: Option<nat>
    var store: map<string, string>

    constructor ()
      ensures counter == None && store == map[]
    {
      counter, store := None, map[];
    }
  }

  /** What one instance, numbered 0, sees of the shared state. */
  function ViewOf(counter: Option<nat>, store: map<string, string>, gen: nat): State {
    State(counter, store, map[0 := gen])
  }

  /** An instance that remembers no generation loads one before resolving a search key. */
  function Loaded(s: State, key: string): (r: State)
    requires 0 in s.gens
    ensures 0 in r.gens && r.store == s.store
  {
    if IsSearch(key) && s.gens[0] == 0 then
      var gen := if s.counter.Some? then s.counter.value else 1;
      s.(counter := Some(gen), gens := s.gens[0 := gen])
    else s
  }

  /** Loading is an opening put off until the first search key; an instance with a generation keeps it. */
  lemma LoadingIsALateOpening(s: State, key: string)
    requires 0 in s.gens
    ensures Loaded(s, key) == if "search:" <= key && s.gens[0] == 0 then Apply(s.(gens := s.gens - {0}), Open(0)) else s
  {
    if "search:" <= key && s.gens[0] == 0 {
      assert (s.gens - {0})[0 := Loaded(s, key).gens[0]] == Loaded(s, key).gens;
    }
  }

  class Cache {
    const client: Redis?
    var searchGen: nat

    function View(): (s: State)
      requires client != null
      reads this, client
      ensures 0 in s.gens
    {
      ViewOf(client.counter, client.store, searchGen)
    }

    /** `client` is null when Redis could not be reached. */
    constructor (client: Redis?)
      modifies client
      ensures this.client == client
      ensures client != null ==>
        View() == Apply(State(old(client.counter), old(client.store), map[]), Open(0))
    {
      this.client := client;
      searchGen := 0;
      new;
      if client != null {
        if client.counter.None? {
          client.counter := Some(1);
        }
        searchGen := client.counter.value;
      }
    }

    method ResolveKey(key: string) returns (stored: string)
      requires client != null
      modifies this, client
      ensures View() == Loaded(old(View()), key)
      ensures stored == Resolve(searchGen, key)
    {
      if !IsSearch(key) {
        return key;
      }
      if searchGen == 0 {
        if client.counter.None? {
          client.counter := Some(1);
        }
        searchGen := client.counter.value;
      }
      stored := StoredKey(searchGen, key[|SEARCH|..]);
    }

    method Get(key: string) returns (reply: Reply<string>)
      modifies this, client
      ensures client == null ==> reply == Disabled && searchGen == old(searchGen)
      ensures client != null ==>
        View() == Loaded(old(View()), key) &&
        reply == match Lookup(View(), 0, key) case Some(v) => Ok(v) case None => Miss
    {
      if client == null {
        return Disabled;
      }
      var stored := ResolveKey(key);
      reply := if stored in client.store then Ok(client.store[stored]) else Miss;
    }

    method Put(key: string, value: string) returns (done: bool)
      requires key != COUNTER_KEY
      modifies this, client
      ensures done == (client != null)
      ensures client == null ==> searchGen == old(searchGen)
      ensures client != null ==> View() == Apply(Loaded(old(View()), key), Set(0, key, value))
    {
      if client == null {
        return false;
      }
      var stored := ResolveKey(key);
      client.store := client.store[stored := value];
      done := true;
    }

    method Remove(key: string) returns (done: bool)
      requires key != COUNTER_KEY
      modifies this, client
      ensures done == (client != null)
      ensures client == null ==> searchGen == old(searchGen)
      ensures client != null ==> View() == Apply(Loaded(old(View()), key), Delete(0, key))
    {
      if client == null {
        return false;
      }
      var stored := ResolveKey(key);
      client.store := client.store - {stored};
      done := true;
    }

    method InvalidateAll()
      modifies this, client
      ensures client == null ==> searchGen == old(searchGen)
      ensures client != null ==> View() == Apply(old(View()), Invalidate(0))
    {
      if client == null {
        return;
      }
      client.store := client.store - {STATS_FRESH};
      client.counter := Some((if client.counter.Some? then client.counter.value else 0) + 1);
      searchGen := client.counter.value;
    }
  }
}
