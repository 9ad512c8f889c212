/**
 * providers/http/HttpSessionProvider.js: a session's view of an HTTP
 * provider, remembering the data of every URL it has asked for, for the
 * life of the session.
 */
module HttpSession {
  import opened Wrappers
  import opened FontStyle
  import Cache
  import Http

  class HttpSessionProvider {
    const provider: Http.HttpProvider
    /** `#cache`: the provider's data by URL. */
    var cache: map<string, Http.Data>

    constructor(provider: Http.HttpProvider)
      ensures this.provider == provider && cache == map[]
    {
      this.provider := provider;
      cache := map[];
    }

    /** What the provider's `loadData` yields for `url` when called at `now`. */
    ghost function Loaded(url: string, now: int, respond: string -> Http.Response): Http.Data
      reads provider, provider.cache
      requires Http.Answers(provider.api, respond(url))
    {
      match Cache.Lookup(provider.cache.entries, url, now)
      case Some(d) => d
      case None => Http.Process(provider.api, respond(url))
    }

    /**
     * `getVariants`: the URL is the cache key; a hit is answered without
     * the provider, a miss loads and remembers the data; either way the
     * list is picked out of the data by `getVariantsFromData`.
     */
    method GetVariants(family: string, now: int, respond: string -> Http.Response) returns (variants: seq<Variant>)
      requires forall u :: Http.Answers(provider.api, respond(u))
      modifies this, provider, provider.cache
      ensures var url := Http.Url(provider.api, family);
        url in cache &&
        variants == Http.VariantsFromData(provider.perFamily, cache[url], family)
      ensures var url := Http.Url(provider.api, family);
        url in old(cache) ==> cache == old(cache) && unchanged(provider, provider.cache)
      ensures var url := Http.Url(provider.api, family);
        url !in old(cache) ==> cache == old(cache)[url := old(Loaded(url, now, respond))]
    {
      var url := provider.GetUrl(family);
      if url in cache {
        variants := Http.VariantsFromData(provider.perFamily, cache[url], family);
        return;
      }
      var data, fetched := provider.LoadData(family, now, respond);
      cache := cache[url := data];
      variants := Http.VariantsFromData(provider.perFamily, data, family);
    }
  }

  /**
   * Asked twice for one family, a session answers the same list, and the
   * second request leaves the provider alone.
   */
  method AskTwice(s: HttpSessionProvider, family: string, now: int, later: int, respond: string -> Http.Response)
    returns (first: seq<Variant>, second: seq<Variant>)
    requires forall u :: Http.Answers(s.provider.api, respond(u))
    modifies s, s.provider, s.provider.cache
    ensures first == second
  {
    first := s.GetVariants(family, now, respond);
    ghost var entries := s.provider.cache.entries;
    second := s.GetVariants(family, later, respond);
    assert s.provider.cache.entries == entries;
  }
}
