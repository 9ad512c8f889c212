/**
 * providers/http/HttpProvider.js: variants fetched from a font repository
 * over HTTP, either one document per family (the repository URL holds the
 * `--family--` placeholder) or one document for all families.  The Google
 * provider is this provider with its own URL and response mapping; the
 * two are told apart by `Api`.
 *
 * `loadData` is asynchronous: the part before the `await` and the part
 * after it are two methods, so that interleaved loads are sequences of
 * calls.  The response of a fetch is a parameter.
 */
module Http {
  import opened Wrappers
  import opened Strings
  import opened FontStyle
  import Uri
  import Google
  import Cache

  const Placeholder: string := "--family--"

  /** The processed data: one family's list, or every family's list by name. */
  datatype Data = List(variants: seq<Variant>) | Families(families: map<string, seq<Variant>>)

  /** What a repository URL or the Google API answers with. */
  datatype Response = Json(data: Data) | GoogleJson(items: seq<Google.GoogleItem>)

  /** A repository URL, or the Google API with its key. */
  datatype Api = Repo(repoUrl: string) | GoogleApi(apiKey: string)

  predicate Answers(api: Api, response: Response) {
    api.Repo? <==> response.Json?
  }

  /** `#perFamily`: the repository URL holds the placeholder (never for the Google API, whose repository URL is empty). */
  predicate PerFamily(api: Api) {
    api.Repo? && Contains(api.repoUrl, Placeholder)
  }

  /** `getUrl`. */
  function Url(api: Api, family: string): string {
    match api
    case Repo(repoUrl) => ReplaceFirst(repoUrl, Placeholder, Uri.Encode(family))
    case GoogleApi(apiKey) => Google.Url(apiKey)
  }

  /** `processData`: the response as it is, or the Google items mapped by family. */
  function Process(api: Api, response: Response): Data
    requires Answers(api, response)
  {
    match response
    case Json(data) => data
    case GoogleJson(items) => Families(Google.FamilyMap(items))
  }

  /**
   * `getVariantsFromData`: the data itself for a per-family URL, otherwise
   * the family's entry or `[]`.
   */
  function VariantsFromData(perFamily: bool, data: Data, family: string): seq<Variant> {
    if perFamily then (if data.List? then data.variants else [])
    else if data.Families? && family in data.families then data.families[family]
    else []
  }

  /** `HttpProvider.create`: a provider when `fontsUrl` is not empty; the lifetime `?? null`. */
  function CreateRepo(fontsUrl: string, cacheMs: Option<int>): (r: Option<(Api, Option<int>)>)
    ensures r.Some? <==> fontsUrl != ""
    ensures r.Some? ==> r.value.0 == Repo(fontsUrl) && r.value.1 == cacheMs
  {
    if fontsUrl != "" then Some((Repo(fontsUrl), cacheMs)) else None
  }

  /** `GoogleProvider.create`: a provider when `googleApiKey` is not empty. */
  function CreateGoogle(apiKey: string, cacheMs: Option<int>): (r: Option<(Api, Option<int>)>)
    ensures r.Some? <==> apiKey != ""
    ensures r.Some? ==> r.value.0 == GoogleApi(apiKey) && !PerFamily(r.value.0) && r.value.1 == cacheMs
  {
    if apiKey != "" then Some((GoogleApi(apiKey), cacheMs)) else None
  }

  class HttpProvider {
    const api: Api
    const perFamily: bool
    /** `#cache`: processed data by URL. */
    const cache: Cache.Cache<string, Data>
    /** `#loading`: the URLs with a fetch in flight. */
    var loading: set<string>

    /** The lifetime is `cache ?? 600000` milliseconds. */
    constructor(api: Api, cacheMs: Option<int>)
      ensures this.api == api && perFamily == PerFamily(api)
      ensures fresh(cache) && cache.entries == map[] && cache.defaultDuration == Cache.Finite(cacheMs.GetOr(600000))
      ensures loading == {}
    {
      this.api := api;
      perFamily := Contains(if api.Repo? then api.repoUrl else "", Placeholder);
      cache := new Cache.Cache(Some(Cache.Finite(cacheMs.GetOr(600000))));
      loading := {};
    }

    function GetUrl(family: string): string {
      Url(api, family)
    }

    /**
     * `loadData` up to its `await`: a cache hit returns at once; otherwise
     * a fetch starts only when none is in flight for the URL, and the URL
     * is marked as loading.
     */
    method BeginLoad(family: string, now: int) returns (url: string, hit: Option<Data>, fetch: bool)
      modifies this, cache
      ensures url == Url(api, family)
      ensures hit == Cache.Lookup(old(cache.entries), url, now)
      ensures cache.entries == Cache.AfterGet(old(cache.entries), url, now)
      ensures hit.Some? ==> !fetch && loading == old(loading)
      ensures hit.None? ==> fetch == (url !in old(loading)) && loading == old(loading) + {url}
    {
      url := GetUrl(family);
      hit := cache.Get(url, now);
      fetch := false;
      if hit.None? {
        fetch := url !in loading;
        loading := loading + {url};
      }
    }

    /** `loadData` after its `await`: the URL stops loading and the processed data is cached. */
    method FinishLoad(url: string, response: Response, now: int) returns (data: Data)
      requires Answers(api, response)
      modifies this, cache
      ensures data == Process(api, response)
      ensures loading == old(loading) - {url}
      ensures cache.entries == Cache.Store(old(cache.entries), url, data, cache.defaultDuration, now)
    {
      loading := loading - {url};
      data := Process(api, response);
      cache.Set(url, data, None, now);
    }

    /** `loadData` run without interleaving, the server answering `respond(url)`. */
    method LoadData(family: string, now: int, respond: string -> Response) returns (data: Data, fetched: bool)
      requires forall u :: Answers(api, respond(u))
      modifies this, cache
      ensures var url := Url(api, family);
        var hit := Cache.Lookup(old(cache.entries), url, now);
        (hit.Some? ==> data == hit.value && !fetched) &&
        (hit.None? ==> data == Process(api, respond(url)) && fetched == (url !in old(loading)))
      ensures Cache.Lookup(old(cache.entries), Url(api, family), now).Some? ==> loading == old(loading)
      ensures Cache.Lookup(old(cache.entries), Url(api, family), now).None? ==> loading == old(loading) - {Url(api, family)}
    {
      var url, hit, fetch := BeginLoad(family, now);
      fetched := fetch;
      if hit.Some? {
        data := hit.value;
        return;
      }
      data := FinishLoad(url, respond(url), now);
    }

    /**
     * Two loads of one family that both miss the cache before either
     * resumes start at most one fetch between them.
     */
    method TwoLoads(family: string, now: int) returns (fetches: nat)
      modifies this, cache
      ensures fetches <= 1
    {
      var url1, hit1, fetch1 := BeginLoad(family, now);
      var url2, hit2, fetch2 := BeginLoad(family, now);
      fetches := (if fetch1 then 1 else 0) + (if fetch2 then 1 else 0);
    }
  }

  /* ---------- properties ---------- */

  /** A repository URL is per-family exactly when it holds the placeholder. */
  lemma PerFamilyIff(repoUrl: string)
    ensures PerFamily(Repo(repoUrl)) <==> exists j :: 0 <= j <= |repoUrl| && StartsWith(repoUrl[j..], Placeholder)
  {
    if IndexOf(repoUrl, Placeholder).Some? {
      var j := IndexOf(repoUrl, Placeholder).value;
      assert repoUrl[j..][..|Placeholder|] == repoUrl[j..j + |Placeholder|];
    }
  }

  /** The first placeholder becomes the encoded family. */
  lemma UrlTemplate(pre: string, post: string, family: string)
    requires IndexOf(pre + Placeholder, Placeholder) == Some(|pre|)
    ensures Url(Repo(pre + Placeholder + post), family) == pre + Uri.Encode(family) + post
  {
    ReplaceFirstAt(pre, Placeholder, post, Uri.Encode(family));
  }

  /** The text of `url` between a prefix and a suffix of the given lengths, decoded. */
  function FamilyIn(url: string, pre: nat, post: nat): string
    requires pre + post <= |url|
  {
    Uri.Decode(url[pre..|url| - post])
  }

  /** The family can be read back from its URL. */
  lemma UrlCarriesFamily(pre: string, post: string, family: string)
    requires IndexOf(pre + Placeholder, Placeholder) == Some(|pre|)
    ensures |pre| + |post| <= |Url(Repo(pre + Placeholder + post), family)|
    ensures FamilyIn(Url(Repo(pre + Placeholder + post), family), |pre|, |post|) == family
  {
    UrlTemplate(pre, post, family);
    var e := Uri.Encode(family);
    var r := pre + e + post;
    assert r[|pre|..|r| - |post|] == e;
    Uri.DecodeEncode(family);
  }

  /** Distinct families never share a per-family URL, so never share a cache entry. */
  lemma DistinctUrls(pre: string, post: string, a: string, b: string)
    requires IndexOf(pre + Placeholder, Placeholder) == Some(|pre|)
    requires a != b
    ensures Url(Repo(pre + Placeholder + post), a) != Url(Repo(pre + Placeholder + post), b)
  {
    UrlCarriesFamily(pre, post, a);
    UrlCarriesFamily(pre, post, b);
  }

  /** The Google URL does not depend on the family. */
  lemma GoogleIgnoresFamily(apiKey: string, a: string, b: string)
    ensures Url(GoogleApi(apiKey), a) == Url(GoogleApi(apiKey), b)
    ensures !PerFamily(GoogleApi(apiKey))
  {
  }

  /** Without the placeholder, a family's list is its entry in the shared document, or nothing. */
  lemma SharedDocument(data: map<string, seq<Variant>>, family: string)
    ensures VariantsFromData(false, Families(data), family) == (if family in data then data[family] else [])
    ensures VariantsFromData(false, List([]), family) == []
  {
  }

  /** With the placeholder, the document is the family's list, whatever the family. */
  lemma PerFamilyDocument(variants: seq<Variant>, a: string, b: string)
    ensures VariantsFromData(true, List(variants), a) == variants == VariantsFromData(true, List(variants), b)
  {
  }

  /** The Google API's list for a family is the files of the family's last item. */
  lemma GoogleVariants(apiKey: string, items: seq<Google.GoogleItem>, family: string)
    ensures var vs := VariantsFromData(PerFamily(GoogleApi(apiKey)), Process(GoogleApi(apiKey), GoogleJson(items)), family);
      match Google.LastOf(items, family)
      case Some(i) => vs == Google.FilesVariants(items[i].files)
      case None => vs == []
  {
    Google.LastItemWins(items, family);
  }
}
