/** The four retrieval functions of the scraper, each a fetch-or-cache block followed by
    extraction: the state directory, one site page, a state's site list, and the
    MapQuest radius search. The network is `net`, which answers each request; the HTML
    parser is a function from page text to the texts it would find. */
module Scrape {
  import opened Errors
  import opened Text
  import opened Cache
  import opened Sites

  /** The MapQuest radius-search endpoint: also the cache key of every search. */
  const ApiEndpoint: string := "http://www.mapquestapi.com/search/v2/radius"

  /** A page is fetched by its URL alone. */
  function PageRequest(url: string): Request {
    Request(url, [])
  }

  /** The radius search around a zip code: 10 miles, at most 10 matches, JSON out. */
  function NearbyRequest(apiKey: string, zip: string): Request {
    Request(ApiEndpoint, [("key", apiKey), ("origin", zip), ("radius", "10"),
                          ("maxMatches", "10"), ("ambiguities", "ignore"), ("outFormat", "json")])
  }

  /** The state map from the fetched directory page. */
  function DirectoryIndex(parseMenu: string -> Option<seq<MenuItem>>, fetched: Result<Value>): (r: Result<map<string, string>>)
    ensures fetched.Err? ==> r == Err(fetched.error)
    ensures r.Ok? ==> fetched.Ok? && fetched.value.Page? && parseMenu(fetched.value.text).Some?
  {
    match fetched
    case Err(e) => Err(e)
    case Ok(Payload(_)) => Err(NotMarkup)
    case Ok(Page(text)) =>
      match parseMenu(text)
      case None => Err(MissingElement("dropdown-menu SearchBar-keywordSearch"))
      case Some(items) => StateDict(items)
  }

  /** The site record from a fetched site page. */
  function SiteRecord(parseSite: string -> SitePage, fetched: Result<Value>): (r: Result<NationalSite>)
    ensures fetched.Err? ==> r == Err(fetched.error)
    ensures fetched.Ok? && fetched.value.Payload? ==> r == Err(NotMarkup)
    ensures r.Ok? ==> fetched.Ok? && fetched.value.Page? && NoSpace(r.value.zipcode)
  {
    match fetched
    case Err(e) => Err(e)
    case Ok(Payload(_)) => Err(NotMarkup)
    case Ok(Page(text)) => SiteFromPage(parseSite(text))
  }

  /** The list headings of a fetched state page: the href of each `h3` link in
      `list_parks`, in document order. */
  function Headings(parseList: string -> Option<seq<Option<string>>>, v: Value): (r: Option<seq<Option<string>>>)
    ensures v.Payload? ==> r.None?
  {
    match v
    case Payload(_) => None
    case Page(text) => parseList(text)
  }

  /** `build_state_url_dict`: fetch the directory page, then add one entry per menu item. */
  method BuildStateUrlDict(store: CacheStore, net: Request -> Reply, parseMenu: string -> Option<seq<MenuItem>>)
    returns (r: Result<map<string, string>>)
    modifies store
    ensures var o := Fetch(old(store.file), DirectoryUrl, PageRequest(DirectoryUrl), net(PageRequest(DirectoryUrl)), false);
      store.file == o.file && store.sent == old(store.sent) + Sent(o)
      && r == DirectoryIndex(parseMenu, o.result)
  {
    var page := store.FetchOrCache(DirectoryUrl, PageRequest(DirectoryUrl), net, false);
    if page.Err? {
      return Err(page.error);
    }
    if page.value.Payload? {
      return Err(NotMarkup);
    }
    var found := parseMenu(page.value.text);
    if found.None? {
      return Err(MissingElement("dropdown-menu SearchBar-keywordSearch"));
    }
    var items := found.value;
    var stateDict := map[];
    for i := 0 to |items|
      invariant StateDict(items[..i]) == Ok(stateDict)
    {
      var item := items[i];
      assert items[..i + 1][..i] == items[..i];
      if item.href.None? {
        StateDictDefined(items);
        return Err(MissingElement("a[href]"));
      }
      stateDict := stateDict[Lower(item.text) := StateUrl(item.href.value)];
    }
    assert items[..|items|] == items;
    return Ok(stateDict);
  }

  /** `get_site_instance`: fetch the site page, then extract its record. */
  method GetSiteInstance(store: CacheStore, siteUrl: string, net: Request -> Reply, parseSite: string -> SitePage)
    returns (r: Result<NationalSite>)
    modifies store
    ensures var o := Fetch(old(store.file), siteUrl, PageRequest(siteUrl), net(PageRequest(siteUrl)), false);
      store.file == o.file && store.sent == old(store.sent) + Sent(o)
      && r == SiteRecord(parseSite, o.result)
    ensures Extends(old(store.file), store.file)
    ensures r.Ok? ==> siteUrl in Loaded(store.file) && r == SiteRecord(parseSite, Ok(Loaded(store.file)[siteUrl]))
  {
    var page := store.FetchOrCache(siteUrl, PageRequest(siteUrl), net, false);
    if page.Err? {
      return Err(page.error);
    }
    if page.value.Payload? {
      return Err(NotMarkup);
    }
    r := SiteFromPage(parseSite(page.value.text));
  }

  /** What the site loop gives back: its result, the file it leaves and the requests it
      sent, oldest first. */
  datatype SitesOutcome = SitesOutcome(result: Result<seq<NationalSite>>, file: CacheFile, sent: seq<Request>)

  /** `rest`, once the records `sites` were extracted and the requests `log` sent. */
  function After(sites: seq<NationalSite>, log: seq<Request>, rest: SitesOutcome): SitesOutcome {
    SitesOutcome(if rest.result.Ok? then Ok(sites + rest.result.value) else rest.result,
                 rest.file, log + rest.sent)
  }

  lemma ConcatAssoc<T>(a: seq<T>, b: seq<T>, c: seq<T>)
    ensures a + (b + c) == a + b + c
  {
  }

  lemma AfterAfter(sites1: seq<NationalSite>, log1: seq<Request>, sites2: seq<NationalSite>, log2: seq<Request>,
                   rest: SitesOutcome)
    ensures After(sites1, log1, After(sites2, log2, rest)) == After(sites1 + sites2, log1 + log2, rest)
  {
    ConcatAssoc(log1, log2, rest.sent);
    if rest.result.Ok? {
      ConcatAssoc(sites1, sites2, rest.result.value);
    }
  }

  lemma AfterNothing(log: seq<Request>, rest: SitesOutcome)
    ensures After([], log, rest) == SitesOutcome(rest.result, rest.file, log + rest.sent)
  {
    if rest.result.Ok? {
      assert [] + rest.result.value == rest.result.value;
    }
  }

  /** The site loop of `get_sites_for_state` over the list headings `hs`, starting from
      `file`: each heading's site page goes through fetch-or-cache and its record is
      extracted, in order. The loop stops at a heading without a link, or at the first
      fetch or extraction that raises. It has one record per heading when it succeeds,
      and sends at most one request per heading. */
  function SitesRun(file: CacheFile, hs: seq<Option<string>>, net: Request -> Reply, parseSite: string -> SitePage)
    : (run: SitesOutcome)
    ensures run.result.Ok? ==> |run.result.value| == |hs|
    ensures |run.sent| <= |hs|
    decreases |hs|
  {
    if hs == [] then SitesOutcome(Ok([]), file, [])
    else if hs[0].None? then SitesOutcome(Err(MissingElement("a[href]")), file, [])
    else
      var url := SiteUrl(hs[0].value);
      var o := Fetch(file, url, PageRequest(url), net(PageRequest(url)), false);
      var site := SiteRecord(parseSite, o.result);
      if site.Err? then SitesOutcome(Err(site.error), o.file, Sent(o))
      else After([site.value], Sent(o), SitesRun(o.file, hs[1..], net, parseSite))
  }

  /** `get_sites_for_state` from `file`: fetch-or-cache of the state page, its list
      headings (a JSON payload has none), then the site loop. */
  function SitesForState(file: CacheFile, stateUrl: string, net: Request -> Reply,
                         parseList: string -> Option<seq<Option<string>>>, parseSite: string -> SitePage)
    : SitesOutcome
  {
    var o := Fetch(file, stateUrl, PageRequest(stateUrl), net(PageRequest(stateUrl)), false);
    if o.result.Err? then SitesOutcome(Err(o.result.error), o.file, Sent(o))
    else
      match Headings(parseList, o.result.value)
      case None =>
        SitesOutcome(if o.result.value.Payload? then Err(NotMarkup) else Err(MissingElement("list_parks")),
                     o.file, Sent(o))
      case Some(hs) => After([], Sent(o), SitesRun(o.file, hs, net, parseSite))
  }

  /** The site loop of `get_sites_for_state`: fetch and extract one site per list
      heading, in order, stopping at the first heading without a link or the first
      retrieval that raises. */
  method FetchSites(store: CacheStore, hs: seq<Option<string>>, net: Request -> Reply, parseSite: string -> SitePage)
    returns (r: Result<seq<NationalSite>>)
    modifies store
    ensures var run := SitesRun(old(store.file), hs, net, parseSite);
      r == run.result && store.file == run.file && store.sent == old(store.sent) + run.sent
  {
    ghost var spec := SitesRun(store.file, hs, net, parseSite);
    ghost var sent0 := store.sent;
    ghost var log: seq<Request> := [];
    var sites: seq<NationalSite> := [];
    assert hs[0..] == hs;
    AfterNothing([], spec);
    assert [] + spec.sent == spec.sent;
    for i := 0 to |hs|
      invariant store.sent == sent0 + log
      invariant spec == After(sites, log, SitesRun(store.file, hs[i..], net, parseSite))
    {
      assert hs[i..][0] == hs[i] && hs[i..][1..] == hs[i + 1..];
      if hs[i].None? {
        assert spec == SitesOutcome(Err(MissingElement("a[href]")), store.file, log + []);
        return Err(MissingElement("a[href]"));
      }
      ghost var before := store.file;
      var url := SiteUrl(hs[i].value);
      var site := GetSiteInstance(store, url, net, parseSite);
      ghost var step := Fetch(before, url, PageRequest(url), net(PageRequest(url)), false);
      if site.Err? {
        assert spec == SitesOutcome(Err(site.error), store.file, log + Sent(step));
        ConcatAssoc(sent0, log, Sent(step));
        return Err(site.error);
      }
      AfterAfter(sites, log, [site.value], Sent(step), SitesRun(store.file, hs[i + 1..], net, parseSite));
      sites := sites + [site.value];
      log := log + Sent(step);
    }
    assert hs[|hs|..] == [];
    assert spec == After(sites, log, SitesOutcome(Ok([]), store.file, []));
    assert sites + [] == sites && log + [] == log;
    return Ok(sites);
  }

  /** `get_sites_for_state`: fetch the state page, then run the site loop over its list
      headings. */
  method GetSitesForState(store: CacheStore, stateUrl: string, net: Request -> Reply,
                          parseList: string -> Option<seq<Option<string>>>, parseSite: string -> SitePage)
    returns (r: Result<seq<NationalSite>>)
    modifies store
    ensures var s := SitesForState(old(store.file), stateUrl, net, parseList, parseSite);
      r == s.result && store.file == s.file && store.sent == old(store.sent) + s.sent
  {
    ghost var sent0 := store.sent;
    ghost var spec := SitesForState(store.file, stateUrl, net, parseList, parseSite);
    ghost var o := Fetch(store.file, stateUrl, PageRequest(stateUrl), net(PageRequest(stateUrl)), false);
    var page := store.FetchOrCache(stateUrl, PageRequest(stateUrl), net, false);
    if page.Err? {
      assert spec == SitesOutcome(Err(page.error), store.file, Sent(o));
      return Err(page.error);
    }
    var found := Headings(parseList, page.value);
    if found.None? {
      r := if page.value.Payload? then Err(NotMarkup) else Err(MissingElement("list_parks"));
      assert spec == SitesOutcome(r, store.file, Sent(o));
      return;
    }
    ghost var f1 := store.file;
    ghost var sentO := store.sent;
    var hs := found.value;
    ghost var run := SitesRun(f1, hs, net, parseSite);
    assert spec == After([], Sent(o), run);
    AfterNothing(Sent(o), run);
    r := FetchSites(store, hs, net, parseSite);
    assert r == run.result && store.file == run.file && store.sent == sentO + run.sent;
    ConcatAssoc(sent0, Sent(o), run.sent);
  }

  /** The record at index `i` is the one extracted from the page `file` holds under the
      site URL of heading `i`. */
  ghost predicate RecordFromCache(file: CacheFile, hs: seq<Option<string>>, sites: seq<NationalSite>,
                                  parseSite: string -> SitePage, i: int)
  {
    && 0 <= i < |hs| && i < |sites|
    && hs[i].Some?
    && SiteUrl(hs[i].value) in Loaded(file)
    && SiteRecord(parseSite, Ok(Loaded(file)[SiteUrl(hs[i].value)])) == Ok(sites[i])
  }

  /** The site loop never changes or drops a cache entry. */
  lemma {:induction false} SitesRunExtends(file: CacheFile, hs: seq<Option<string>>, net: Request -> Reply,
                                           parseSite: string -> SitePage)
    ensures Extends(file, SitesRun(file, hs, net, parseSite).file)
    decreases |hs|
  {
    if hs != [] && hs[0].Some? {
      var url := SiteUrl(hs[0].value);
      var o := Fetch(file, url, PageRequest(url), net(PageRequest(url)), false);
      FetchKeepsEntries(file, url, PageRequest(url), net(PageRequest(url)), false);
      SitesRunExtends(o.file, hs[1..], net, parseSite);
    }
  }

  /** When the loop succeeds, every heading has a link, and the i-th record is the one
      extracted from the page the cache holds afterwards for the i-th site URL. */
  lemma {:induction false} SitesRunOk(file: CacheFile, hs: seq<Option<string>>, net: Request -> Reply,
                                      parseSite: string -> SitePage)
    requires SitesRun(file, hs, net, parseSite).result.Ok?
    ensures forall i :: 0 <= i < |hs| ==>
      RecordFromCache(SitesRun(file, hs, net, parseSite).file, hs, SitesRun(file, hs, net, parseSite).result.value,
                      parseSite, i)
    decreases |hs|
  {
    if hs != [] {
      var run := SitesRun(file, hs, net, parseSite);
      var url := SiteUrl(hs[0].value);
      var o := Fetch(file, url, PageRequest(url), net(PageRequest(url)), false);
      var site := SiteRecord(parseSite, o.result);
      var rest := SitesRun(o.file, hs[1..], net, parseSite);
      assert run == After([site.value], Sent(o), rest);
      SitesRunOk(o.file, hs[1..], net, parseSite);
      FetchKeepsEntries(file, url, PageRequest(url), net(PageRequest(url)), false);
      SitesRunExtends(o.file, hs[1..], net, parseSite);
      forall i | 0 <= i < |hs| ensures RecordFromCache(run.file, hs, run.result.value, parseSite, i) {
        if i > 0 {
          assert RecordFromCache(rest.file, hs[1..], rest.result.value, parseSite, i - 1);
          assert hs[1..][i - 1] == hs[i] && run.result.value[i] == rest.result.value[i - 1];
        }
      }
    }
  }

  /** When every listed site page is already cached, the loop sends nothing and leaves
      the file as it was. */
  lemma {:induction false} SitesRunCached(file: CacheFile, hs: seq<Option<string>>, net: Request -> Reply,
                                          parseSite: string -> SitePage)
    requires forall i :: 0 <= i < |hs| ==> hs[i].Some? && SiteUrl(hs[i].value) in Loaded(file)
    ensures SitesRun(file, hs, net, parseSite).sent == []
    ensures SitesRun(file, hs, net, parseSite).file == file
    decreases |hs|
  {
    if hs != [] {
      assert forall i :: 0 <= i < |hs[1..]| ==> hs[1..][i] == hs[i + 1];
      SitesRunCached(file, hs[1..], net, parseSite);
    }
  }

  /** When every listed site page is already cached, the loop succeeds exactly when
      every cached page gives a record, and then returns those records in heading
      order; otherwise it raises the error of the first page that gives none. */
  lemma {:induction false} SitesRunCachedResult(file: CacheFile, hs: seq<Option<string>>, net: Request -> Reply,
                                                parseSite: string -> SitePage)
    requires forall i :: 0 <= i < |hs| ==> hs[i].Some? && SiteUrl(hs[i].value) in Loaded(file)
    ensures SitesRun(file, hs, net, parseSite).result.Ok? <==>
      forall i :: 0 <= i < |hs| ==> SiteRecord(parseSite, Ok(Loaded(file)[SiteUrl(hs[i].value)])).Ok?
    ensures SitesRun(file, hs, net, parseSite).result.Ok? ==>
      forall i :: 0 <= i < |hs| ==>
        SiteRecord(parseSite, Ok(Loaded(file)[SiteUrl(hs[i].value)])) == Ok(SitesRun(file, hs, net, parseSite).result.value[i])
    ensures SitesRun(file, hs, net, parseSite).result.Err? ==>
      exists i :: 0 <= i < |hs|
        && SiteRecord(parseSite, Ok(Loaded(file)[SiteUrl(hs[i].value)])).Err?
        && SitesRun(file, hs, net, parseSite).result.error == SiteRecord(parseSite, Ok(Loaded(file)[SiteUrl(hs[i].value)])).error
        && forall j :: 0 <= j < i ==> SiteRecord(parseSite, Ok(Loaded(file)[SiteUrl(hs[j].value)])).Ok?
    decreases |hs|
  {
    if hs != [] {
      var run := SitesRun(file, hs, net, parseSite);
      var tl := hs[1..];
      assert forall i :: 0 <= i < |tl| ==> tl[i] == hs[i + 1];
      SitesRunCachedResult(file, tl, net, parseSite);
      SitesRunCached(file, hs, net, parseSite);
      var url := SiteUrl(hs[0].value);
      var o := Fetch(file, url, PageRequest(url), net(PageRequest(url)), false);
      assert o.file == file && o.result == Ok(Loaded(file)[url]);
      var site := SiteRecord(parseSite, o.result);
      if site.Ok? {
        var rest := SitesRun(file, tl, net, parseSite);
        assert run == After([site.value], Sent(o), rest);
        if run.result.Ok? {
          SitesRunOk(file, hs, net, parseSite);
          forall i | 0 <= i < |hs|
            ensures SiteRecord(parseSite, Ok(Loaded(file)[SiteUrl(hs[i].value)])) == Ok(run.result.value[i])
          {
            assert RecordFromCache(run.file, hs, run.result.value, parseSite, i);
          }
        } else {
          var k :| 0 <= k < |tl| && SiteRecord(parseSite, Ok(Loaded(file)[SiteUrl(tl[k].value)])).Err?
            && rest.result.error == SiteRecord(parseSite, Ok(Loaded(file)[SiteUrl(tl[k].value)])).error
            && forall j :: 0 <= j < k ==> SiteRecord(parseSite, Ok(Loaded(file)[SiteUrl(tl[j].value)])).Ok?;
          assert hs[k + 1] == tl[k] && run.result == rest.result;
          forall j | 0 <= j < k + 1 ensures SiteRecord(parseSite, Ok(Loaded(file)[SiteUrl(hs[j].value)])).Ok? {
            if j > 0 { assert hs[j] == tl[j - 1]; }
          }
        }
      }
    }
  }

  /** On success the state page is cached with the list it was read from, there is one
      record per heading, the i-th extracted from the page cached for the i-th site URL,
      and no entry that was in the cache has changed. */
  lemma SitesForStateOk(file: CacheFile, stateUrl: string, net: Request -> Reply,
                        parseList: string -> Option<seq<Option<string>>>, parseSite: string -> SitePage)
    ensures Extends(file, SitesForState(file, stateUrl, net, parseList, parseSite).file)
    ensures var s := SitesForState(file, stateUrl, net, parseList, parseSite);
      s.result.Ok? ==>
        && stateUrl in Loaded(s.file)
        && Headings(parseList, Loaded(s.file)[stateUrl]).Some?
        && var hs := Headings(parseList, Loaded(s.file)[stateUrl]).value;
        && |s.result.value| == |hs|
        && forall i :: 0 <= i < |hs| ==> RecordFromCache(s.file, hs, s.result.value, parseSite, i)
  {
    var s := SitesForState(file, stateUrl, net, parseList, parseSite);
    var o := Fetch(file, stateUrl, PageRequest(stateUrl), net(PageRequest(stateUrl)), false);
    FetchKeepsEntries(file, stateUrl, PageRequest(stateUrl), net(PageRequest(stateUrl)), false);
    if o.result.Err? || Headings(parseList, o.result.value).None? {
      assert s.file == o.file && s.result.Err?;
    } else {
      var hs := Headings(parseList, o.result.value).value;
      var run := SitesRun(o.file, hs, net, parseSite);
      assert s == After([], Sent(o), run);
      SitesRunExtends(o.file, hs, net, parseSite);
      if run.result.Ok? {
        SitesRunOk(o.file, hs, net, parseSite);
        assert Loaded(s.file)[stateUrl] == o.result.value;
        assert s.result.value == run.result.value;
      }
    }
  }

  /** With the state page and every site page it lists already cached, the whole
      retrieval sends nothing and leaves the file as it was. */
  lemma SitesForStateCached(file: CacheFile, stateUrl: string, net: Request -> Reply,
                            parseList: string -> Option<seq<Option<string>>>, parseSite: string -> SitePage,
                            hs: seq<Option<string>>)
    requires stateUrl in Loaded(file) && Headings(parseList, Loaded(file)[stateUrl]) == Some(hs)
    requires forall i :: 0 <= i < |hs| ==> hs[i].Some? && SiteUrl(hs[i].value) in Loaded(file)
    ensures SitesForState(file, stateUrl, net, parseList, parseSite).sent == []
    ensures SitesForState(file, stateUrl, net, parseList, parseSite).file == file
    ensures SitesForState(file, stateUrl, net, parseList, parseSite).result.Ok? <==>
      forall i :: 0 <= i < |hs| ==> SiteRecord(parseSite, Ok(Loaded(file)[SiteUrl(hs[i].value)])).Ok?
    ensures SitesForState(file, stateUrl, net, parseList, parseSite).result.Ok? ==>
      && |SitesForState(file, stateUrl, net, parseList, parseSite).result.value| == |hs|
      && forall i :: 0 <= i < |hs| ==>
           SiteRecord(parseSite, Ok(Loaded(file)[SiteUrl(hs[i].value)]))
             == Ok(SitesForState(file, stateUrl, net, parseList, parseSite).result.value[i])
  {
    SitesRunCached(file, hs, net, parseSite);
    SitesRunCachedResult(file, hs, net, parseSite);
    var o := Fetch(file, stateUrl, PageRequest(stateUrl), net(PageRequest(stateUrl)), false);
    assert o.file == file && o.result == Ok(Loaded(file)[stateUrl]) && Sent(o) == [];
    AfterNothing([], SitesRun(file, hs, net, parseSite));
  }

  /** `get_nearby_places`: the radius search around the site's zip code, cached under
      the endpoint alone, so the zip code of a later site is never sent once one
      search has been stored. */
  method GetNearbyPlaces(store: CacheStore, site: NationalSite, apiKey: string, net: Request -> Reply)
    returns (r: Result<Value>)
    modifies store
    ensures var req := NearbyRequest(apiKey, site.zipcode);
      var o := Fetch(old(store.file), ApiEndpoint, req, net(req), true);
      r == o.result && store.file == o.file && store.sent == old(store.sent) + Sent(o)
  {
    r := store.FetchOrCache(ApiEndpoint, NearbyRequest(apiKey, site.zipcode), net, true);
  }

  /** Once a search has been stored, a search for any other site, whatever its zip code,
      sends nothing and returns the stored payload. */
  lemma NearbyIgnoresZipcode(file: CacheFile, apiKey: string, first: NationalSite, second: NationalSite,
                             reply1: Reply, reply2: Reply)
    requires Fetch(file, ApiEndpoint, NearbyRequest(apiKey, first.zipcode), reply1, true).result.Ok?
    ensures var o1 := Fetch(file, ApiEndpoint, NearbyRequest(apiKey, first.zipcode), reply1, true);
      var o2 := Fetch(o1.file, ApiEndpoint, NearbyRequest(apiKey, second.zipcode), reply2, true);
      o2.request == None && o2.result == o1.result && o2.file == o1.file
  {
    FetchTwice(file, ApiEndpoint, NearbyRequest(apiKey, first.zipcode), reply1,
               NearbyRequest(apiKey, second.zipcode), reply2, true);
  }

  /** The request a first search sends carries the first site's zip code as origin. */
  lemma NearbySendsFirstZipcode(file: CacheFile, apiKey: string, site: NationalSite, reply: Reply)
    requires ApiEndpoint !in Loaded(file)
    ensures var o := Fetch(file, ApiEndpoint, NearbyRequest(apiKey, site.zipcode), reply, true);
      o.request.Some? && o.request.value.url == ApiEndpoint && ("origin", site.zipcode) in o.request.value.params
  {
    assert NearbyRequest(apiKey, site.zipcode).params[1] == ("origin", site.zipcode);
  }

  /** A first search whose reply is JSON stores the decoded answer under the endpoint
      and returns it, whatever the status. */
  lemma NearbyStoresDecodedBody(file: CacheFile, apiKey: string, site: NationalSite, status: int, text: string, json: Json)
    requires ApiEndpoint !in Loaded(file)
    ensures var o := Fetch(file, ApiEndpoint, NearbyRequest(apiKey, site.zipcode), Received(status, text, Some(json)), true);
      o.result == Ok(Payload(json))
      && ApiEndpoint in Loaded(o.file) && Loaded(o.file)[ApiEndpoint] == Payload(json)
  {
  }

  /** A reply whose body is not JSON makes the search raise and is not stored, so the
      next search sends a request again. */
  lemma NearbyNotJsonIsRetried(file: CacheFile, apiKey: string, site: NationalSite, status: int, text: string, reply2: Reply)
    requires ApiEndpoint !in Loaded(file)
    ensures var o1 := Fetch(file, ApiEndpoint, NearbyRequest(apiKey, site.zipcode), Received(status, text, None), true);
      o1.result == Err(BodyNotJson) && o1.file == file
      && Fetch(o1.file, ApiEndpoint, NearbyRequest(apiKey, site.zipcode), reply2, true).request.Some?
  {
  }
}
