# nps.gov scraper: fetch-or-cache core and field rules

This project models the core of a small scraper for nps.gov. The scraper builds a map
from state name to state page, lists the national sites of a state and extracts a
record for each one: category, name, address, zip code and phone. It also queries the
MapQuest radius search for places near a site.

Every retrieval goes through one fetch-or-cache discipline, written out four times in
the program. Each call:
- loads the JSON cache file;
- on a hit, returns the stored value;
- on a miss, sends one request, stores the answer under the key in the loaded map and
  rewrites the whole file.

The model has five modules:

- `Errors`: `Option`, `Result` and the ways a call can raise.
- `Text`: Python's `str.split()`, `str.split('\n')` and `str.lower()` on `seq<char>`,
  with lemmas that characterise them.
- `Cache`: the cache file, replies and requests as datatypes; `Fetch`, a pure
  specification of one fetch-or-cache step, with its table-update lemmas; and the class
  `CacheStore`. That class holds the file (`file`) and a ghost log of the requests sent
  (`sent`). Its methods `OpenCache`, `SaveCache` and `FetchOrCache` are proved against
  `Loaded` and `Fetch`.
- `Sites`: the `NationalSite` record and `info()`, the address, zip and phone rules,
  the URL rules, and the state map `StateDict` with its lemmas.
- `Scrape`: the four retrieval functions, as methods over a `CacheStore`, each proved
  against the pure functions above. The site list of a state has its own pure
  specification: `SitesRun` is the loop over the list headings, and `SitesForState` is
  the state-page fetch followed by that loop. The module also holds the lemmas about
  the MapQuest cache key.

Quirks of the program kept as they are:
- The MapQuest search is cached under the endpoint URL alone. Once one search is
  stored, every later site gets the same payload and its zip code is never sent.
- Any reply that does not raise is stored, error statuses included. The status code is
  never looked at.
- The cache file is reloaded at the start of every retrieval, not once per process.
- The zip code is the first whitespace-separated token of the postal-code text. A
  ZIP+4 code such as `82190-0168` is therefore kept whole: it is not cut to its first
  five digits.

## Model

| member | source | states |
|---|---|---|
| Cache.Loaded | proj2_nps.py:220-227 | the map a file loads as: a stored map is itself, a missing or unreadable file is the empty map |
| Cache.Produce | proj2_nps.py:70-71 | a miss yields a value exactly when the connection succeeded and, for the API call, the body is JSON; a page is its text whatever the status, and the payload is the decoded body; otherwise the connection or JSON error |
| Cache.Fetch | proj2_nps.py:62-76 | a request is sent exactly when the key is missing from the loaded file, and it is the given request; a failure leaves the file as it was |
| Cache.FetchRun | proj2_nps.py:62-76 | a run of fetch-or-cache calls on one key gives one outcome per call |
| Cache.OpenAfterSave | proj2_nps.py:220-245 | a saved map loads back whole; a missing or unreadable file loads as the empty map |
| Cache.FetchHit | proj2_nps.py:62-76 | on a hit nothing is sent, the file is unchanged and the stored value is returned |
| Cache.FetchMiss | proj2_nps.py:67-72 | on a miss exactly one request is sent; on success the key maps to the produced value and every other key keeps its presence and value; on failure the error propagates and the file is untouched |
| Cache.AnyPageReplyIsStored | proj2_nps.py:70-71 | a page reply with any status is stored and returned; only a failed connection is not |
| Cache.FetchWritesOnlyOnMiss | proj2_nps.py:64-72 | the file is rewritten exactly when the key was missing and the producer succeeded |
| Cache.FetchKeepsEntries | proj2_nps.py:104-108 | no entry is ever changed or dropped, and after a successful fetch the key is stored with the returned value |
| Cache.FetchTwice | proj2_nps.py:150-163 | a second fetch of a key whose first fetch succeeded is a hit with the same value and sends nothing |
| Cache.RunFromHit | proj2_nps.py:98-112 | once a key is stored, every fetch of it in any run of calls sends nothing and returns the stored value |
| Cache.RunAtMostOneSuccessfulFetch | proj2_nps.py:62-76 | in any run of fetches of one key, every call after a successful one is a hit with the same value; a run starting with the key stored sends nothing |
| Cache.CacheStore.OpenCache | proj2_nps.py:207-227 | returns the file's map, or the empty map for a missing or unreadable file |
| Cache.CacheStore.SaveCache | proj2_nps.py:230-245 | the file is overwritten with the whole map, which then loads back unchanged |
| Cache.CacheStore.FetchOrCache | proj2_nps.py:62-76 | the result, the new file and the request log are those of `Fetch` on the old file; entries are only added; a success leaves the key stored with the returned value |
| Text.Words | proj2_nps.py:123-124 | `split()` gives non-empty, whitespace-free words whose concatenation is exactly the non-whitespace characters of the text |
| Text.WordsEmpty | proj2_nps.py:123-124 | `split()` is empty exactly when the text is all whitespace |
| Text.FirstWord | proj2_nps.py:123-124 | the first word of whitespace + w + (end or whitespace) is w, whatever non-whitespace characters w holds |
| Text.Lines | proj2_nps.py:131 | `split('\n')` gives at least one piece, even for the empty text |
| Text.LinesSplit | proj2_nps.py:131 | no piece of `split('\n')` holds a newline, and joining the pieces with newlines gives the text back |
| Text.LinesHasSecond | proj2_nps.py:131 | the split has a piece at index 1 exactly when the text holds a newline |
| Text.SecondLine | proj2_nps.py:131 | in first + "\n" + second + (end or newline) the piece at index 1 is second |
| Text.Lower | proj2_nps.py:80 | `lower()` keeps the length and maps each character by the ASCII lower-case rule |
| Text.LowerIdempotent | proj2_nps.py:80 | lower-casing twice equals lower-casing once |
| Text.LowerKeepsLowerCase | proj2_nps.py:80 | a text without upper-case ASCII letters is left as it is |
| Sites.NationalSite.Info | proj2_nps.py:42-43 | `info()` is the name, " (", the category, "): ", the address, a space and the zip code |
| Sites.Zipcode | proj2_nps.py:123-124 | there is no zip code exactly when the postal-code text is all whitespace; otherwise it is a non-empty token without whitespace |
| Sites.AddressFields | proj2_nps.py:119-129 | address and zip code are both filled or both ""; the zip code holds no whitespace |
| Sites.AddressFieldsFilled | proj2_nps.py:119-129 | the fields are filled exactly when the address span, its street, region and postal code are present and the postal code has a token; then address is street + ", " + region and zip code is the first token |
| Sites.ZipPlusFourKeptWhole | proj2_nps.py:29 | a whitespace-free postal code such as a hyphenated ZIP+4, padded by whitespace, is the zip code whole |
| Sites.BlankPostalClearsAddress | proj2_nps.py:120-129 | a blank postal code resets the address too, although the address was already formed |
| Sites.Phone | proj2_nps.py:131 | the phone exists exactly when the tel element is present and its text holds a newline, and holds no newline |
| Sites.PhoneIsSecondLine | proj2_nps.py:131 | for a tel text "<caption>\n<number>..." the phone is the number |
| Sites.SiteFromPage | proj2_nps.py:113-132 | a record is built exactly when title and a two-line tel text are present; name is the title, category the designation or "", address and zip code default together, phone is the second line |
| Sites.MissingAddressDefaults | proj2_nps.py:119-132 | a page with no address block still gives a record, with address and zip code "" |
| Sites.InfoEndsWithZipcode | proj2_nps.py:42-43 | `info()` ends with the zip code after a space, so a whitespace-free zip code reads back as its last word |
| Sites.ExtractedInfoEndsWithZipcode | proj2_nps.py:35-43 | every extracted record's zip code reads back from its `info()` line |
| Sites.StateUrl | proj2_nps.py:80 | a state URL is the site root followed by the menu href; `MichiganUrl` and `MichiganExample` state it on the sample |
| Sites.SiteUrl | proj2_nps.py:168 | a site URL is the site root, then the heading href, then "index.htm"; `SiteUrlInjective` states what it guarantees |
| Sites.SiteUrlInjective | proj2_nps.py:166-168 | different heading hrefs give different site URLs |
| Sites.StateDict | proj2_nps.py:79-80 | the menu entries are added in order, each under its lower-cased text, and an entry without a link raises; `StateDictDefined`, `StateDictKeys` and `StateDictLastWins` state what the map holds |
| Sites.StateDictDefined | proj2_nps.py:79-80 | the state map is built exactly when every menu entry has a link; otherwise the missing link is the error |
| Sites.StateDictKeys | proj2_nps.py:79-80 | the keys are exactly the lower-cased entry texts |
| Sites.StateDictLastWins | proj2_nps.py:79-80 | each key holds the URL of the last entry with that key |
| Sites.StateKeysAreLowerCase | proj2_nps.py:80 | every key is already lower-case |
| Sites.MichiganKey | proj2_nps.py:80 | the menu text "Michigan" lower-cases to "michigan" |
| Sites.MichiganUrl | proj2_nps.py:80 | the link "/state/mi/index.htm" gives "https://www.nps.gov/state/mi/index.htm" |
| Sites.MichiganExample | proj2_nps.py:58 | a menu with the single entry "Michigan" gives {"michigan": "https://www.nps.gov/state/mi/index.htm"} |
| Scrape.NearbyRequest | proj2_nps.py:191-198 | the radius search request: the endpoint, with the key, the zip code as origin, a 10-mile radius, at most 10 matches, ambiguities ignored and JSON out |
| Scrape.DirectoryIndex | proj2_nps.py:76-80 | a fetch error propagates; a map is built only from a fetched page whose state menu is found |
| Scrape.SiteRecord | proj2_nps.py:112-132 | a fetch error propagates, a JSON payload is no page, and a record built has a zip code without whitespace |
| Scrape.Headings | proj2_nps.py:163-164 | a JSON payload has no park list |
| Scrape.BuildStateUrlDict | proj2_nps.py:47-81 | the loop builds `StateDict` of the menu entries of the fetched directory page; file and log follow `Fetch` |
| Scrape.GetSiteInstance | proj2_nps.py:84-132 | the record is `SiteFromPage` of the fetched page; file and log follow `Fetch`; on success the page stays cached |
| Scrape.SitesRun | proj2_nps.py:166-168 | the site loop: on success there is one record per heading, and it sends at most one request per heading |
| Scrape.SitesForState | proj2_nps.py:150-169 | `get_sites_for_state` as a value: the state-page fetch, its park list (an error when it is missing), then the site loop over its headings |
| Scrape.FetchSites | proj2_nps.py:166-169 | the result, the new file and the request log are those of `SitesRun` on the old file |
| Scrape.GetSitesForState | proj2_nps.py:136-169 | the result, the new file and the request log are those of `SitesForState` on the old file |
| Scrape.SitesRunExtends | proj2_nps.py:166-168 | the site loop never changes or drops a cache entry |
| Scrape.SitesRunOk | proj2_nps.py:166-168 | when the loop succeeds every heading has a link, and the i-th record is the one extracted from the page cached afterwards under the i-th site URL |
| Scrape.SitesRunCached | proj2_nps.py:166-168 | when every listed site page is already cached, the loop sends nothing and leaves the file as it was |
| Scrape.SitesRunCachedResult | proj2_nps.py:166-169 | when every listed site page is already cached, the loop succeeds exactly when every cached page gives a record, then returns those records in heading order, and otherwise raises the error of the first page that gives none |
| Scrape.SitesForStateOk | proj2_nps.py:150-169 | no cache entry is changed; on success the state page is cached, there is one record per heading of its park list, and the i-th is extracted from the page cached under the i-th site URL |
| Scrape.SitesForStateCached | proj2_nps.py:150-169 | with the state page and every site page it lists already cached, nothing is sent and the file is left as it was; the call succeeds exactly when every cached site page gives a record, and then returns one record per heading, in order, each extracted from that page |
| Scrape.GetNearbyPlaces | proj2_nps.py:171-205 | the result, file and log are those of `Fetch` with the endpoint as key and the site's zip code only in the request |
| Scrape.NearbyIgnoresZipcode | proj2_nps.py:184-204 | after one stored search, a search for any other site, whatever its zip code, sends nothing and returns the same payload |
| Scrape.NearbySendsFirstZipcode | proj2_nps.py:185-198 | the first search sends a request to the endpoint whose origin is that site's zip code |
| Scrape.NearbyStoresDecodedBody | proj2_nps.py:198-205 | a first search answered with JSON stores the decoded body under the endpoint and returns it, whatever the status |
| Scrape.NearbyNotJsonIsRetried | proj2_nps.py:198-200 | a reply that is not JSON raises, is not stored, and the next search sends again |

## Left out

- HTML parsing (BeautifulSoup `find`, `find_all`, `.text`) is an external library. Its results are parameters: `parseMenu`, `parseList` and `parseSite` map a page's text to the texts they would find, and a missing element is `None`.
- `requests.get` and `response.json()` are network calls. They are the parameter `net`, which maps a request to a `Reply`. A reply carries the status, the text and the decoded JSON, or `None` when decoding would raise.
- File reads and writes and `json.dumps`/`json.loads` are I/O and serialisation. The file is the datatype `CacheFile`: missing, corrupt, or a stored map. A write is atomic and a crash in the middle of a write is not modelled.
- SaveCache: a write that fails (a read-only file or a full disk, proj2_nps.py:243-245) is not modelled. The program then raises after the request was sent, and may leave the file truncated. In the model the write always succeeds, so `Fetch` and `FetchOrCache` return `Ok` in that case.
- A cache file holding valid JSON that is not an object is treated as `Corrupt` and read as empty. The program would instead fail on its first store.
- A cached API payload handed to the HTML parser is not modelled in detail: it is the error `NotMarkup`.
- JSON numbers are integers: floating point is not modelled.
- Text.Lower: lower-cases ASCII letters only. Python's `lower()` also maps non-ASCII letters, which state names on the site do not use.
- Text.Words: uses the `str.isspace()` characters up to U+3000; the character set is not checked against every Unicode version.
- The API key (`secrets.API_KEY`) is an opaque string parameter.
- The "Fetching" and "Using cache" messages, and the unused global `CACHE_DICT`, have no effect on results.
- The interactive prompt loop (proj2_nps.py:247-303) is user interface. It has two evident slips. The range test at line 280 (`leng_site > leng_site`) can never be true. The exit test at line 273 looks at `state_name` instead of the input just read. Neither is modelled.
