/** The fetch-or-cache discipline of the scraper: a JSON file on disk maps each
    request key to the response stored for it, and every retrieval first loads that
    file, answers from it on a hit, and on a miss asks the network once, stores the
    answer under the key and rewrites the whole file. */
module Cache {
  import opened Errors

  /** A decoded JSON document, as `response.json()` returns it. */
  datatype Json =
    | JNull
    | JBool(b: bool)
    | JNumber(n: int)
    | JString(s: string)
    | JArray(items: seq<Json>)
    | JObject(members: map<string, Json>)

  /** What the cache stores under a key: the text of an HTML page, or a decoded API answer. */
  datatype Value = Page(text: string) | Payload(json: Json)

  /** The cache file: absent, present but not a JSON object, or a stored map. */
  datatype CacheFile = Missing | Corrupt | Stored(entries: map<string, Value>)

  /** An outbound GET: the URL and its query parameters. */
  datatype Request = Request(url: string, params: seq<(string, string)>)

  /** What the network gives back for one request. `json` is the body decoded as JSON,
      or None when `response.json()` would raise. */
  datatype Reply =
    | ConnectionFailed
    | Received(status: int, text: string, json: Option<Json>)

  /** What one fetch returns, what the file holds afterwards, and the request it sent. */
  datatype FetchOutcome = FetchOutcome(result: Result<Value>, file: CacheFile, request: Option<Request>)

  /** The map `open_cache` yields for a file: a missing or unreadable file reads as empty. */
  function Loaded(file: CacheFile): map<string, Value> {
    match file
    case Stored(entries) => entries
    case _ => map[]
  }

  /** What a miss stores: `response.text` for a page, `response.json()` for the API call.
      The status code is not looked at, so an error page is stored like any other. */
  function Produce(reply: Reply, asJson: bool): (r: Result<Value>)
    ensures r.Ok? <==> reply.Received? && (asJson ==> reply.json.Some?)
    ensures r.Ok? ==> (r.value.Page? <==> !asJson)
    ensures r.Ok? && !asJson ==> r.value == Page(reply.text)
    ensures r.Ok? && asJson ==> r.value == Payload(reply.json.value)
    ensures r.Err? ==> r.error == (if reply.ConnectionFailed? then RequestFailed else BodyNotJson)
  {
    match reply
    case ConnectionFailed => Err(RequestFailed)
    case Received(_, text, json) =>
      if !asJson then Ok(Page(text))
      else if json.Some? then Ok(Payload(json.value))
      else Err(BodyNotJson)
  }

  /** One fetch-or-cache step. `reply` is what the network would answer if asked. */
  function Fetch(file: CacheFile, key: string, req: Request, reply: Reply, asJson: bool): (o: FetchOutcome)
    ensures o.request.None? <==> key in Loaded(file)
    ensures o.request.Some? ==> o.request.value == req
    ensures o.result.Err? ==> o.file == file
  {
    var cache := Loaded(file);
    if key in cache then FetchOutcome(Ok(cache[key]), file, None)
    else
      match Produce(reply, asJson)
      case Err(e) => FetchOutcome(Err(e), file, Some(req))
      case Ok(v) => FetchOutcome(Ok(v), Stored(cache[key := v]), Some(req))
  }

  function Sent(o: FetchOutcome): seq<Request> {
    if o.request.Some? then [o.request.value] else []
  }

  /** Every entry of `before` is still in `after`, with the same value. */
  ghost predicate Extends(before: CacheFile, after: CacheFile) {
    forall k :: k in Loaded(before) ==> k in Loaded(after) && Loaded(after)[k] == Loaded(before)[k]
  }

  // ---------------------------------------------------------------------------
  // Properties of one fetch

  /** A missing or unreadable file loads as an empty cache; a saved map loads back whole. */
  lemma OpenAfterSave(m: map<string, Value>)
    ensures Loaded(Stored(m)) == m
    ensures Loaded(Missing) == map[] && Loaded(Corrupt) == map[]
  {
  }

  /** On a hit nothing is sent, the file is left alone and the stored value is returned. */
  lemma FetchHit(file: CacheFile, key: string, req: Request, reply: Reply, asJson: bool)
    requires key in Loaded(file)
    ensures var o := Fetch(file, key, req, reply, asJson);
      o.request == None && o.file == file && o.result == Ok(Loaded(file)[key])
  {
  }

  /** On a miss exactly one request is sent. If it yields a value, the file becomes the
      old map with the key bound to that value and every other key as it was, whatever
      status the reply had; if it fails, the failure is returned and the file is untouched. */
  lemma FetchMiss(file: CacheFile, key: string, req: Request, reply: Reply, asJson: bool)
    requires key !in Loaded(file)
    ensures var o := Fetch(file, key, req, reply, asJson);
      && o.request == Some(req)
      && o.result == Produce(reply, asJson)
      && (o.result.Err? ==> o.file == file)
      && (o.result.Ok? ==>
            && o.file.Stored?
            && key in Loaded(o.file) && Loaded(o.file)[key] == o.result.value
            && (forall k :: k != key ==> (k in Loaded(o.file) <==> k in Loaded(file)))
            && (forall k :: k != key && k in Loaded(file) ==> Loaded(o.file)[k] == Loaded(file)[k]))
  {
  }

  /** A page reply is stored whatever its status: only a failed connection is not. */
  lemma AnyPageReplyIsStored(file: CacheFile, key: string, req: Request, reply: Reply)
    requires key !in Loaded(file) && reply.Received?
    ensures Fetch(file, key, req, reply, false).result == Ok(Page(reply.text))
    ensures Loaded(Fetch(file, key, req, reply, false).file) == Loaded(file)[key := Page(reply.text)]
  {
  }

  /** The file is rewritten exactly when the key was missing and the producer succeeded. */
  lemma FetchWritesOnlyOnMiss(file: CacheFile, key: string, req: Request, reply: Reply, asJson: bool)
    ensures var o := Fetch(file, key, req, reply, asJson);
      o.file != file <==> key !in Loaded(file) && Produce(reply, asJson).Ok?
  {
    var o := Fetch(file, key, req, reply, asJson);
    if key !in Loaded(file) && Produce(reply, asJson).Ok? {
      assert key in Loaded(o.file);
    }
  }

  /** A fetch never changes or drops an entry, and after a successful one the key is
      stored with the value that was returned. */
  lemma FetchKeepsEntries(file: CacheFile, key: string, req: Request, reply: Reply, asJson: bool)
    ensures Extends(file, Fetch(file, key, req, reply, asJson).file)
    ensures var o := Fetch(file, key, req, reply, asJson);
      o.result.Ok? ==> key in Loaded(o.file) && Loaded(o.file)[key] == o.result.value
  {
  }

  /** A second fetch of a key whose first fetch succeeded, with the file as the first
      left it, is a hit: nothing is sent and the same value comes back. */
  lemma FetchTwice(file: CacheFile, key: string, req1: Request, reply1: Reply,
                   req2: Request, reply2: Reply, asJson: bool)
    requires Fetch(file, key, req1, reply1, asJson).result.Ok?
    ensures var o1 := Fetch(file, key, req1, reply1, asJson);
      var o2 := Fetch(o1.file, key, req2, reply2, asJson);
      o2.request == None && o2.result == o1.result && o2.file == o1.file
  {
    FetchKeepsEntries(file, key, req1, reply1, asJson);
  }

  // ---------------------------------------------------------------------------
  // Repeated fetches of one key

  /** The outcomes of fetching `key` once per reply in `replies`, each call seeing the
      file the previous one left. */
  function FetchRun(file: CacheFile, key: string, req: Request, replies: seq<Reply>, asJson: bool): (outs: seq<FetchOutcome>)
    ensures |outs| == |replies|
    decreases |replies|
  {
    if replies == [] then []
    else
      var o := Fetch(file, key, req, replies[0], asJson);
      [o] + FetchRun(o.file, key, req, replies[1..], asJson)
  }

  lemma {:induction false} RunFromHit(file: CacheFile, key: string, req: Request, replies: seq<Reply>, asJson: bool)
    requires key in Loaded(file)
    ensures forall j :: 0 <= j < |replies| ==>
      FetchRun(file, key, req, replies, asJson)[j].request == None &&
      FetchRun(file, key, req, replies, asJson)[j].result == Ok(Loaded(file)[key])
    decreases |replies|
  {
    if replies != [] {
      var outs := FetchRun(file, key, req, replies, asJson);
      var o := Fetch(file, key, req, replies[0], asJson);
      assert o.file == file && o.request == None && o.result == Ok(Loaded(file)[key]);
      var tail := FetchRun(file, key, req, replies[1..], asJson);
      assert outs == [o] + tail;
      RunFromHit(file, key, req, replies[1..], asJson);
      forall j | 0 <= j < |outs|
        ensures outs[j].request == None && outs[j].result == Ok(Loaded(file)[key])
      {
        if j > 0 { assert outs[j] == tail[j - 1]; }
      }
    }
  }

  /** Once a fetch of a key has succeeded, every later fetch of it in the run is a hit
      returning the same value: the producer runs at most once after which it never
      runs again, and a run that starts with the key stored sends nothing at all. */
  lemma {:induction false} RunAtMostOneSuccessfulFetch(file: CacheFile, key: string, req: Request, replies: seq<Reply>, asJson: bool)
    ensures forall i, j :: 0 <= i < j < |replies| && FetchRun(file, key, req, replies, asJson)[i].result.Ok? ==>
      FetchRun(file, key, req, replies, asJson)[j].request == None &&
      FetchRun(file, key, req, replies, asJson)[j].result == FetchRun(file, key, req, replies, asJson)[i].result
    ensures key in Loaded(file) ==>
      forall j :: 0 <= j < |replies| ==> FetchRun(file, key, req, replies, asJson)[j].request == None
    decreases |replies|
  {
    if replies != [] {
      var outs := FetchRun(file, key, req, replies, asJson);
      var o := outs[0];
      var tail := FetchRun(o.file, key, req, replies[1..], asJson);
      assert outs == [o] + tail;
      RunAtMostOneSuccessfulFetch(o.file, key, req, replies[1..], asJson);
      if key in Loaded(file) {
        RunFromHit(file, key, req, replies, asJson);
      }
      if o.result.Ok? {
        FetchKeepsEntries(file, key, req, replies[0], asJson);
        RunFromHit(o.file, key, req, replies[1..], asJson);
      }
      forall i, j | 0 <= i < j < |outs| && outs[i].result.Ok?
        ensures outs[j].request == None && outs[j].result == outs[i].result
      {
        assert outs[j] == tail[j - 1];
        if i > 0 {
          assert outs[i] == tail[i - 1];
          assert 0 <= i - 1 < j - 1 < |tail| && tail[i - 1].result.Ok?;
        } else {
          assert o.result.Ok? && tail[j - 1].result == Ok(Loaded(o.file)[key]);
        }
      }
    }
  }

  // ---------------------------------------------------------------------------
  // The cache as the program holds it

  /** The cache file and the requests sent so far. Each operation loads the file
      afresh, as `open_cache` is called at the start of every retrieval. */
  class CacheStore {
    /** The cache file on disk. */
    var file: CacheFile
    /** Every request put on the network so far, oldest first. */
    ghost var sent: seq<Request>

    constructor (initial: CacheFile)
      ensures file == initial && sent == []
    {
      file := initial;
      sent := [];
    }

    /** `open_cache`: the whole file as a map; a missing or unreadable file is an empty map. */
    method OpenCache() returns (m: map<string, Value>)
      ensures m == Loaded(file)
    {
      match file
      case Stored(entries) => m := entries;
      case Missing => m := map[];
      case Corrupt => m := map[];
    }

    /** `save_cache`: overwrite the file with the whole map. */
    method SaveCache(m: map<string, Value>)
      modifies this`file
      ensures file == Stored(m)
      ensures Loaded(file) == m
    {
      file := Stored(m);
    }

    /** The fetch-or-cache block: answer from the loaded map on a hit; on a miss send
        `req` once, store what it produced under `key` in the loaded map and save it.
        A failure propagates and leaves the file as it was. */
    method FetchOrCache(key: string, req: Request, net: Request -> Reply, asJson: bool) returns (r: Result<Value>)
      modifies this
      ensures var o := Fetch(old(file), key, req, net(req), asJson);
        r == o.result && file == o.file && sent == old(sent) + Sent(o)
      ensures Extends(old(file), file)
      ensures r.Ok? ==> key in Loaded(file) && Loaded(file)[key] == r.value
    {
      FetchKeepsEntries(file, key, req, net(req), asJson);
      var cache := OpenCache();
      if key !in cache {
        sent := sent + [req];
        var produced := Produce(net(req), asJson);
        if produced.Err? {
          return Err(produced.error);
        }
        cache := cache[key := produced.value];
        SaveCache(cache);
      }
      r := Ok(cache[key]);
    }
  }
}
