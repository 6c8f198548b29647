/**
 * The read-through cache of `getIcon.ts`: `getIcon` answers from the
 * in-memory map when the key `name:version` is present and otherwise runs
 * `iconFromCDN`, which resolves the path, fetches and matches the SVG, and
 * stores the result under that same key.
 */
module IconCache {
  import opened Wrappers
  import opened JsText
  import opened IconPath

  /** The record kept for one icon: the `viewBox` attribute and the markup inside `<svg>`. */
  datatype IconData = IconData(viewBox: string, inner: string)

  /** The in-memory cache, keyed by `name:version`. */
  type Cache = map<string, IconData>

  /**
   * The world outside the process. `fetch` maps a CDN-relative path to the
   * response body, or `None` when the request is rejected (any HTTP status
   * yields a body). `matchSvg` is the `ICON_REGEX` match: the two captured
   * groups, or `None` when `ICON_REGEX` does not match (no
   * `<svg ...>...</svg>`, or one without a `viewBox="..."` attribute).
   */
  datatype Net = Net(fetch: string -> Option<string>, matchSvg: string -> Option<IconData>)

  /** What one call hands back: its result, the cache afterwards, and whether the CDN was asked. */
  datatype Outcome = Outcome(result: Result<IconData, Err>, cache: Cache, fetched: bool)

  /** One requested icon. */
  datatype Request = Request(name: string, version: string)

  /** The cache key of a request. */
  function CacheKey(name: string, version: string): (k: string)
    ensures |k| == |name| + 1 + |version|
    ensures k[..|name|] == name && k[|name|] == ':' && k[|name| + 1..] == version
  {
    name + ":" + version
  }

  /** Splits a key at its first ':' back into name and version. */
  function SplitKey(key: string): Option<(string, string)> {
    match IndexOf(key, ":")
    case None => None
    case Some(i) => Some((key[..i], key[i + 1..]))
  }

  /** A name free of ':' is recovered, together with its version, from the key. */
  lemma SplitKeyInvertsCacheKey(name: string, version: string)
    requires ':' !in name
    ensures SplitKey(CacheKey(name, version)) == Some((name, version))
  {
    var key := CacheKey(name, version);
    assert OccursAt(key, ":", |name|);
    forall j | 0 <= j < |name| ensures !OccursAt(key, ":", j) {
      assert key[j] == name[j];
      assert key[j..j + 1][0] == key[j];
    }
    assert IndexOf(key, ":") == Some(|name|);
    assert key[..|name|] == name;
    assert key[|name| + 1..] == version;
  }

  /** Distinct requests whose names are free of ':' never share a cache entry. */
  lemma CacheKeyInjective(n1: string, v1: string, n2: string, v2: string)
    requires ':' !in n1 && ':' !in n2
    requires CacheKey(n1, v1) == CacheKey(n2, v2)
    ensures n1 == n2 && v1 == v2
  {
    SplitKeyInvertsCacheKey(n1, v1);
    SplitKeyInvertsCacheKey(n2, v2);
  }

  /** A ':' inside a name lets two different requests share one cache entry. */
  lemma CacheKeyCollision()
    ensures CacheKey("a:b", "c") == CacheKey("a", "b:c")
  {
  }

  /**
   * `iconFromCDN`: resolve the path, fetch it, match the SVG and store the
   * record under `name:version`. Any failure leaves the cache as it was; a
   * fetch happens exactly when the path resolves.
   */
  function IconFromCdn(catalog: seq<DevIcon>, net: Net, cache: Cache, name: string, version: string)
    : (o: Outcome)
    ensures o.fetched <==> GetUrlPath(catalog, name, version).Success?
    ensures GetUrlPath(catalog, name, version).Failure? ==>
              o.result == Failure(GetUrlPath(catalog, name, version).error)
    ensures o.result.Success? <==>
              && GetUrlPath(catalog, name, version).Success?
              && net.fetch(GetUrlPath(catalog, name, version).value).Some?
              && net.matchSvg(net.fetch(GetUrlPath(catalog, name, version).value).value).Some?
    ensures o.result.Success? ==>
              o.result.value == net.matchSvg(net.fetch(GetUrlPath(catalog, name, version).value).value).value
              && o.cache == cache[CacheKey(name, version) := o.result.value]
    ensures o.result.Failure? ==> o.cache == cache
  {
    match GetUrlPath(catalog, name, version)
    case Failure(e) => Outcome(Failure(e), cache, false)
    case Success(path) =>
      match net.fetch(path)
      case None => Outcome(Failure(FetchFailed(path)), cache, true)
      case Some(body) =>
        match net.matchSvg(body)
        case None => Outcome(Failure(SvgNotMatched(name, version)), cache, true)
        case Some(data) => Outcome(Success(data), cache[CacheKey(name, version) := data], true)
  }

  /**
   * `getIcon`: a hit returns the stored record without fetching and leaves
   * the cache alone; a miss runs `IconFromCdn`, whose only change to the
   * cache is storing a successful result under the requested key.
   */
  function GetIcon(catalog: seq<DevIcon>, net: Net, cache: Cache, name: string, version: string)
    : (o: Outcome)
    ensures CacheKey(name, version) in cache ==>
              o == Outcome(Success(cache[CacheKey(name, version)]), cache, false)
    ensures CacheKey(name, version) !in cache ==>
              o == IconFromCdn(catalog, net, cache, name, version)
    ensures o.result.Success? ==>
              CacheKey(name, version) in o.cache && o.cache[CacheKey(name, version)] == o.result.value
    ensures o.cache.Keys == cache.Keys || o.cache.Keys == cache.Keys + {CacheKey(name, version)}
    ensures forall k :: k in cache ==> k in o.cache && o.cache[k] == cache[k]
  {
    var key := CacheKey(name, version);
    if key !in cache then IconFromCdn(catalog, net, cache, name, version)
    else Outcome(Success(cache[key]), cache, false)
  }

  /**
   * Asking again for an icon that was just served returns the same record,
   * without a fetch and without changing the cache.
   */
  lemma SecondCallHits(catalog: seq<DevIcon>, net: Net, cache: Cache, name: string, version: string)
    requires GetIcon(catalog, net, cache, name, version).result.Success?
    ensures var first := GetIcon(catalog, net, cache, name, version);
            GetIcon(catalog, net, first.cache, name, version) == Outcome(first.result, first.cache, false)
  {
  }

  /**
   * The result of a call does not depend on the cache key being fresh: a
   * miss that succeeds returns what a cold cache would have returned.
   */
  lemma MissIsColdCall(catalog: seq<DevIcon>, net: Net, cache: Cache, name: string, version: string)
    requires CacheKey(name, version) !in cache
    ensures GetIcon(catalog, net, cache, name, version).result
            == GetIcon(catalog, net, map[], name, version).result
  {
  }

  /** The reference meaning of a run of calls: each call sees the cache the previous one left. */
  function ServeSpec(catalog: seq<DevIcon>, net: Net, cache: Cache, requests: seq<Request>)
    : (run: (seq<Result<IconData, Err>>, Cache))
    ensures |run.0| == |requests|
    decreases |requests|
  {
    if |requests| == 0 then ([], cache)
    else
      var last := requests[|requests| - 1];
      var (results, c) := ServeSpec(catalog, net, cache, requests[..|requests| - 1]);
      var o := GetIcon(catalog, net, c, last.name, last.version);
      (results + [o.result], o.cache)
  }

  function KeyOf(r: Request): string {
    CacheKey(r.name, r.version)
  }

  /** A run of calls never replaces an entry it started with. */
  lemma {:induction false} ServeKeepsEntries(catalog: seq<DevIcon>, net: Net, cache0: Cache, requests: seq<Request>)
    ensures var (results, cache) := ServeSpec(catalog, net, cache0, requests);
            |results| == |requests| && forall k :: k in cache0 ==> k in cache && cache[k] == cache0[k]
    decreases |requests|
  {
    if |requests| > 0 {
      ServeKeepsEntries(catalog, net, cache0, requests[..|requests| - 1]);
    }
  }

  /** A run of calls only adds keys that were requested. */
  lemma {:induction false} ServeAddsOnlyRequestedKeys(catalog: seq<DevIcon>, net: Net, cache0: Cache, requests: seq<Request>)
    ensures var cache := ServeSpec(catalog, net, cache0, requests).1;
            forall k :: k in cache ==> k in cache0 || exists i :: 0 <= i < |requests| && KeyOf(requests[i]) == k
    decreases |requests|
  {
    if |requests| > 0 {
      var pre := requests[..|requests| - 1];
      ServeAddsOnlyRequestedKeys(catalog, net, cache0, pre);
      var cache := ServeSpec(catalog, net, cache0, requests).1;
      forall k | k in cache && k !in cache0
        ensures exists i :: 0 <= i < |requests| && KeyOf(requests[i]) == k
      {
        if k in ServeSpec(catalog, net, cache0, pre).1 {
          var i :| 0 <= i < |pre| && KeyOf(pre[i]) == k;
          assert requests[i] == pre[i];
        } else {
          assert KeyOf(requests[|requests| - 1]) == k;
        }
      }
    }
  }

  /** After a run of calls, every successful answer is what the cache holds for its key. */
  lemma {:induction false} ServeStoresAnswers(catalog: seq<DevIcon>, net: Net, cache0: Cache, requests: seq<Request>)
    ensures var (results, cache) := ServeSpec(catalog, net, cache0, requests);
            |results| == |requests|
            && forall i :: 0 <= i < |requests| && results[i].Success? ==>
                 KeyOf(requests[i]) in cache && cache[KeyOf(requests[i])] == results[i].value
    decreases |requests|
  {
    if |requests| > 0 {
      var pre := requests[..|requests| - 1];
      ServeStoresAnswers(catalog, net, cache0, pre);
      ServeLast(catalog, net, cache0, requests);
      var prior := ServeSpec(catalog, net, cache0, pre);
      var last := requests[|requests| - 1];
      var o := GetIcon(catalog, net, prior.1, last.name, last.version);
      assert requests == pre + [last];
      StoresAnswersStep(pre, prior.0, prior.1, last, o.result, o.cache);
    }
  }

  /**
   * One more call keeps every earlier answer stored, provided it keeps the
   * entries it found and stores its own success under its key.
   */
  lemma StoresAnswersStep(pre: seq<Request>, answers: seq<Result<IconData, Err>>, c: Cache,
                          last: Request, answer: Result<IconData, Err>, c': Cache)
    requires |answers| == |pre|
    requires forall i :: 0 <= i < |pre| && answers[i].Success? ==>
               KeyOf(pre[i]) in c && c[KeyOf(pre[i])] == answers[i].value
    requires forall k :: k in c ==> k in c' && c'[k] == c[k]
    requires answer.Success? ==> KeyOf(last) in c' && c'[KeyOf(last)] == answer.value
    ensures var requests := pre + [last];
            var results := answers + [answer];
            forall i :: 0 <= i < |requests| && results[i].Success? ==>
              KeyOf(requests[i]) in c' && c'[KeyOf(requests[i])] == results[i].value
  {
    var requests := pre + [last];
    var results := answers + [answer];
    forall i | 0 <= i < |requests| && results[i].Success?
      ensures KeyOf(requests[i]) in c' && c'[KeyOf(requests[i])] == results[i].value
    {
      if i < |pre| {
        assert requests[i] == pre[i] && results[i] == answers[i];
      }
    }
  }

  /** A request whose key is cached is answered with the cached record. */
  lemma HitAnswersStored(catalog: seq<DevIcon>, net: Net, c: Cache, r: Request, v: IconData)
    requires KeyOf(r) in c && c[KeyOf(r)] == v
    ensures GetIcon(catalog, net, c, r.name, r.version).result == Success(v)
  {
  }

  /** The last call of a run sees the cache the earlier calls left. */
  lemma ServeLast(catalog: seq<DevIcon>, net: Net, cache0: Cache, requests: seq<Request>)
    requires |requests| > 0
    ensures var n := |requests| - 1;
            var prior := ServeSpec(catalog, net, cache0, requests[..n]);
            ServeSpec(catalog, net, cache0, requests).0
            == prior.0 + [GetIcon(catalog, net, prior.1, requests[n].name, requests[n].version).result]
  {
  }

  /** The last call of a run repeats the answer of an earlier successful call with the same key. */
  lemma ServeLastRepeats(catalog: seq<DevIcon>, net: Net, cache0: Cache, requests: seq<Request>, i: nat)
    requires i < |requests| - 1
    requires KeyOf(requests[i]) == KeyOf(requests[|requests| - 1])
    requires ServeSpec(catalog, net, cache0, requests[..|requests| - 1]).0[i].Success?
    ensures ServeSpec(catalog, net, cache0, requests).0[|requests| - 1]
            == ServeSpec(catalog, net, cache0, requests[..|requests| - 1]).0[i]
  {
    var n := |requests| - 1;
    var pre := requests[..n];
    ServeStoresAnswers(catalog, net, cache0, pre);
    ServeLast(catalog, net, cache0, requests);
    var prior := ServeSpec(catalog, net, cache0, pre);
    assert pre[i] == requests[i];
    HitAnswersStored(catalog, net, prior.1, requests[n], prior.0[i].value);
  }

  /** Once a key has been answered successfully, every later request for it gets the same answer. */
  lemma {:induction false} ServeRepeatsAnswers(catalog: seq<DevIcon>, net: Net, cache0: Cache, requests: seq<Request>)
    ensures var results := ServeSpec(catalog, net, cache0, requests).0;
            forall i, j ::
              (0 <= i < j < |requests| && KeyOf(requests[i]) == KeyOf(requests[j]) && results[i].Success?)
              ==> results[j] == results[i]
    decreases |requests|
  {
    if |requests| > 0 {
      var n := |requests| - 1;
      var pre := requests[..n];
      ServeRepeatsAnswers(catalog, net, cache0, pre);
      ServeLast(catalog, net, cache0, requests);
      var before := ServeSpec(catalog, net, cache0, pre).0;
      var results := ServeSpec(catalog, net, cache0, requests).0;
      assert results[..n] == before;
      assert requests[..n] == pre;
      forall i | 0 <= i < n && KeyOf(requests[i]) == KeyOf(requests[n]) && results[i].Success?
        ensures results[n] == results[i]
      {
        ServeLastRepeats(catalog, net, cache0, requests, i);
      }
    }
  }

  /**
   * Serves a run of `getIcon` calls one after the other on one cache. Cached
   * entries are never replaced; every successful answer is what the cache
   * holds for its key afterwards; once a key has been answered successfully,
   * every later request for it gets the same answer; and the cache only
   * gains keys that were requested.
   */
  method ServeAll(catalog: seq<DevIcon>, net: Net, cache0: Cache, requests: seq<Request>)
    returns (results: seq<Result<IconData, Err>>, cache: Cache)
    ensures (results, cache) == ServeSpec(catalog, net, cache0, requests)
    ensures |results| == |requests|
    ensures forall k :: k in cache0 ==> k in cache && cache[k] == cache0[k]
    ensures forall k :: k in cache ==> k in cache0 || exists i :: 0 <= i < |requests| && KeyOf(requests[i]) == k
    ensures forall i :: 0 <= i < |requests| && results[i].Success? ==>
              KeyOf(requests[i]) in cache && cache[KeyOf(requests[i])] == results[i].value
    ensures forall i, j ::
              (0 <= i < j < |requests| && KeyOf(requests[i]) == KeyOf(requests[j]) && results[i].Success?)
              ==> results[j] == results[i]
  {
    results := [];
    cache := cache0;
    var t := 0;
    while t < |requests|
      invariant 0 <= t <= |requests|
      invariant (results, cache) == ServeSpec(catalog, net, cache0, requests[..t])
    {
      var r := requests[t];
      var o := GetIcon(catalog, net, cache, r.name, r.version);
      assert requests[..t + 1][..t] == requests[..t];
      results := results + [o.result];
      cache := o.cache;
      t := t + 1;
    }
    assert requests[..t] == requests;
    ServeKeepsEntries(catalog, net, cache0, requests);
    ServeAddsOnlyRequestedKeys(catalog, net, cache0, requests);
    ServeStoresAnswers(catalog, net, cache0, requests);
    ServeRepeatsAnswers(catalog, net, cache0, requests);
  }
}
