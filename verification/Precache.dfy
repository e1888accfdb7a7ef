/** The precache: the list of URLs a release wants cached, the install phase that
    fetches what is missing, and the activate phase that drops what is stale. */
module Precache {
  import opened Wrappers

  /** A URL: everything before the query, and the query parameters in order. */
  datatype Url = Url(base: string, params: seq<(string, string)>)

  /** One manifest entry: null, a URL, or an object. */
  datatype Entry =
    | Nothing
    | Text(href: Url)
    | Item(url: Option<Url>, revision: Option<string>, integrity: Option<string>)

  datatype Failure = UnexpectedType | ConflictingEntries | ConflictingIntegrities

  // ---------- cache keys ----------

  const REVISION := "__WB_REVISION__"

  function WithoutParam(params: seq<(string, string)>, name: string): seq<(string, string)> {
    if params == [] then []
    else if params[0].0 == name then WithoutParam(params[1..], name)
    else [params[0]] + WithoutParam(params[1..], name)
  }

  /** `searchParams.set`: the first parameter of that name is replaced, further
      ones are dropped, and a missing one is appended. */
  function SetParam(params: seq<(string, string)>, name: string, value: string): seq<(string, string)> {
    if params == [] then [(name, value)]
    else if params[0].0 == name then [(name, value)] + WithoutParam(params[1..], name)
    else [params[0]] + SetParam(params[1..], name, value)
  }

  predicate Truthy(s: Option<string>) {
    s.Some? && s.value != ""
  }

  /** The cache key and the URL of an entry; a revision becomes part of the key. */
  function KeyAndUrl(entry: Entry): Option<(Url, Url)> {
    match entry
    case Nothing => None
    case Text(u) => Some((u, u))
    case Item(None, _, _) => None
    case Item(Some(u), revision, _) =>
      if Truthy(revision) then Some((u.(params := SetParam(u.params, REVISION, revision.value)), u)) else Some((u, u))
  }

  function ValueOf(params: seq<(string, string)>, name: string): Option<string> {
    if params == [] then None
    else if params[0].0 == name then Some(params[0].1)
    else ValueOf(params[1..], name)
  }

  lemma {:induction false} SetThenGet(params: seq<(string, string)>, name: string, value: string)
    ensures ValueOf(SetParam(params, name, value), name) == Some(value)
    ensures WithoutParam(SetParam(params, name, value), name) == WithoutParam(params, name)
  {
    if params != [] {
      if params[0].0 == name {
        var rest := WithoutParam(params[1..], name);
        assert SetParam(params, name, value)[1..] == rest;
        WithoutTwice(params[1..], name);
      } else {
        SetThenGet(params[1..], name, value);
        assert SetParam(params, name, value)[1..] == SetParam(params[1..], name, value);
      }
    }
  }

  lemma {:induction false} WithoutTwice(params: seq<(string, string)>, name: string)
    ensures WithoutParam(WithoutParam(params, name), name) == WithoutParam(params, name)
  {
    if params != [] {
      WithoutTwice(params[1..], name);
      if params[0].0 != name {
        assert WithoutParam(params, name)[1..] == WithoutParam(params[1..], name);
      }
    }
  }

  /** Without a revision the key is the URL; an entry without a URL is refused. */
  lemma PlainKeys(u: Url, revision: Option<string>, integrity: Option<string>)
    requires revision == None || revision == Some("")
    ensures KeyAndUrl(Text(u)) == KeyAndUrl(Item(Some(u), revision, integrity)) == Some((u, u))
    ensures KeyAndUrl(Nothing) == KeyAndUrl(Item(None, revision, integrity)) == None
  {
  }

  /** A revision goes to the end of the parameters that do not have one. */
  lemma {:induction false} RevisionAppended(params: seq<(string, string)>, name: string, value: string)
    requires forall i :: 0 <= i < |params| ==> params[i].0 != name
    ensures SetParam(params, name, value) == params + [(name, value)]
    decreases |params|
  {
    if params != [] {
      RevisionAppended(params[1..], name, value);
      assert params == [params[0]] + params[1..];
    }
  }

  /** A new revision of a URL gets a new key, and the key remembers both the
      revision and, apart from it, the URL. */
  lemma KeyCarriesRevision(u: Url, revision: string, integrity: Option<string>)
    requires revision != ""
    ensures var key := KeyAndUrl(Item(Some(u), Some(revision), integrity)).value.0;
            && ValueOf(key.params, REVISION) == Some(revision)
            && key.base == u.base
            && KeyAndUrl(Item(Some(u), Some(revision), integrity)).value.1 == u
            && WithoutParam(key.params, REVISION) == WithoutParam(u.params, REVISION)
  {
    SetThenGet(u.params, REVISION, revision);
  }

  // ---------- the cache list ----------

  /** The controller's maps: URL to cache key, in insertion order; URL to fetch
      mode; cache key to integrity. */
  datatype Lists = Lists(
    keys: map<Url, Url>,
    order: seq<Url>,
    reload: map<Url, bool>,
    integrities: map<Url, string>)

  const NO_LISTS := Lists(map[], [], map[], map[])

  predicate HasIntegrity(entry: Entry) {
    entry.Item? && Truthy(entry.integrity)
  }

  function FailureOf(lists: Lists, entry: Entry): Option<Failure> {
    var ku := KeyAndUrl(entry);
    if ku.None? then Some(UnexpectedType)
    else
      var (key, url) := ku.value;
      if url in lists.keys && lists.keys[url] != key then Some(ConflictingEntries)
      else if HasIntegrity(entry) && key in lists.integrities && lists.integrities[key] != entry.integrity.value
      then Some(ConflictingIntegrities)
      else None
  }

  function AddOne(lists: Lists, entry: Entry): Lists
    requires FailureOf(lists, entry).None?
  {
    var (key, url) := KeyAndUrl(entry).value;
    Lists(
      lists.keys[url := key],
      if url in lists.keys then lists.order else lists.order + [url],
      lists.reload[url := entry.Item? && Truthy(entry.revision)],
      if HasIntegrity(entry) then lists.integrities[key := entry.integrity.value] else lists.integrities)
  }

  /** The lists after `addToCacheList`, and the error it stops at: the entries
      before the offending one stay added. */
  function AddAll(lists: Lists, entries: seq<Entry>): (Lists, Option<Failure>)
    decreases |entries|
  {
    if entries == [] then (lists, None)
    else if FailureOf(lists, entries[0]).Some? then (lists, FailureOf(lists, entries[0]))
    else AddAll(AddOne(lists, entries[0]), entries[1..])
  }

  /** One entry agrees with the lists. */
  ghost predicate Agrees(lists: Lists, entry: Entry) {
    && KeyAndUrl(entry).Some?
    && var (key, url) := KeyAndUrl(entry).value;
       && (url in lists.keys ==> lists.keys[url] == key)
       && (HasIntegrity(entry) && key in lists.integrities ==> lists.integrities[key] == entry.integrity.value)
  }

  /** Two entries agree: one URL has one key, and one key one integrity. */
  ghost predicate Compatible(a: Entry, b: Entry)
    requires KeyAndUrl(a).Some? && KeyAndUrl(b).Some?
  {
    var (ka, ua) := KeyAndUrl(a).value;
    var (kb, ub) := KeyAndUrl(b).value;
    (ua == ub ==> ka == kb) && (HasIntegrity(a) && HasIntegrity(b) && ka == kb ==> a.integrity == b.integrity)
  }

  ghost predicate Consistent(lists: Lists, entries: seq<Entry>) {
    && (forall i :: 0 <= i < |entries| ==> Agrees(lists, entries[i]))
    && (forall i, j :: 0 <= i < j < |entries| ==> Compatible(entries[i], entries[j]))
  }

  lemma AgreesAfterOne(lists: Lists, first: Entry, entry: Entry)
    requires Agrees(lists, first)
    ensures Agrees(AddOne(lists, first), entry)
            <==> Agrees(lists, entry) && Compatible(first, entry)
  {
  }

  lemma ConsistentStep(lists: Lists, entries: seq<Entry>)
    requires entries != [] && Agrees(lists, entries[0])
    ensures Consistent(lists, entries) <==> Consistent(AddOne(lists, entries[0]), entries[1..])
  {
    var first, rest := entries[0], entries[1..];
    var after := AddOne(lists, first);
    forall i | 0 <= i < |rest|
      ensures Agrees(after, rest[i]) <==> Agrees(lists, entries[i + 1]) && Compatible(first, entries[i + 1])
    {
      AgreesAfterOne(lists, first, rest[i]);
    }
    if Consistent(after, rest) {
      forall i | 0 <= i < |entries| ensures Agrees(lists, entries[i]) {
        if i > 0 {
          assert Agrees(after, rest[i - 1]);
        }
      }
      forall i, j | 0 <= i < j < |entries| ensures Compatible(entries[i], entries[j]) {
        assert Agrees(after, rest[j - 1]);
        if i > 0 {
          assert Compatible(rest[i - 1], rest[j - 1]);
        }
      }
    }
    if Consistent(lists, entries) {
      forall i, j | 0 <= i < j < |rest| ensures Agrees(lists, rest[i]) && Compatible(rest[i], rest[j]) {
        assert Agrees(lists, entries[i + 1]) && Compatible(entries[i + 1], entries[j + 1]);
      }
    }
  }

  /** `addToCacheList` accepts a list exactly when, together with what is there, it
      gives every URL one key and every key one integrity. */
  lemma {:induction false} AcceptedExactlyWhenConsistent(lists: Lists, entries: seq<Entry>)
    ensures AddAll(lists, entries).1.None? <==> Consistent(lists, entries)
    decreases |entries|
  {
    if entries != [] {
      if Agrees(lists, entries[0]) {
        ConsistentStep(lists, entries);
        AcceptedExactlyWhenConsistent(AddOne(lists, entries[0]), entries[1..]);
      }
    }
  }

  /** No call, accepted or not, changes the key a URL already has. */
  lemma {:induction false} KeysNeverChange(lists: Lists, entries: seq<Entry>, u: Url)
    requires u in lists.keys
    ensures var after := AddAll(lists, entries).0; u in after.keys && after.keys[u] == lists.keys[u]
    decreases |entries|
  {
    if entries != [] && FailureOf(lists, entries[0]).None? {
      KeysNeverChange(AddOne(lists, entries[0]), entries[1..], u);
    }
  }

  /** An accepted list leaves every one of its URLs under its own key. */
  lemma {:induction false} AcceptedEntriesAdded(lists: Lists, entries: seq<Entry>, i: nat)
    requires AddAll(lists, entries).1.None? && i < |entries|
    ensures KeyAndUrl(entries[i]).Some?
    ensures var (key, url) := KeyAndUrl(entries[i]).value;
            var after := AddAll(lists, entries).0;
            url in after.keys && after.keys[url] == key
    decreases |entries|
  {
    var after := AddOne(lists, entries[0]);
    if i == 0 {
      KeysNeverChange(after, entries[1..], KeyAndUrl(entries[0]).value.1);
    } else {
      AcceptedEntriesAdded(after, entries[1..], i - 1);
    }
  }

  /** The first entries are added as if they came alone, and the others after them. */
  lemma {:induction false} AddedInParts(lists: Lists, first: seq<Entry>, rest: seq<Entry>)
    ensures var (after, failure) := AddAll(lists, first);
            AddAll(lists, first + rest) == if failure.Some? then (after, failure) else AddAll(after, rest)
    decreases |first|
  {
    if first == [] {
      assert first + rest == rest;
    } else {
      assert (first + rest)[1..] == first[1..] + rest;
      if FailureOf(lists, first[0]).None? {
        AddedInParts(AddOne(lists, first[0]), first[1..], rest);
      }
    }
  }

  /** One accepted entry: a new URL goes to the end of the order; the key is fetched past
      the HTTP cache exactly when the entry has a revision; and its integrity, if it has
      one, is kept.  Nothing else changes. */
  lemma EntryAdded(lists: Lists, entry: Entry)
    requires AddAll(lists, [entry]).1.None?
    ensures KeyAndUrl(entry).Some?
    ensures var (key, url) := KeyAndUrl(entry).value;
            var after := AddAll(lists, [entry]).0;
            && after.keys == lists.keys[url := key]
            && after.order == (if url in lists.keys then lists.order else lists.order + [url])
            && after.reload
               == lists.reload[url := entry.Item? && entry.revision.Some? && entry.revision.value != ""]
            && after.integrities
               == (if entry.Item? && entry.integrity.Some? && entry.integrity.value != ""
                   then lists.integrities[key := entry.integrity.value] else lists.integrities)
  {
    assert [entry][1..] == [];
    assert AddAll(lists, [entry]) == AddAll(AddOne(lists, entry), []);
  }

  /** Why an entry is refused: it has no URL; its URL has another key; or else its key
      has another integrity. */
  lemma EntryRefused(lists: Lists, entry: Entry, failure: Failure)
    requires AddAll(lists, [entry]).1 == Some(failure)
    ensures AddAll(lists, [entry]).0 == lists
    ensures match failure
            case UnexpectedType =>
              entry.Nothing? || (entry.Item? && entry.url.None?)
            case ConflictingEntries =>
              && KeyAndUrl(entry).Some?
              && var (key, url) := KeyAndUrl(entry).value;
                 url in lists.keys && lists.keys[url] != key
            case ConflictingIntegrities =>
              && KeyAndUrl(entry).Some? && entry.Item? && entry.integrity.Some?
              && var (key, url) := KeyAndUrl(entry).value;
                 && (url in lists.keys ==> lists.keys[url] == key)
                 && key in lists.integrities && lists.integrities[key] != entry.integrity.value
  {
    assert [entry][1..] == [];
  }

  /** The insertion order lists each URL once. */
  ghost predicate WellOrdered(lists: Lists) {
    && (forall u :: u in lists.order <==> u in lists.keys)
    && (forall i, j :: 0 <= i < j < |lists.order| ==> lists.order[i] != lists.order[j])
  }

  lemma {:induction false} AddAllWellOrdered(lists: Lists, entries: seq<Entry>)
    requires WellOrdered(lists)
    ensures WellOrdered(AddAll(lists, entries).0)
    decreases |entries|
  {
    if entries != [] && FailureOf(lists, entries[0]).None? {
      AddAllWellOrdered(AddOne(lists, entries[0]), entries[1..]);
    }
  }

  lemma AddAllWellOrderedIf(lists: Lists, entries: seq<Entry>)
    ensures WellOrdered(lists) ==> WellOrdered(AddAll(lists, entries).0)
  {
    if WellOrdered(lists) {
      AddAllWellOrdered(lists, entries);
    }
  }

  // ---------- install ----------

  /** What the network answers to a request. */
  datatype Reply = NoReply | Response(status: int, body: string)

  type Network = Url -> Reply

  /** What install asks the network for: the URL, the integrity its body must have,
      and whether to go past the HTTP cache. */
  datatype Request = Request(url: Url, integrity: Option<string>, reload: bool)

  type Server = Request -> Reply

  function RequestOf(lists: Lists, url: Url): Request {
    var integrity :=
      if url in lists.keys && lists.keys[url] in lists.integrities
      then Some(lists.integrities[lists.keys[url]]) else None;
    Request(url, integrity, url in lists.reload && lists.reload[url])
  }

  /** The network as the URLs of a cache list reach it. */
  function Reaching(lists: Lists, server: Server): Network {
    (url: Url) => server(RequestOf(lists, url))
  }

  /** The cache: stored bodies by cache key. */
  type Cache = map<Url, string>

  /** A response that may be stored. */
  predicate Good(reply: Reply) {
    reply.Response? && reply.status < 400
  }

  /** How far an install got: the cache, the URLs fetched and stored, and the URLs
      found cached; not `ok` once a fetch or a store failed. */
  datatype Progress = Progress(cache: Cache, updated: seq<Url>, notUpdated: seq<Url>, ok: bool)

  /** Handles one URL: a cached key is left alone, a missing one is fetched. */
  function InstallOne(p: Progress, url: Url, key: Url, net: Network): Progress {
    if !p.ok then p
    else if key in p.cache then p.(notUpdated := p.notUpdated + [url])
    else
      var reply := net(url);
      if Good(reply) then p.(cache := p.cache[key := reply.body], updated := p.updated + [url]) else p.(ok := false)
  }

  function Install(keys: map<Url, Url>, urls: seq<Url>, cache: Cache, net: Network): Progress
    requires forall u :: u in urls ==> u in keys
  {
    if urls == [] then Progress(cache, [], [], true)
    else
      var last := urls[|urls| - 1];
      InstallOne(Install(keys, urls[..|urls| - 1], cache, net), last, keys[last], net)
  }

  /** The cache keys of these URLs. */
  ghost function KeysOf(keys: map<Url, Url>, urls: seq<Url>): set<Url>
    requires forall u :: u in urls ==> u in keys
  {
    set u | u in urls :: keys[u]
  }

  lemma KeysOfOneMore(keys: map<Url, Url>, urls: seq<Url>)
    requires urls != [] && forall u :: u in urls ==> u in keys
    ensures KeysOf(keys, urls) == KeysOf(keys, urls[..|urls| - 1]) + {keys[urls[|urls| - 1]]}
  {
  }

  /** Whether or not it succeeds, an install removes nothing and changes nothing
      that was cached: the previous version's entries survive it. */
  lemma {:induction false} InstallKeepsOld(keys: map<Url, Url>, urls: seq<Url>, cache: Cache, net: Network, k: Url)
    requires forall u :: u in urls ==> u in keys
    requires k in cache
    ensures var p := Install(keys, urls, cache, net); k in p.cache && p.cache[k] == cache[k]
    decreases |urls|
  {
    if urls != [] {
      InstallKeepsOld(keys, urls[..|urls| - 1], cache, net, k);
    }
  }

  lemma ReachingAsks(lists: Lists, server: Server, url: Url, request: Request)
    requires url in lists.keys && request.url == url && request.reload == (url in lists.reload && lists.reload[url])
    requires request.integrity
             == if lists.keys[url] in lists.integrities then Some(lists.integrities[lists.keys[url]]) else None
    ensures Reaching(lists, server)(url) == server(request)
  {
    assert request == RequestOf(lists, url);
  }

  lemma NothingInstalled(keys: map<Url, Url>, urls: seq<Url>, cache: Cache, net: Network)
    requires forall u :: u in urls ==> u in keys
    ensures Install(keys, urls[..0], cache, net) == Progress(cache, [], [], true)
  {
  }

  lemma InstallOneMore(keys: map<Url, Url>, urls: seq<Url>, n: nat, cache: Cache, net: Network)
    requires n < |urls| && forall u :: u in urls ==> u in keys
    ensures urls[n] in keys
    ensures Install(keys, urls[..n + 1], cache, net)
            == InstallOne(Install(keys, urls[..n], cache, net), urls[n], keys[urls[n]], net)
  {
    assert urls[..n + 1][..n] == urls[..n];
  }

  /** What an install has fetched: no key twice, only missing keys, only good
      responses, and everything new in the cache is one of them. */
  ghost predicate Fetched(keys: map<Url, Url>, urls: seq<Url>, cache: Cache, net: Network, p: Progress)
    requires forall u :: u in urls ==> u in keys
  {
    && (forall u :: u in p.updated ==> u in urls && Good(net(u)) && keys[u] !in cache && keys[u] in p.cache)
    && (forall i, j :: 0 <= i < j < |p.updated| ==> keys[p.updated[i]] != keys[p.updated[j]])
    && (forall k :: k in p.cache && k !in cache ==>
          exists u :: u in p.updated && keys[u] == k && p.cache[k] == net(u).body)
  }

  /** What an install has done so far. */
  ghost predicate Installed(keys: map<Url, Url>, urls: seq<Url>, cache: Cache, net: Network, p: Progress)
    requires forall u :: u in urls ==> u in keys
  {
    && Fetched(keys, urls, cache, net, p)
    && cache.Keys <= p.cache.Keys <= cache.Keys + KeysOf(keys, urls)
    && (p.ok ==> p.cache.Keys == cache.Keys + KeysOf(keys, urls))
    && (!p.ok ==> exists u :: u in urls && keys[u] !in p.cache && !Good(net(u)))
  }

  /** A cached key, or a failure before: nothing is fetched. */
  lemma InstalledSkip(keys: map<Url, Url>, urls: seq<Url>, cache: Cache, net: Network, p: Progress, q: Progress)
    requires urls != [] && forall u :: u in urls ==> u in keys
    requires Installed(keys, urls[..|urls| - 1], cache, net, p)
    requires q.cache == p.cache && q.updated == p.updated && q.ok == p.ok
    requires p.ok ==> keys[urls[|urls| - 1]] in p.cache
    ensures Installed(keys, urls, cache, net, q)
  {
    KeysOfOneMore(keys, urls);
    assert urls == urls[..|urls| - 1] + [urls[|urls| - 1]];
  }

  lemma FetchedOne(keys: map<Url, Url>, urls: seq<Url>, cache: Cache, net: Network, p: Progress, last: Url)
    requires forall u :: u in urls + [last] ==> u in keys
    requires forall u :: u in urls ==> u in urls + [last]
    requires Fetched(keys, urls, cache, net, p) && cache.Keys <= p.cache.Keys
    requires keys[last] !in p.cache && Good(net(last))
    ensures Fetched(keys, urls + [last], cache, net,
                    p.(cache := p.cache[keys[last] := net(last).body], updated := p.updated + [last]))
  {
  }

  lemma InstalledStep(keys: map<Url, Url>, urls: seq<Url>, cache: Cache, net: Network, p: Progress)
    requires urls != [] && forall u :: u in urls ==> u in keys
    requires Installed(keys, urls[..|urls| - 1], cache, net, p)
    ensures Installed(keys, urls, cache, net, InstallOne(p, urls[|urls| - 1], keys[urls[|urls| - 1]], net))
  {
    var last := urls[|urls| - 1];
    var q := InstallOne(p, last, keys[last], net);
    if !p.ok || keys[last] in p.cache {
      InstalledSkip(keys, urls, cache, net, p, q);
    } else {
      KeysOfOneMore(keys, urls);
      assert urls == urls[..|urls| - 1] + [last];
      assert last in urls;
      if Good(net(last)) {
        FetchedOne(keys, urls[..|urls| - 1], cache, net, p, last);
      }
    }
  }

  lemma {:induction false} InstallDoes(keys: map<Url, Url>, urls: seq<Url>, cache: Cache, net: Network)
    requires forall u :: u in urls ==> u in keys
    ensures Installed(keys, urls, cache, net, Install(keys, urls, cache, net))
    decreases |urls|
  {
    if urls == [] {
    } else {
      InstallDoes(keys, urls[..|urls| - 1], cache, net);
      InstalledStep(keys, urls, cache, net, Install(keys, urls[..|urls| - 1], cache, net));
    }
  }

  /** A successful install fetches each key that was missing exactly once, and no
      other key. */
  lemma InstallFetchesExactlyMissing(keys: map<Url, Url>, urls: seq<Url>, cache: Cache, net: Network)
    requires forall u :: u in urls ==> u in keys
    requires Install(keys, urls, cache, net).ok
    ensures var p := Install(keys, urls, cache, net);
            && (forall u :: u in p.updated ==> u in urls)
            && KeysOf(keys, p.updated) == KeysOf(keys, urls) - cache.Keys
            && |p.updated| == |KeysOf(keys, urls) - cache.Keys|
  {
    InstallDoes(keys, urls, cache, net);
    var p := Install(keys, urls, cache, net);
    forall k | k in KeysOf(keys, urls) - cache.Keys ensures k in KeysOf(keys, p.updated) {
      assert k in p.cache && k !in cache;
      var u :| u in p.updated && keys[u] == k;
    }
    forall k | k in KeysOf(keys, p.updated) ensures k in KeysOf(keys, urls) - cache.Keys {
      var u :| u in p.updated && keys[u] == k;
      assert u in urls;
    }
    DistinctKeysCount(keys, p.updated);
  }

  lemma {:induction false} DistinctKeysCount(keys: map<Url, Url>, urls: seq<Url>)
    requires forall u :: u in urls ==> u in keys
    requires forall i, j :: 0 <= i < j < |urls| ==> keys[urls[i]] != keys[urls[j]]
    ensures |KeysOf(keys, urls)| == |urls|
    decreases |urls|
  {
    if urls == [] {
      assert KeysOf(keys, urls) == {};
    } else {
      var init, last := urls[..|urls| - 1], urls[|urls| - 1];
      DistinctKeysCount(keys, init);
      KeysOfOneMore(keys, urls);
      assert keys[last] !in KeysOf(keys, init);
    }
  }

  /** An install fails only on a URL whose key is missing and whose response may
      not be stored. */
  lemma InstallFailsOnlyOnBadResponse(keys: map<Url, Url>, urls: seq<Url>, cache: Cache, net: Network)
    requires forall u :: u in urls ==> u in keys
    requires forall u :: u in urls && keys[u] !in cache ==> Good(net(u))
    ensures Install(keys, urls, cache, net).ok
  {
    InstallDoes(keys, urls, cache, net);
  }

  /** On a network that lets through only bodies of the integrity asked for, every
      body an install adds has the integrity its key is listed with. */
  lemma InstalledBodiesAreIntact(lists: Lists, urls: seq<Url>, cache: Cache, server: Server,
                                 digest: string -> string, k: Url)
    requires forall u :: u in urls ==> u in lists.keys
    requires forall r: Request :: Good(server(r)) && r.integrity.Some? ==> digest(server(r).body) == r.integrity.value
    requires k in lists.integrities && k !in cache
    ensures var p := Install(lists.keys, urls, cache, Reaching(lists, server));
            k in p.cache ==> digest(p.cache[k]) == lists.integrities[k]
  {
    InstallDoes(lists.keys, urls, cache, Reaching(lists, server));
    var p := Install(lists.keys, urls, cache, Reaching(lists, server));
    if k in p.cache {
      var u :| u in p.updated && lists.keys[u] == k && p.cache[k] == Reaching(lists, server)(u).body;
      assert Good(server(RequestOf(lists, u)));
    }
  }

  // ---------- which responses are stored ----------

  /** A response may be stored when there is one and its status is below 400. */
  predicate IsStorable(reply: Reply) {
    match reply
    case NoReply => false
    case Response(status, _) => status < 400
  }

  /** The first of the URLs with its key, which is not cached. */
  ghost predicate IsFirstMissing(keys: map<Url, Url>, urls: seq<Url>, cache: Cache, i: int)
    requires forall u :: u in urls ==> u in keys
  {
    && 0 <= i < |urls| && keys[urls[i]] !in cache
    && forall j :: 0 <= j < i ==> keys[urls[j]] != keys[urls[i]]
  }

  /** The first URL of each missing key gets a storable reply. */
  ghost predicate AllStorable(keys: map<Url, Url>, urls: seq<Url>, cache: Cache, net: Network)
    requires forall u :: u in urls ==> u in keys
  {
    forall i :: IsFirstMissing(keys, urls, cache, i) ==> IsStorable(net(urls[i]))
  }

  lemma AllStorableStep(keys: map<Url, Url>, urls: seq<Url>, cache: Cache, net: Network)
    requires urls != [] && forall u :: u in urls ==> u in keys
    ensures var n := |urls| - 1;
            AllStorable(keys, urls, cache, net)
            <==> && AllStorable(keys, urls[..n], cache, net)
                 && (IsFirstMissing(keys, urls, cache, n) ==> IsStorable(net(urls[n])))
  {
    var n := |urls| - 1;
    var init := urls[..n];
    FirstMissingInit(keys, urls, cache);
    assert forall i :: 0 <= i < n ==> init[i] == urls[i];
    if AllStorable(keys, urls, cache, net) {
      forall i | IsFirstMissing(keys, init, cache, i) ensures IsStorable(net(init[i])) {
        assert IsFirstMissing(keys, urls, cache, i);
      }
    }
  }

  /** An install succeeds exactly when they do. */
  lemma {:induction false} SucceedsExactly(keys: map<Url, Url>, urls: seq<Url>, cache: Cache, net: Network)
    requires forall u :: u in urls ==> u in keys
    ensures Install(keys, urls, cache, net).ok <==> AllStorable(keys, urls, cache, net)
    decreases |urls|
  {
    if urls != [] {
      var n := |urls| - 1;
      assert Install(keys, urls, cache, net)
          == InstallOne(Install(keys, urls[..n], cache, net), urls[n], keys[urls[n]], net);
      hide Install, AllStorable, IsFirstMissing;
      SucceedsExactly(keys, urls[..n], cache, net);
      LastMissing(keys, urls, cache, net);
      AllStorableStep(keys, urls, cache, net);
    }
  }

  /** A key whose first URL gets no storable reply is not cached. */
  lemma {:induction false} BadKeyIsMissing(keys: map<Url, Url>, urls: seq<Url>, cache: Cache, net: Network, i: nat)
    requires forall u :: u in urls ==> u in keys
    requires IsFirstMissing(keys, urls, cache, i) && !IsStorable(net(urls[i]))
    ensures keys[urls[i]] !in Install(keys, urls, cache, net).cache
    decreases |urls|
  {
    var n := |urls| - 1;
    var init := urls[..n];
    var p := Install(keys, init, cache, net);
    assert Install(keys, urls, cache, net) == InstallOne(p, urls[n], keys[urls[n]], net);
    hide Install;
    FirstMissingInit(keys, urls, cache);
    if i < n {
      assert init[i] == urls[i] && IsFirstMissing(keys, init, cache, i);
      BadKeyIsMissing(keys, init, cache, net, i);
      SucceedsExactly(keys, init, cache, net);
    } else {
      LastMissing(keys, urls, cache, net);
    }
  }

  lemma FirstMissingInit(keys: map<Url, Url>, urls: seq<Url>, cache: Cache)
    requires urls != [] && forall u :: u in urls ==> u in keys
    ensures forall i :: 0 <= i < |urls| - 1 ==>
              (IsFirstMissing(keys, urls, cache, i) <==> IsFirstMissing(keys, urls[..|urls| - 1], cache, i))
  {
    var init := urls[..|urls| - 1];
    assert forall i :: 0 <= i < |init| ==> init[i] == urls[i];
  }

  /** The last URL is the first of a missing key exactly when the install before it went
      well and left its key missing. */
  lemma LastMissing(keys: map<Url, Url>, urls: seq<Url>, cache: Cache, net: Network)
    requires urls != [] && forall u :: u in urls ==> u in keys
    ensures var n := |urls| - 1;
            var p := Install(keys, urls[..n], cache, net);
            && (IsFirstMissing(keys, urls, cache, n) ==> keys[urls[n]] !in p.cache)
            && (p.ok && keys[urls[n]] !in p.cache ==> IsFirstMissing(keys, urls, cache, n))
  {
    var n := |urls| - 1;
    var init := urls[..n];
    InstallDoes(keys, init, cache, net);
    assert forall i :: 0 <= i < n ==> init[i] == urls[i] && init[i] in init;
    hide Install, Fetched;
  }

  /** What an install leaves: all there was; new bodies only from storable replies to
      URLs of the list; every key when it succeeds, and otherwise not the key whose
      first URL got no storable reply. */
  ghost predicate Installs(keys: map<Url, Url>, urls: seq<Url>, cache: Cache, net: Network, after: Cache, ok: bool)
    requires forall u :: u in urls ==> u in keys
  {
    && (forall k :: k in cache ==> k in after && after[k] == cache[k])
    && (forall k :: k in after && k !in cache ==>
          exists u :: u in urls && keys[u] == k && IsStorable(net(u)) && after[k] == net(u).body)
    && (ok <==> AllStorable(keys, urls, cache, net))
    && (ok ==> forall u :: u in urls ==> keys[u] in after)
    && (forall i :: IsFirstMissing(keys, urls, cache, i) && !IsStorable(net(urls[i])) ==> keys[urls[i]] !in after)
  }

  lemma NewAreStorable(keys: map<Url, Url>, urls: seq<Url>, cache: Cache, net: Network)
    requires forall u :: u in urls ==> u in keys
    ensures var p := Install(keys, urls, cache, net);
            && (p.ok ==> forall u :: u in urls ==> keys[u] in p.cache)
            && forall k :: k in p.cache && k !in cache ==>
                 exists u :: u in urls && keys[u] == k && IsStorable(net(u)) && p.cache[k] == net(u).body
  {
    InstallDoes(keys, urls, cache, net);
    hide Install;
    var p := Install(keys, urls, cache, net);
    assert forall u :: u in urls ==> keys[u] in KeysOf(keys, urls);
    forall k | k in p.cache && k !in cache
      ensures exists u :: u in urls && keys[u] == k && IsStorable(net(u)) && p.cache[k] == net(u).body
    {
      var u :| u in p.updated && keys[u] == k && p.cache[k] == net(u).body;
      assert u in urls && Good(net(u));
    }
  }

  lemma InstallExactly(keys: map<Url, Url>, urls: seq<Url>, cache: Cache, net: Network)
    requires forall u :: u in urls ==> u in keys
    ensures var p := Install(keys, urls, cache, net); Installs(keys, urls, cache, net, p.cache, p.ok)
  {
    hide Install, IsStorable, AllStorable;
    SucceedsExactly(keys, urls, cache, net);
    NewAreStorable(keys, urls, cache, net);
    forall i | IsFirstMissing(keys, urls, cache, i) && !IsStorable(net(urls[i]))
      ensures keys[urls[i]] !in Install(keys, urls, cache, net).cache
    {
      BadKeyIsMissing(keys, urls, cache, net, i);
    }
    var p := Install(keys, urls, cache, net);
    forall k | k in cache ensures k in p.cache && p.cache[k] == cache[k] {
      InstallKeepsOld(keys, urls, cache, net, k);
    }
  }

  /** So a missing key whose URLs all get no reply, or one of status 400 and above, makes
      the install fail; and replies below 400 for all missing keys make it succeed. */
  lemma FailsOnStatus(keys: map<Url, Url>, urls: seq<Url>, cache: Cache, net: Network, i: nat)
    requires forall u :: u in urls ==> u in keys
    requires i < |urls| && keys[urls[i]] !in cache
    requires forall u :: u in urls && keys[u] == keys[urls[i]] ==> net(u).NoReply? || net(u).status >= 400
    ensures !Install(keys, urls, cache, net).ok && keys[urls[i]] !in Install(keys, urls, cache, net).cache
  {
    SucceedsExactly(keys, urls, cache, net);
    var first := FirstWith(keys, urls, keys[urls[i]]);
    assert IsFirstMissing(keys, urls, cache, first) && !IsStorable(net(urls[first]));
    BadKeyIsMissing(keys, urls, cache, net, first);
  }

  lemma SucceedsOnStatus(keys: map<Url, Url>, urls: seq<Url>, cache: Cache, net: Network)
    requires forall u :: u in urls ==> u in keys
    requires forall u :: u in urls && keys[u] !in cache ==> net(u).Response? && net(u).status < 400
    ensures Install(keys, urls, cache, net).ok
  {
    SucceedsExactly(keys, urls, cache, net);
  }

  lemma {:induction false} FirstWith(keys: map<Url, Url>, urls: seq<Url>, key: Url) returns (first: nat)
    requires forall u :: u in urls ==> u in keys
    requires exists u :: u in urls && keys[u] == key
    ensures first < |urls| && keys[urls[first]] == key && forall j :: 0 <= j < first ==> keys[urls[j]] != key
  {
    first := 0;
    while keys[urls[first]] != key
      decreases |urls| - first
      invariant first < |urls| && forall j :: 0 <= j < first ==> keys[urls[j]] != key
    {
      first := first + 1;
    }
  }

  /** A successful install handles every URL once: as fetched, or as found cached. */
  lemma {:induction false} EveryUrlHandled(keys: map<Url, Url>, urls: seq<Url>, cache: Cache, net: Network)
    requires forall u :: u in urls ==> u in keys
    requires Install(keys, urls, cache, net).ok
    ensures var p := Install(keys, urls, cache, net); multiset(p.updated) + multiset(p.notUpdated) == multiset(urls)
    decreases |urls|
  {
    if urls != [] {
      var n := |urls| - 1;
      var p, q := Install(keys, urls[..n], cache, net), Install(keys, urls, cache, net);
      assert q == InstallOne(p, urls[n], keys[urls[n]], net);
      hide Install, Good;
      EveryUrlHandled(keys, urls[..n], cache, net);
      assert urls == urls[..n] + [urls[n]];
      assert || (q.updated == p.updated + [urls[n]] && q.notUpdated == p.notUpdated)
             || (q.updated == p.updated && q.notUpdated == p.notUpdated + [urls[n]]);
    }
  }

  // ---------- activate ----------

  function Activate(keys: map<Url, Url>, cache: Cache): Cache {
    map k | k in cache && k in keys.Values :: cache[k]
  }

  lemma KeysOfAll(lists: Lists)
    requires WellOrdered(lists)
    ensures KeysOf(lists.keys, lists.order) == lists.keys.Values
  {
    forall k | k in lists.keys.Values ensures k in KeysOf(lists.keys, lists.order) {
      var u :| u in lists.keys && lists.keys[u] == k;
      assert u in lists.order;
    }
  }

  /** Install, then activate: the cache holds exactly the keys of the release. */
  lemma UpgradeLeavesExactlyTheManifest(lists: Lists, cache: Cache, net: Network)
    requires WellOrdered(lists)
    requires Install(lists.keys, lists.order, cache, net).ok
    ensures var installed := Install(lists.keys, lists.order, cache, net).cache;
            && cache.Keys <= installed.Keys
            && Activate(lists.keys, installed).Keys == lists.keys.Values
            && forall k :: k in cache && k in lists.keys.Values ==> Activate(lists.keys, installed)[k] == cache[k]
  {
    InstallDoes(lists.keys, lists.order, cache, net);
    KeysOfAll(lists);
    hide Install, Fetched, WellOrdered, KeysOf;
    forall k | k in cache ensures Install(lists.keys, lists.order, cache, net).cache[k] == cache[k] {
      InstallKeepsOld(lists.keys, lists.order, cache, net, k);
    }
  }

  // ---------- the controller ----------

  class PrecacheController {
    var keys: map<Url, Url>
    var order: seq<Url>
    var reload: map<Url, bool>
    var integrities: map<Url, string>

    constructor ()
      ensures Snapshot() == NO_LISTS
    {
      keys, order, reload, integrities := map[], [], map[], map[];
    }

    function Snapshot(): Lists
      reads this
    {
      Lists(keys, order, reload, integrities)
    }

    method AddToCacheList(entries: seq<Entry>) returns (failure: Option<Failure>)
      modifies this
      ensures (Snapshot(), failure) == AddAll(old(Snapshot()), entries)
      ensures WellOrdered(old(Snapshot())) ==> WellOrdered(Snapshot())
    {
      hide WellOrdered;
      ghost var before := Snapshot();
      AddAllWellOrderedIf(before, entries);
      var i := 0;
      while i < |entries|
        invariant 0 <= i <= |entries|
        invariant AddAll(before, entries) == AddAll(Snapshot(), entries[i..])
      {
        var entry := entries[i];
        var ku := KeyAndUrl(entry);
        if ku.None? {
          return Some(UnexpectedType);
        }
        var (key, url) := ku.value;
        if url in keys && keys[url] != key {
          return Some(ConflictingEntries);
        }
        if HasIntegrity(entry) {
          if key in integrities && integrities[key] != entry.integrity.value {
            return Some(ConflictingIntegrities);
          }
          integrities := integrities[key := entry.integrity.value];
        }
        if url !in keys {
          order := order + [url];
        }
        keys := keys[url := key];
        reload := reload[url := entry.Item? && Truthy(entry.revision)];
        assert entries[i..][1..] == entries[i + 1..];
        i := i + 1;
      }
      failure := None;
    }

    method InstallInto(store: CacheStorage, server: Server) returns (r: Option<(seq<Url>, seq<Url>)>)
      requires WellOrdered(Snapshot())
      modifies store
      ensures var p := Install(keys, order, old(store.cache), Reaching(Snapshot(), server));
              && store.cache == p.cache
              && r == if p.ok then Some((p.updated, p.notUpdated)) else None
      ensures Installs(keys, order, old(store.cache), Reaching(Snapshot(), server), store.cache, r.Some?)
    {
      hide Reaching, Install, Installs;
      ghost var lists := Snapshot();
      ghost var net := Reaching(lists, server);
      NothingInstalled(keys, order, store.cache, net);
      InstallExactly(keys, order, store.cache, net);
      var updated, notUpdated := [], [];
      var i := 0;
      while i < |order|
        invariant 0 <= i <= |order|
        invariant Install(keys, order[..i], old(store.cache), net) == Progress(store.cache, updated, notUpdated, true)
      {
        var url := order[i];
        InstallOneMore(keys, order, i, old(store.cache), net);
        var key := keys[url];
        if key in store.cache {
          notUpdated := notUpdated + [url];
        } else {
          var integrity := if key in integrities then Some(integrities[key]) else None;
          var request := Request(url, integrity, url in reload && reload[url]);
          ReachingAsks(lists, server, url, request);
          var reply := server(request);
          if !Good(reply) {
            StopsWhenFailed(keys, order, i + 1, old(store.cache), net);
            return None;
          }
          store.cache := store.cache[key := reply.body];
          updated := updated + [url];
        }
        i := i + 1;
      }
      assert order[..|order|] == order;
      r := Some((updated, notUpdated));
    }

    method ActivateOn(store: CacheStorage) returns (deleted: set<Url>)
      modifies store
      ensures store.cache == Activate(keys, old(store.cache))
      ensures deleted == old(store.cache).Keys - keys.Values
      ensures forall k :: k in store.cache <==> k in old(store.cache) && exists u :: u in keys && keys[u] == k
      ensures forall k :: k in store.cache ==> store.cache[k] == old(store.cache)[k]
    {
      ghost var before := store.cache;
      var wanted := keys.Values;
      var rest := store.cache.Keys;
      deleted := {};
      while rest != {}
        invariant rest <= before.Keys
        invariant forall k :: k in deleted <==> k in before && k !in rest && k !in wanted
        invariant store.cache == WithoutKeys(before, deleted)
        decreases |rest|
      {
        var k :| k in rest;
        if k !in wanted {
          store.cache := store.cache - {k};
          deleted := deleted + {k};
        }
        rest := rest - {k};
      }
      assert WithoutKeys(before, deleted) == Activate(keys, before);
    }
  }

  ghost function WithoutKeys(cache: Cache, gone: set<Url>): Cache {
    map k | k in cache && k !in gone :: cache[k]
  }

  /** One named cache. */
  class CacheStorage {
    var cache: Cache

    constructor ()
      ensures cache == map[]
    {
      cache := map[];
    }
  }

  lemma {:induction false} StopsWhenFailed(keys: map<Url, Url>, urls: seq<Url>, n: nat, cache: Cache, net: Network)
    requires forall u :: u in urls ==> u in keys
    requires n <= |urls| && !Install(keys, urls[..n], cache, net).ok
    ensures Install(keys, urls, cache, net) == Install(keys, urls[..n], cache, net)
    decreases |urls| - n
  {
    if n < |urls| {
      assert urls[..n + 1][..n] == urls[..n];
      StopsWhenFailed(keys, urls, n + 1, cache, net);
    } else {
      assert urls[..n] == urls;
    }
  }
}
