/** A runtime cache with expiration: its responses, the timestamps kept for them,
    and the passes that evict from both. */
module RuntimeCache {
  import opened Existence
  import opened TimestampStore
  import opened ExpirationGuard

  /** Bodies by URL. */
  type Responses = map<string, string>

  /** The URLs of the records a pass evicts. */
  function EvictedUrls(db: Records, cacheName: string, minTimestamp: int, maxEntries: nat): set<string> {
    set k | k in db && !Stays(db, cacheName, minTimestamp, maxEntries, k) :: db[k].url
  }

  function Without(responses: Responses, urls: set<string>): Responses {
    map u | u in responses && u !in urls :: responses[u]
  }

  class ResponseCache {
    var responses: Responses

    constructor ()
      ensures responses == map[]
    {
      responses := map[];
    }
  }

  /** Last used more than `maxAgeSeconds` before `now`.  Zero is no maximum age; nor is
      there one at the instant that is itself `maxAgeSeconds` after the epoch. */
  predicate IsAged(timestamp: int, now: int, maxAgeSeconds: nat) {
    maxAgeSeconds != 0 && now != 1000 * maxAgeSeconds && now - timestamp > 1000 * maxAgeSeconds
  }

  /** What a pass leaves of the records: those of other caches; of its own none that is
      aged, no more than the maximum, and otherwise all but those that as many newer
      ones crowd out. */
  ghost predicate LeavesRecords(db: Records, left: Records, cacheName: string, now: int, maxAgeSeconds: nat,
                                maxEntries: nat)
  {
    var own := set k | k in left && left[k].cacheName == cacheName;
    && (forall k :: k in left ==> k in db && left[k] == db[k])
    && (forall k :: k in db && db[k].cacheName != cacheName ==> k in left)
    && (forall k :: k in own ==> !IsAged(left[k].timestamp, now, maxAgeSeconds))
    && (maxEntries != 0 ==> |own| <= maxEntries)
    && (forall k :: k in db && db[k].cacheName == cacheName && !IsAged(db[k].timestamp, now, maxAgeSeconds) ==>
          && (maxEntries == 0 || |own| < maxEntries ==> k in left)
          && (k !in left ==> forall j :: j in own ==> left[j].timestamp >= db[k].timestamp))
  }

  lemma AgedExactly(record: Record, now: int, maxAgeSeconds: nat)
    ensures TooOld(record, MinTimestamp(now, maxAgeSeconds)) <==> IsAged(record.timestamp, now, maxAgeSeconds)
  {
  }

  lemma SurvivorsLeft(db: Records, cacheName: string, now: int, maxAgeSeconds: nat, maxEntries: nat)
    ensures LeavesRecords(db, Survivors(db, cacheName, MinTimestamp(now, maxAgeSeconds), maxEntries), cacheName,
                          now, maxAgeSeconds, maxEntries)
  {
    var least := MinTimestamp(now, maxAgeSeconds);
    var left := Survivors(db, cacheName, least, maxEntries);
    assert (set k | k in left && left[k].cacheName == cacheName) == OfCache(left, cacheName);
    forall k | k in db ensures TooOld(db[k], least) <==> IsAged(db[k].timestamp, now, maxAgeSeconds) {
      AgedExactly(db[k], now, maxAgeSeconds);
    }
    if maxEntries != 0 {
      AtMostMaxStay(db, cacheName, least, maxEntries);
    }
    forall k | k in db && db[k].cacheName == cacheName && !TooOld(db[k], least) && k !in left
      ensures maxEntries != 0 && |OfCache(left, cacheName)| == maxEntries
      ensures forall j :: j in OfCache(left, cacheName) ==> left[j].timestamp >= db[k].timestamp
    {
      NewestMaxStay(db, cacheName, least, maxEntries, k);
    }
  }

  /** The responses of the records that went are gone, and no others. */
  ghost predicate LeavesResponses(before: Responses, after: Responses, db: Records, left: Records) {
    && (forall u :: u in after <==> u in before && !exists k :: k in db && k !in left && db[k].url == u)
    && (forall u :: u in after ==> after[u] == before[u])
  }

  /** One whole pass: the timestamps first, then the responses of the URLs that
      went. */
  method ExpirePass(model: CacheTimestampsModel, cache: ResponseCache, now: int, maxAgeSeconds: nat, maxEntries: nat)
    requires WellKeyed(model.store.records)
    modifies model.store, cache
    ensures var db, least := old(model.store.records), MinTimestamp(now, maxAgeSeconds);
            && model.store.records == Survivors(db, model.cacheName, least, maxEntries)
            && cache.responses == Without(old(cache.responses), EvictedUrls(db, model.cacheName, least, maxEntries))
    ensures LeavesRecords(old(model.store.records), model.store.records, model.cacheName,
                          now, maxAgeSeconds, maxEntries)
    ensures LeavesResponses(old(cache.responses), cache.responses, old(model.store.records), model.store.records)
  {
    ghost var db, before := model.store.records, cache.responses;
    var least := MinTimestamp(now, maxAgeSeconds);
    var urls := model.ExpireEntries(least, maxEntries);
    ghost var evicted := EvictedUrls(db, model.cacheName, least, maxEntries);
    forall u ensures u in urls <==> u in evicted {
      if u in evicted {
        var k :| k in db && !Stays(db, model.cacheName, least, maxEntries, k) && db[k].url == u;
        assert k !in model.store.records;
      }
    }
    var i := 0;
    while i < |urls|
      invariant 0 <= i <= |urls|
      invariant model.store.records == Survivors(db, model.cacheName, least, maxEntries)
      invariant cache.responses == Without(before, set u | u in urls[..i])
    {
      assert urls[..i + 1] == urls[..i] + [urls[i]];
      cache.responses := cache.responses - {urls[i]};
      i := i + 1;
    }
    assert urls[..|urls|] == urls;
    assert (set u | u in urls) == evicted;
    SurvivorsLeft(db, model.cacheName, now, maxAgeSeconds, maxEntries);
    hide LeavesRecords;
    EvictedResponses(before, db, model.cacheName, least, maxEntries);
  }

  lemma EvictedResponses(responses: Responses, db: Records, cacheName: string, minTimestamp: int, maxEntries: nat)
    ensures LeavesResponses(responses, Without(responses, EvictedUrls(db, cacheName, minTimestamp, maxEntries)), db,
                            Survivors(db, cacheName, minTimestamp, maxEntries))
  {
    var left := Survivors(db, cacheName, minTimestamp, maxEntries);
    forall k | k in db ensures k in left <==> Stays(db, cacheName, minTimestamp, maxEntries, k) {
    }
    hide Stays;
    forall u | u in responses
      ensures u in EvictedUrls(db, cacheName, minTimestamp, maxEntries)
              <==> exists k :: k in db && k !in left && db[k].url == u
    {
    }
  }

  // ---------- responses and timestamps together ----------

  /** Every cached response is filed under a URL without fragment and has its
      timestamp record. */
  ghost predicate InSync(responses: Responses, db: Records, cacheName: string) {
    && (forall k :: k in db && db[k].cacheName == cacheName ==> k == IdOf(cacheName, db[k].url))
    && forall u :: u in responses ==>
         var id := IdOf(cacheName, u);
         WithoutHash(u) == u && id in db && db[id].cacheName == cacheName && db[id].url == u
  }

  lemma IdsDiffer(cacheName: string, u: string, v: string)
    requires WithoutHash(u) == u && WithoutHash(v) == v && u != v
    ensures IdOf(cacheName, u) != IdOf(cacheName, v)
  {
    var n := |cacheName| + 1;
    assert IdOf(cacheName, u)[n..] == u && IdOf(cacheName, v)[n..] == v;
  }

  /** A pass takes the response of every record it takes, and no other's. */
  lemma PassKeepsSync(responses: Responses, db: Records, cacheName: string, minTimestamp: int, maxEntries: nat)
    requires InSync(responses, db, cacheName)
    ensures InSync(Without(responses, EvictedUrls(db, cacheName, minTimestamp, maxEntries)),
                   Survivors(db, cacheName, minTimestamp, maxEntries), cacheName)
    ensures forall u :: u in responses && Stays(db, cacheName, minTimestamp, maxEntries, IdOf(cacheName, u))
              ==> u in Without(responses, EvictedUrls(db, cacheName, minTimestamp, maxEntries))
  {
    var evicted := EvictedUrls(db, cacheName, minTimestamp, maxEntries);
    forall u | u in responses
      ensures u in evicted <==> !Stays(db, cacheName, minTimestamp, maxEntries, IdOf(cacheName, u))
    {
      var id := IdOf(cacheName, u);
      assert db[id].url == u;
      if u in evicted {
        var k :| k in db && !Stays(db, cacheName, minTimestamp, maxEntries, k) && db[k].url == u;
        assert db[k].cacheName == cacheName && k == id;
      }
    }
  }

  lemma {:induction false} NoMoreThanIds(cacheName: string, urls: set<string>, ids: set<string>)
    requires forall u :: u in urls ==> WithoutHash(u) == u && IdOf(cacheName, u) in ids
    ensures |urls| <= |ids|
    decreases |urls|
  {
    if urls != {} {
      var u :| u in urls;
      forall v | v in urls - {u} ensures IdOf(cacheName, v) in ids - {IdOf(cacheName, u)} {
        IdsDiffer(cacheName, u, v);
      }
      NoMoreThanIds(cacheName, urls - {u}, ids - {IdOf(cacheName, u)});
    }
  }

  /** After a pass the cache holds at most `maxEntries` responses. */
  lemma PassLimitsResponses(responses: Responses, db: Records, cacheName: string, minTimestamp: int, maxEntries: nat)
    requires InSync(responses, db, cacheName) && maxEntries != 0
    ensures |Without(responses, EvictedUrls(db, cacheName, minTimestamp, maxEntries))| <= maxEntries
  {
    var kept := Without(responses, EvictedUrls(db, cacheName, minTimestamp, maxEntries));
    var left := Survivors(db, cacheName, minTimestamp, maxEntries);
    PassKeepsSync(responses, db, cacheName, minTimestamp, maxEntries);
    AtMostMaxStay(db, cacheName, minTimestamp, maxEntries);
    NoMoreThanIds(cacheName, kept.Keys, OfCache(left, cacheName));
    assert |kept| == |kept.Keys|;
  }

  // ---------- calls that interleave ----------

  type Client = nat

  /** A cache with its name and limits. */
  datatype Config = Config(cacheName: string, maxAgeSeconds: nat, maxEntries: nat)

  /** The pass under way, after each of its awaits: it has its minimum timestamp, or
      it holds the records and the URLs it has still to delete. */
  datatype Pass = NoPass | Scanning(minTimestamp: int) | Deleting(ids: set<string>, urls: set<string>)

  /** A call that stores a response: it has written it, or stamped it too. */
  datatype StoreCall = Written(url: string) | Recorded(url: string)

  /** The guard lets one pass run at a time.  A hit is a URL still to be stamped. */
  datatype State = State(
    responses: Responses,
    records: Records,
    flags: Flags,
    pass: Pass,
    stores: map<Client, StoreCall>,
    hits: map<Client, string>)

  datatype Step =
    /** A store writes its response, stamps it, and asks for a pass. */
    | Write(c: Client, url: string, body: string)
    | Stamp(c: Client, now: int)
    | AskForPass(c: Client, now: int)
    /** A hit asks for a pass first, and stamps later. */
    | Hit(c: Client, url: string, now: int)
    | StampHit(c: Client, now: int)
    /** A pass scans, deletes records, then responses, and ends. */
    | Scan
    | DropRecord(id: string)
    | DropResponse(url: string)
    | EndPass(now: int)
    /** Calls for other caches change no record of this one. */
    | Elsewhere(records: Records)

  function OwnRecords(db: Records, cacheName: string): Records {
    map k | k in db && db[k].cacheName == cacheName :: db[k]
  }

  predicate Enabled(s: State, config: Config, step: Step) {
    match step
    case Write(c, _, _) => c !in s.stores
    case Stamp(c, _) => c in s.stores && s.stores[c].Written?
    case AskForPass(c, _) => c in s.stores && s.stores[c].Recorded?
    case Hit(c, url, _) => c !in s.hits && WithoutHash(url) in s.responses
    case StampHit(c, _) => c in s.hits
    case Scan => s.pass.Scanning?
    case DropRecord(id) => s.pass.Deleting? && id in s.pass.ids
    case DropResponse(url) => s.pass.Deleting? && s.pass.ids == {} && url in s.pass.urls
    case EndPass(_) => s.pass.Deleting? && s.pass.ids == {} && s.pass.urls == {}
    case Elsewhere(db) => OwnRecords(db, config.cacheName) == OwnRecords(s.records, config.cacheName)
  }

  function Ask(s: State, config: Config, now: int): State {
    var (flags, starts) := OnRequest(s.flags);
    s.(flags := flags, pass := if starts then Scanning(MinTimestamp(now, config.maxAgeSeconds)) else s.pass)
  }

  function EvictedIds(db: Records, cacheName: string, minTimestamp: int, maxEntries: nat): set<string> {
    set k | k in db && !Stays(db, cacheName, minTimestamp, maxEntries, k)
  }

  function Take(s: State, config: Config, step: Step): State
    requires Enabled(s, config, step)
  {
    match step
    case Write(c, url, body) =>
      var u := WithoutHash(url);
      s.(responses := s.responses[u := body], stores := s.stores[c := Written(u)])
    case Stamp(c, now) =>
      var u := s.stores[c].url;
      s.(records := Stamped(s.records, config.cacheName, u, now), stores := s.stores[c := Recorded(u)])
    case AskForPass(c, now) => Ask(s.(stores := s.stores - {c}), config, now)
    case Hit(c, url, now) => Ask(s.(hits := s.hits[c := WithoutHash(url)]), config, now)
    case StampHit(c, now) =>
      s.(records := Stamped(s.records, config.cacheName, s.hits[c], now), hits := s.hits - {c})
    case Scan =>
      var least := s.pass.minTimestamp;
      s.(pass := Deleting(
        EvictedIds(s.records, config.cacheName, least, config.maxEntries),
        EvictedUrls(s.records, config.cacheName, least, config.maxEntries)))
    case DropRecord(id) => s.(records := s.records - {id}, pass := s.pass.(ids := s.pass.ids - {id}))
    case DropResponse(url) => s.(responses := s.responses - {url}, pass := s.pass.(urls := s.pass.urls - {url}))
    case EndPass(now) =>
      var (flags, starts) := OnFinish(s.flags);
      s.(flags := flags, pass := if starts then Scanning(MinTimestamp(now, config.maxAgeSeconds)) else NoPass)
    case Elsewhere(db) => s.(records := db)
  }

  ghost predicate IsRun(s: State, config: Config, steps: seq<Step>)
    decreases |steps|
  {
    steps != [] ==> Enabled(s, config, steps[0]) && IsRun(Take(s, config, steps[0]), config, steps[1..])
  }

  ghost function After(s: State, config: Config, steps: seq<Step>): State
    requires IsRun(s, config, steps)
    decreases |steps|
  {
    if steps == [] then s else After(Take(s, config, steps[0]), config, steps[1..])
  }

  // ---------- what stores and hits write ----------

  /** A store files its response under the URL without its fragment; it and a hit leave
      a record there with the time of the stamp; no other response or record changes. */
  lemma CallsWrite(s: State, config: Config, step: Step)
    requires Enabled(s, config, step)
    ensures step.Write? ==>
              var t := Take(s, config, step);
              && t.records == s.records && t.responses == s.responses[WithoutHash(step.url) := step.body]
              && t.stores == s.stores[step.c := Written(WithoutHash(step.url))]
    ensures step.Stamp? || step.StampHit? ==>
              var t := Take(s, config, step);
              var url := WithoutHash(if step.Stamp? then s.stores[step.c].url else s.hits[step.c]);
              var id := config.cacheName + "|" + url;
              t.responses == s.responses && t.records == s.records[id := Record(id, url, step.now, config.cacheName)]
    ensures step.Hit? ==>
              var t := Take(s, config, step);
              t.responses == s.responses && t.records == s.records
              && t.hits == s.hits[step.c := WithoutHash(step.url)]
  {
  }

  /** A store that is done and a hit each ask for a pass: one starts when none runs, and
      otherwise a rerun is wanted.  The end of a pass starts the rerun, if it is. */
  lemma CallsAskForPass(s: State, config: Config, step: Step)
    requires Enabled(s, config, step)
    ensures step.AskForPass? || step.Hit? ==>
              var t := Take(s, config, step);
              if s.flags.running then t.flags.running && t.flags.rerun && t.pass == s.pass
              else t.flags.running && t.flags.rerun == s.flags.rerun && t.pass.Scanning?
    ensures step.AskForPass? ==> Take(s, config, step).stores == s.stores - {step.c}
    ensures step.EndPass? ==>
              var t := Take(s, config, step);
              if s.flags.rerun then t.flags == Flags(true, false) && t.pass.Scanning?
              else t.flags == Flags(false, false) && t.pass == NoPass
  {
  }

  // ---------- passes and age ----------

  /** The steps that can start a pass; the pass keeps what was used within the maximum
      age before that step. */
  predicate StartsPass(s: State, config: Config, step: Step)
    requires Enabled(s, config, step)
  {
    && (step.AskForPass? || step.Hit? || step.EndPass?)
    && (s.pass.NoPass? || step.EndPass?)
    && Take(s, config, step).pass.Scanning?
  }

  /** Whatever happens between the start of a pass and its scan, the scan takes every
      record that was aged when the pass started, and its URL; without a maximum number
      of entries it takes no other. */
  lemma PassesExpireByAge(s: State, config: Config, step: Step, u: State, k: string)
    requires Enabled(s, config, step) && StartsPass(s, config, step)
    requires u.pass == Take(s, config, step).pass
    requires k in u.records && u.records[k].cacheName == config.cacheName
    ensures var v := Take(u, config, Scan);
            var aged := IsAged(u.records[k].timestamp, step.now, config.maxAgeSeconds);
            && (aged ==> k in v.pass.ids && u.records[k].url in v.pass.urls)
            && (config.maxEntries == 0 ==> (k in v.pass.ids <==> aged))
  {
    AgedExactly(u.records[k], step.now, config.maxAgeSeconds);
  }

  // ---------- a pass on its own ----------

  ghost predicate OnlyDrops(steps: seq<Step>) {
    forall i :: 0 <= i < |steps| ==> steps[i].DropRecord? || steps[i].DropResponse?
  }

  lemma {:induction false} DropsAddUp(s: State, config: Config, steps: seq<Step>)
    requires s.pass.Deleting? && OnlyDrops(steps) && IsRun(s, config, steps)
    ensures var t := After(s, config, steps);
            && t.pass.Deleting?
            && t.records - t.pass.ids == s.records - s.pass.ids
            && t.responses - t.pass.urls == s.responses - s.pass.urls
    decreases |steps|
  {
    if steps != [] {
      assert steps[0].DropRecord? || steps[0].DropResponse?;
      var t := Take(s, config, steps[0]);
      assert t.records - t.pass.ids == s.records - s.pass.ids;
      assert t.responses - t.pass.urls == s.responses - s.pass.urls;
      DropsAddUp(t, config, steps[1..]);
    }
  }

  /** The steps of a pass that nothing interrupts do what `ExpirePass` does. */
  lemma PassAlone(s: State, config: Config, steps: seq<Step>, now: int)
    requires s.pass.Scanning? && OnlyDrops(steps) && IsRun(Take(s, config, Scan), config, steps)
    requires Enabled(After(Take(s, config, Scan), config, steps), config, EndPass(now))
    ensures var t := After(Take(s, config, Scan), config, steps);
            && t.records == Survivors(s.records, config.cacheName, s.pass.minTimestamp, config.maxEntries)
            && t.responses
               == Without(s.responses, EvictedUrls(s.records, config.cacheName, s.pass.minTimestamp, config.maxEntries))
  {
    DropsAddUp(Take(s, config, Scan), config, steps);
    var t := After(Take(s, config, Scan), config, steps);
    assert t.records - {} == t.records && t.responses - {} == t.responses;
  }

  // ---------- what every interleaving keeps ----------

  predicate HasRecord(s: State, config: Config, url: string) {
    var id := IdOf(config.cacheName, url);
    id in s.records && s.records[id].cacheName == config.cacheName && s.records[id].url == url
  }

  /** A store has written the response and has still to stamp it. */
  predicate BeingStored(s: State, url: string) {
    exists c :: c in s.stores && s.stores[c] == Written(url)
  }

  /** The pass under way has still to delete the response. */
  predicate BeingDeleted(s: State, url: string) {
    s.pass.Deleting? && url in s.pass.urls
  }

  /** Own records are filed under their URL, which has no fragment. */
  ghost predicate OwnKeyed(db: Records, cacheName: string) {
    forall k :: k in db && db[k].cacheName == cacheName ==>
      k == IdOf(cacheName, db[k].url) && WithoutHash(db[k].url) == db[k].url
  }

  ghost predicate Tidy(s: State, config: Config) {
    && OwnKeyed(s.records, config.cacheName)
    && (forall c :: c in s.stores ==> WithoutHash(s.stores[c].url) == s.stores[c].url)
    && (forall c :: c in s.hits ==> WithoutHash(s.hits[c]) == s.hits[c])
    && (forall u :: u in s.responses ==> WithoutHash(u) == u)
    && (s.pass.Deleting? ==>
          forall u :: WithoutHash(u) == u && IdOf(config.cacheName, u) in s.pass.ids ==> u in s.pass.urls)
  }

  /** A response without its timestamp has a call in flight that will stamp it or
      delete it. */
  ghost predicate Accounted(s: State, config: Config) {
    forall u :: u in s.responses ==> HasRecord(s, config, u) || BeingStored(s, u) || BeingDeleted(s, u)
  }

  ghost predicate Guarded(s: State) {
    (s.flags.running <==> !s.pass.NoPass?) && (s.flags.rerun ==> s.flags.running)
  }

  /** A scan is still to come. */
  predicate ScanDue(s: State) {
    s.flags.rerun || s.pass.Scanning? || s.stores != map[]
  }

  /** The responses no pass is about to delete. */
  function Staying(s: State): set<string> {
    s.responses.Keys - (if s.pass.Deleting? then s.pass.urls else {})
  }

  ghost predicate Limited(s: State, config: Config) {
    config.maxEntries != 0 && !ScanDue(s) ==> |Staying(s)| <= config.maxEntries
  }

  ghost predicate Inv(s: State, config: Config) {
    Tidy(s, config) && Accounted(s, config) && Guarded(s) && Limited(s, config)
  }

  lemma {:induction false} HashGone(url: string)
    ensures WithoutHash(WithoutHash(url)) == WithoutHash(url)
  {
    if url != "" && url[0] != '#' {
      HashGone(url[1..]);
      assert WithoutHash(url)[1..] == WithoutHash(url[1..]);
    }
  }

  /** Stamping a URL keeps the records of all others. */
  lemma StampKeepsRecords(s: State, t: State, config: Config, url: string, now: int)
    requires WithoutHash(url) == url && OwnKeyed(s.records, config.cacheName)
    requires t.records == Stamped(s.records, config.cacheName, url, now)
    ensures OwnKeyed(t.records, config.cacheName) && HasRecord(t, config, url)
    ensures forall u :: WithoutHash(u) == u && HasRecord(s, config, u) ==> HasRecord(t, config, u)
  {
    forall u | WithoutHash(u) == u && HasRecord(s, config, u) ensures HasRecord(t, config, u) {
      if u != url {
        IdsDiffer(config.cacheName, u, url);
      }
    }
  }

  /** Stores still to be stamped are still there. */
  lemma StoresStay(s: State, t: State)
    requires forall c :: c in s.stores && s.stores[c].Written? ==> c in t.stores && t.stores[c] == s.stores[c]
    ensures forall u :: BeingStored(s, u) ==> BeingStored(t, u)
  {
    forall u | BeingStored(s, u) ensures BeingStored(t, u) {
      var c :| c in s.stores && s.stores[c] == Written(u);
      assert c in t.stores && t.stores[c] == Written(u);
    }
  }

  lemma WriteInv(s: State, config: Config, c: Client, url: string, body: string)
    requires Inv(s, config) && Enabled(s, config, Write(c, url, body))
    ensures Inv(Take(s, config, Write(c, url, body)), config)
  {
    hide WithoutHash, IdOf;
    var t := Take(s, config, Write(c, url, body));
    HashGone(url);
    StoresStay(s, t);
    assert c in t.stores && t.stores[c] == Written(WithoutHash(url));
    assert BeingStored(t, WithoutHash(url));
  }

  lemma StampInv(s: State, config: Config, c: Client, now: int)
    requires Inv(s, config) && Enabled(s, config, Stamp(c, now))
    ensures Inv(Take(s, config, Stamp(c, now)), config)
  {
    hide WithoutHash, IdOf, Stamped;
    var t := Take(s, config, Stamp(c, now));
    var url := s.stores[c].url;
    StampKeepsRecords(s, t, config, url, now);
    forall u | u != url && BeingStored(s, u) ensures BeingStored(t, u) {
      var d :| d in s.stores && s.stores[d] == Written(u);
      assert d in t.stores && t.stores[d] == Written(u);
    }
    assert c in t.stores;
  }

  lemma AskForPassInv(s: State, config: Config, c: Client, now: int)
    requires Inv(s, config) && Enabled(s, config, AskForPass(c, now))
    ensures Inv(Take(s, config, AskForPass(c, now)), config)
  {
    hide WithoutHash, IdOf, MinTimestamp;
    StoresStay(s, Take(s, config, AskForPass(c, now)));
  }

  lemma HitInv(s: State, config: Config, c: Client, url: string, now: int)
    requires Inv(s, config) && Enabled(s, config, Hit(c, url, now))
    ensures Inv(Take(s, config, Hit(c, url, now)), config)
  {
    hide WithoutHash, IdOf, MinTimestamp;
    HashGone(url);
    StoresStay(s, Take(s, config, Hit(c, url, now)));
  }

  lemma StampHitInv(s: State, config: Config, c: Client, now: int)
    requires Inv(s, config) && Enabled(s, config, StampHit(c, now))
    ensures Inv(Take(s, config, StampHit(c, now)), config)
  {
    hide WithoutHash, IdOf, Stamped;
    var t := Take(s, config, StampHit(c, now));
    StoresStay(s, t);
    StampKeepsRecords(s, t, config, s.hits[c], now);
  }

  lemma ScanTidy(s: State, config: Config)
    requires Tidy(s, config) && s.pass.Scanning?
    ensures Tidy(Take(s, config, Scan), config)
  {
    var t := Take(s, config, Scan);
    forall u | WithoutHash(u) == u && IdOf(config.cacheName, u) in t.pass.ids ensures u in t.pass.urls {
      var url := s.records[IdOf(config.cacheName, u)].url;
      if u != url {
        IdsDiffer(config.cacheName, u, url);
        assert false;
      }
    }
  }

  /** What a scan leaves out is within the limit, when no store is under way. */
  lemma ScanLimits(s: State, config: Config)
    requires Tidy(s, config) && Accounted(s, config) && s.pass.Scanning?
    ensures Limited(Take(s, config, Scan), config)
  {
    var t := Take(s, config, Scan);
    if config.maxEntries != 0 && !ScanDue(t) {
      ScannedInSync(s, config);
      hide Tidy, Accounted, InSync, EvictedUrls, EvictedIds;
      PassLimitsResponses(s.responses, s.records, config.cacheName, s.pass.minTimestamp, config.maxEntries);
      var kept := Without(s.responses, t.pass.urls);
      assert kept.Keys == Staying(t);
      assert |kept| == |kept.Keys|;
    }
  }

  /** With neither a store nor a deletion under way every response has its record. */
  lemma ScannedInSync(s: State, config: Config)
    requires Tidy(s, config) && Accounted(s, config) && !s.pass.Deleting? && s.stores == map[]
    ensures InSync(s.responses, s.records, config.cacheName)
  {
    hide WithoutHash, IdOf;
  }

  lemma ScanInv(s: State, config: Config)
    requires Inv(s, config) && s.pass.Scanning?
    ensures Inv(Take(s, config, Scan), config)
  {
    ScanTidy(s, config);
    ScanLimits(s, config);
    StoresStay(s, Take(s, config, Scan));
    hide Tidy, Limited, IdOf, EvictedUrls, EvictedIds;
  }

  lemma DropRecordAccounted(s: State, config: Config, id: string)
    requires Tidy(s, config) && Accounted(s, config) && Enabled(s, config, DropRecord(id))
    ensures Accounted(Take(s, config, DropRecord(id)), config)
  {
    hide WithoutHash, IdOf, OwnKeyed;
    var t := Take(s, config, DropRecord(id));
    StoresStay(s, t);
    hide BeingStored;
    forall u | u in t.responses ensures HasRecord(t, config, u) || BeingStored(t, u) || BeingDeleted(t, u) {
      if HasRecord(s, config, u) && IdOf(config.cacheName, u) == id {
        assert BeingDeleted(t, u);
      }
    }
  }

  lemma DropTidy(s: State, config: Config, step: Step)
    requires Tidy(s, config) && Enabled(s, config, step) && (step.DropRecord? || step.DropResponse?)
    ensures Tidy(Take(s, config, step), config)
  {
    hide WithoutHash, IdOf;
    if step.DropResponse? {
      assert s.pass.ids == {};
    }
  }

  lemma DropRecordInv(s: State, config: Config, id: string)
    requires Inv(s, config) && Enabled(s, config, DropRecord(id))
    ensures Inv(Take(s, config, DropRecord(id)), config)
  {
    hide Tidy, Accounted;
    DropRecordAccounted(s, config, id);
    DropTidy(s, config, DropRecord(id));
    assert Staying(Take(s, config, DropRecord(id))) == Staying(s);
  }

  lemma DropResponseAccounted(s: State, config: Config, url: string)
    requires Accounted(s, config) && Enabled(s, config, DropResponse(url))
    ensures Accounted(Take(s, config, DropResponse(url)), config)
  {
    hide WithoutHash, IdOf;
    var t := Take(s, config, DropResponse(url));
    StoresStay(s, t);
    hide BeingStored;
    assert forall u :: HasRecord(s, config, u) ==> HasRecord(t, config, u);
  }

  lemma DropResponseStaying(s: State, config: Config, url: string)
    requires Enabled(s, config, DropResponse(url))
    ensures Staying(Take(s, config, DropResponse(url))) == Staying(s)
  {
  }

  lemma DropResponseInv(s: State, config: Config, url: string)
    requires Inv(s, config) && Enabled(s, config, DropResponse(url))
    ensures Inv(Take(s, config, DropResponse(url)), config)
  {
    hide Tidy, Accounted;
    DropResponseAccounted(s, config, url);
    DropTidy(s, config, DropResponse(url));
    DropResponseStaying(s, config, url);
  }

  lemma EndPassAccounted(s: State, config: Config, now: int)
    requires Accounted(s, config) && Enabled(s, config, EndPass(now))
    ensures Accounted(Take(s, config, EndPass(now)), config)
  {
    hide WithoutHash, IdOf, MinTimestamp;
    var t := Take(s, config, EndPass(now));
    StoresStay(s, t);
    hide BeingStored;
    assert forall u :: HasRecord(s, config, u) ==> HasRecord(t, config, u);
  }

  lemma EndPassTidy(s: State, config: Config, now: int)
    requires Tidy(s, config) && Enabled(s, config, EndPass(now))
    ensures Tidy(Take(s, config, EndPass(now)), config)
  {
    hide WithoutHash, IdOf, MinTimestamp, OwnKeyed;
  }

  lemma EndPassInv(s: State, config: Config, now: int)
    requires Inv(s, config) && Enabled(s, config, EndPass(now))
    ensures Inv(Take(s, config, EndPass(now)), config)
  {
    hide Tidy, Accounted, MinTimestamp;
    EndPassAccounted(s, config, now);
    EndPassTidy(s, config, now);
    assert Staying(Take(s, config, EndPass(now))) == Staying(s);
  }

  lemma ElsewhereAccounted(s: State, config: Config, db: Records)
    requires Accounted(s, config) && Enabled(s, config, Elsewhere(db))
    ensures Accounted(Take(s, config, Elsewhere(db)), config)
  {
    hide WithoutHash, IdOf;
    var t := Take(s, config, Elsewhere(db));
    StoresStay(s, t);
    SameOwn(s.records, db, config.cacheName);
    hide BeingStored, OwnRecords;
    assert forall u :: HasRecord(s, config, u) ==> HasRecord(t, config, u);
  }

  lemma ElsewhereTidy(s: State, config: Config, db: Records)
    requires Tidy(s, config) && Enabled(s, config, Elsewhere(db))
    ensures Tidy(Take(s, config, Elsewhere(db)), config)
  {
    SameOwn(db, s.records, config.cacheName);
    hide WithoutHash, IdOf, OwnRecords;
  }

  lemma ElsewhereInv(s: State, config: Config, db: Records)
    requires Inv(s, config) && Enabled(s, config, Elsewhere(db))
    ensures Inv(Take(s, config, Elsewhere(db)), config)
  {
    hide Tidy, Accounted, OwnRecords;
    ElsewhereAccounted(s, config, db);
    ElsewhereTidy(s, config, db);
    assert Staying(Take(s, config, Elsewhere(db))) == Staying(s);
  }

  lemma SameOwn(a: Records, b: Records, cacheName: string)
    requires OwnRecords(a, cacheName) == OwnRecords(b, cacheName)
    ensures forall k :: k in a && a[k].cacheName == cacheName ==> k in b && b[k] == a[k]
  {
    forall k | k in a && a[k].cacheName == cacheName ensures k in b && b[k] == a[k] {
      assert k in OwnRecords(a, cacheName);
    }
  }

  lemma StepInv(s: State, config: Config, step: Step)
    requires Inv(s, config) && Enabled(s, config, step)
    ensures Inv(Take(s, config, step), config)
  {
    hide Inv, Take;
    match step
    case Write(c, url, body) => WriteInv(s, config, c, url, body);
    case Stamp(c, now) => StampInv(s, config, c, now);
    case AskForPass(c, now) => AskForPassInv(s, config, c, now);
    case Hit(c, url, now) => HitInv(s, config, c, url, now);
    case StampHit(c, now) => StampHitInv(s, config, c, now);
    case Scan => ScanInv(s, config);
    case DropRecord(id) => DropRecordInv(s, config, id);
    case DropResponse(url) => DropResponseInv(s, config, url);
    case EndPass(now) => EndPassInv(s, config, now);
    case Elsewhere(db) => ElsewhereInv(s, config, db);
  }

  lemma {:induction false} RunInv(s: State, config: Config, steps: seq<Step>)
    requires Inv(s, config) && IsRun(s, config, steps)
    ensures Inv(After(s, config, steps), config)
    decreases |steps|
  {
    if steps != [] {
      StepInv(s, config, steps[0]);
      RunInv(Take(s, config, steps[0]), config, steps[1..]);
    }
  }

  /** An empty cache beside the records of others. */
  function Empty(others: Records): State {
    State.State(map[], others, Flags(false, false), NoPass, map[], map[])
  }

  lemma EmptyInv(config: Config, others: Records)
    requires OwnRecords(others, config.cacheName) == map[]
    ensures Inv(Empty(others), config)
  {
    forall k | k in others && others[k].cacheName == config.cacheName
      ensures k in OwnRecords(others, config.cacheName)
    {
    }
    assert Staying(Empty(others)) == {};
  }

  /** Under every interleaving of stores, hits and passes, a response without its
      timestamp cannot outlive the calls in flight: the store that wrote it has still
      to stamp it, or the pass that took its record has still to delete it. */
  lemma ResponsesKeepRecords(config: Config, others: Records, steps: seq<Step>, url: string)
    requires OwnRecords(others, config.cacheName) == map[] && IsRun(Empty(others), config, steps)
    requires url in After(Empty(others), config, steps).responses
    ensures var s := After(Empty(others), config, steps);
            HasRecord(s, config, url) || BeingStored(s, url) || BeingDeleted(s, url)
  {
    EmptyInv(config, others);
    RunInv(Empty(others), config, steps);
  }

  /** And whenever no store and no pass is under way, every response has its timestamp
      and there are at most `maxEntries` of them. */
  lemma CacheStaysWithinLimit(config: Config, others: Records, steps: seq<Step>)
    requires OwnRecords(others, config.cacheName) == map[] && IsRun(Empty(others), config, steps)
    requires var s := After(Empty(others), config, steps); s.stores == map[] && s.pass.NoPass?
    ensures var s := After(Empty(others), config, steps);
            && (forall u :: u in s.responses ==> HasRecord(s, config, u))
            && (config.maxEntries != 0 ==> |s.responses| <= config.maxEntries)
  {
    EmptyInv(config, others);
    RunInv(Empty(others), config, steps);
    var s := After(Empty(others), config, steps);
    assert Staying(s) == s.responses.Keys;
    assert |s.responses| == |s.responses.Keys|;
  }
}
