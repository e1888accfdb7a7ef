/** The store of last-use timestamps behind a runtime cache, and the scan that
    decides which entries have expired. */
module TimestampStore {
  import opened Existence

  /** One record of the object store; several caches share the store. */
  datatype Record = Record(id: string, url: string, timestamp: int, cacheName: string)

  type Records = map<string, Record>

  /** A URL without its fragment. */
  function WithoutHash(url: string): string {
    if url == "" || url[0] == '#' then "" else [url[0]] + WithoutHash(url[1..])
  }

  /** What is left is the text before the first `#`, or all of it. */
  lemma {:induction false} WithoutHashExactly(url: string)
    ensures var bare := WithoutHash(url);
            bare <= url && '#' !in bare && (bare == url || url[|bare|] == '#')
  {
    if url != "" && url[0] != '#' {
      WithoutHashExactly(url[1..]);
      assert url == [url[0]] + url[1..];
    }
  }

  function IdOf(cacheName: string, url: string): string {
    cacheName + "|" + WithoutHash(url)
  }

  /** Records are filed under their own id. */
  ghost predicate WellKeyed(db: Records) {
    forall k :: k in db ==> db[k].id == k
  }

  // ---------- the order of the index ----------

  /** The order of strings as keys: by code unit, shorter first. */
  predicate Less(a: string, b: string) {
    if b == "" then false
    else if a == "" then true
    else a[0] < b[0] || (a[0] == b[0] && Less(a[1..], b[1..]))
  }

  lemma {:induction false} LessTotal(a: string, b: string)
    ensures a == b || Less(a, b) || Less(b, a)
    ensures !(Less(a, b) && Less(b, a))
    ensures a == b ==> !Less(a, b)
  {
    if a != "" && b != "" && a[0] == b[0] {
      LessTotal(a[1..], b[1..]);
      assert a == [a[0]] + a[1..] && b == [b[0]] + b[1..];
    }
  }

  lemma {:induction false} LessTransitive(a: string, b: string, c: string)
    requires Less(a, b) && Less(b, c)
    ensures Less(a, c)
  {
    if a != "" && b != "" && c != "" && a[0] == b[0] == c[0] {
      LessTransitive(a[1..], b[1..], c[1..]);
    }
  }

  /** `a` comes first where, after a common start, it ends or has the smaller unit. */
  ghost predicate ComesFirst(a: string, b: string, n: int) {
    && 0 <= n <= |a| && n < |b| && a[..n] == b[..n]
    && (n == |a| || a[n] < b[n])
  }

  lemma StartsDiffer(a: string, b: string)
    requires a == "" || b == "" || a[0] != b[0]
    ensures forall n :: ComesFirst(a, b, n) ==> n == 0
  {
    forall n: int | 0 < n <= |a| && n <= |b| ensures a[..n] != b[..n] {
      assert a[..n][0] != b[..n][0];
    }
  }

  lemma {:induction false} LessExactly(a: string, b: string)
    ensures Less(a, b) <==> exists n :: ComesFirst(a, b, n)
  {
    if a == "" || b == "" || a[0] != b[0] {
      if Less(a, b) {
        assert ComesFirst(a, b, 0);
      }
      StartsDiffer(a, b);
    } else {
      LessExactly(a[1..], b[1..]);
      if Less(a, b) {
        var n :| ComesFirst(a[1..], b[1..], n);
        assert a[..n + 1] == [a[0]] + a[1..][..n] && b[..n + 1] == [b[0]] + b[1..][..n];
        assert ComesFirst(a, b, n + 1);
      }
      forall n | ComesFirst(a, b, n) ensures Less(a, b) {
        assert n > 0 && a[1..][..n - 1] == a[..n][1..] && b[1..][..n - 1] == b[..n][1..];
        assert ComesFirst(a[1..], b[1..], n - 1);
      }
    }
  }

  /** The cursor visits `j` before `k`: it walks the timestamp index backwards, and
      backwards by id where timestamps are equal. */
  predicate Newer(db: Records, j: string, k: string)
    requires j in db && k in db
  {
    db[j].timestamp > db[k].timestamp || (db[j].timestamp == db[k].timestamp && Less(k, j))
  }

  lemma NewerTotal(db: Records, j: string, k: string)
    requires j in db && k in db
    ensures j == k || Newer(db, j, k) || Newer(db, k, j)
    ensures !(Newer(db, j, k) && Newer(db, k, j))
    ensures !Newer(db, j, j)
  {
    LessTotal(j, k);
    LessTotal(j, j);
  }

  lemma NewerTransitive(db: Records, i: string, j: string, k: string)
    requires i in db && j in db && k in db && Newer(db, i, j) && Newer(db, j, k)
    ensures Newer(db, i, k)
  {
    if Less(j, i) && Less(k, j) {
      LessTransitive(k, j, i);
    }
  }

  predicate IsNewestOf(db: Records, s: set<string>, k: string)
    requires s <= db.Keys
  {
    k in s && forall j :: j in s && j != k ==> Newer(db, k, j)
  }

  ghost predicate IsOldestOf(db: Records, s: set<string>, k: string)
    requires s <= db.Keys
  {
    k in s && forall j :: j in s && j != k ==> Newer(db, j, k)
  }

  lemma {:induction false} NewestExists(db: Records, s: set<string>)
    requires s <= db.Keys && s != {}
    ensures exists k :: IsNewestOf(db, s, k)
  {
    var x :| x in s;
    if s == {x} {
      assert IsNewestOf(db, s, x);
    } else {
      NewestExists(db, s - {x});
      var k :| IsNewestOf(db, s - {x}, k);
      NewerTotal(db, x, k);
      if Newer(db, k, x) {
        assert IsNewestOf(db, s, k);
      } else {
        forall j | j in s && j != x ensures Newer(db, x, j) {
          if j != k {
            NewerTransitive(db, x, k, j);
          }
        }
        assert IsNewestOf(db, s, x);
      }
    }
  }

  lemma {:induction false} OldestExists(db: Records, s: set<string>)
    requires s <= db.Keys && s != {}
    ensures exists k :: IsOldestOf(db, s, k)
  {
    var x :| x in s;
    if s == {x} {
      assert IsOldestOf(db, s, x);
    } else {
      OldestExists(db, s - {x});
      var k :| IsOldestOf(db, s - {x}, k);
      NewerTotal(db, x, k);
      if Newer(db, x, k) {
        assert IsOldestOf(db, s, k);
      } else {
        forall j | j in s && j != x ensures Newer(db, j, x) {
          if j != k {
            NewerTransitive(db, j, k, x);
          }
        }
        assert IsOldestOf(db, s, x);
      }
    }
  }

  // ---------- which entries stay ----------

  /** Older than the minimum timestamp; a minimum of zero is none. */
  predicate TooOld(r: Record, minTimestamp: int) {
    minTimestamp != 0 && r.timestamp < minTimestamp
  }

  function OfCache(db: Records, cacheName: string): set<string> {
    set k | k in db && db[k].cacheName == cacheName
  }

  /** The records of the cache that come before `k`. */
  function NewerThan(db: Records, cacheName: string, k: string): set<string>
    requires k in db
  {
    set j | j in db && db[j].cacheName == cacheName && Newer(db, j, k)
  }

  /** The rule: an entry of this cache stays when it is not too old and fewer than
      `maxEntries` entries of the cache are newer; zero means no maximum. */
  predicate Stays(db: Records, cacheName: string, minTimestamp: int, maxEntries: nat, k: string)
    requires k in db
  {
    db[k].cacheName == cacheName ==>
      && !TooOld(db[k], minTimestamp)
      && (maxEntries != 0 ==> |NewerThan(db, cacheName, k)| < maxEntries)
  }

  function Survivors(db: Records, cacheName: string, minTimestamp: int, maxEntries: nat): Records {
    map k | k in db && Stays(db, cacheName, minTimestamp, maxEntries, k) :: db[k]
  }

  lemma NewerHaveFewerBefore(db: Records, cacheName: string, j: string, k: string)
    requires j in db && k in db && Newer(db, j, k)
    ensures NewerThan(db, cacheName, j) <= NewerThan(db, cacheName, k)
    ensures |NewerThan(db, cacheName, j)| <= |NewerThan(db, cacheName, k)|
  {
    forall i | i in NewerThan(db, cacheName, j) ensures i in NewerThan(db, cacheName, k) {
      NewerTransitive(db, i, j, k);
    }
    SubsetSize(NewerThan(db, cacheName, j), NewerThan(db, cacheName, k));
  }

  /** No more than the maximum stay. */
  lemma AtMostMaxStay(db: Records, cacheName: string, minTimestamp: int, maxEntries: nat)
    requires maxEntries != 0
    ensures |OfCache(Survivors(db, cacheName, minTimestamp, maxEntries), cacheName)| <= maxEntries
  {
    var stay := OfCache(Survivors(db, cacheName, minTimestamp, maxEntries), cacheName);
    if stay != {} {
      OldestExists(db, stay);
      var k :| IsOldestOf(db, stay, k);
      assert stay <= NewerThan(db, cacheName, k) + {k};
      SubsetSize(stay, NewerThan(db, cacheName, k) + {k});
    }
  }

  /** Any number of entries, up to all of them, can be taken from the new end. */
  lemma {:induction false} NewestFew(db: Records, cacheName: string, n: nat) returns (top: set<string>)
    requires n <= |OfCache(db, cacheName)|
    ensures top <= OfCache(db, cacheName) && |top| == n
    ensures forall k :: k in top ==> |NewerThan(db, cacheName, k)| < n
  {
    if n == 0 {
      top := {};
    } else {
      var fewer := NewestFew(db, cacheName, n - 1);
      var rest := OfCache(db, cacheName) - fewer;
      assert OfCache(db, cacheName) == fewer + rest;
      NewestExists(db, rest);
      var k :| IsNewestOf(db, rest, k);
      forall j | j in NewerThan(db, cacheName, k) ensures j in fewer {
        NewerTotal(db, j, k);
      }
      SubsetSize(NewerThan(db, cacheName, k), fewer);
      top := fewer + {k};
    }
  }

  /** If a fresh entry of the cache goes, the cache is full of newer ones: exactly
      `maxEntries` stay, and each of them is newer. */
  lemma NewestMaxStay(db: Records, cacheName: string, minTimestamp: int, maxEntries: nat, x: string)
    requires x in db && db[x].cacheName == cacheName && !TooOld(db[x], minTimestamp)
    requires !Stays(db, cacheName, minTimestamp, maxEntries, x)
    ensures var stay := OfCache(Survivors(db, cacheName, minTimestamp, maxEntries), cacheName);
            && |stay| == maxEntries
            && forall k :: k in stay ==>
                 && Newer(db, k, x)
                 && (db[k].timestamp > db[x].timestamp || (db[k].timestamp == db[x].timestamp && Less(x, k)))
  {
    var stay := OfCache(Survivors(db, cacheName, minTimestamp, maxEntries), cacheName);
    forall k | k in OfCache(db, cacheName) && |NewerThan(db, cacheName, k)| < maxEntries ensures Newer(db, k, x) {
      NewerTotal(db, k, x);
      if Newer(db, x, k) {
        NewerHaveFewerBefore(db, cacheName, x, k);
        assert false;
      }
    }
    assert NewerThan(db, cacheName, x) <= OfCache(db, cacheName);
    SubsetSize(NewerThan(db, cacheName, x), OfCache(db, cacheName));
    var top := NewestFew(db, cacheName, maxEntries);
    assert top <= stay;
    SubsetSize(top, stay);
    AtMostMaxStay(db, cacheName, minTimestamp, maxEntries);
  }

  /** Records of other caches are untouched. */
  lemma OtherCachesUntouched(db: Records, cacheName: string, minTimestamp: int, maxEntries: nat, k: string)
    requires k in db && db[k].cacheName != cacheName
    ensures var after := Survivors(db, cacheName, minTimestamp, maxEntries); k in after && after[k] == db[k]
  {
  }

  /** A second pass under the same limits evicts nothing. */
  lemma SecondPassEvictsNothing(db: Records, cacheName: string, minTimestamp: int, maxEntries: nat)
    ensures var once := Survivors(db, cacheName, minTimestamp, maxEntries);
            Survivors(once, cacheName, minTimestamp, maxEntries) == once
  {
    var once := Survivors(db, cacheName, minTimestamp, maxEntries);
    forall k | k in once ensures Stays(once, cacheName, minTimestamp, maxEntries, k) {
      assert NewerThan(once, cacheName, k) <= NewerThan(db, cacheName, k);
      SubsetSize(NewerThan(once, cacheName, k), NewerThan(db, cacheName, k));
    }
  }

  /** What `setTimestamp` writes. */
  function Stamped(db: Records, cacheName: string, url: string, now: int): Records {
    var id := IdOf(cacheName, url);
    db[id := Record(id, WithoutHash(url), now, cacheName)]
  }

  /** A URL just stamped, strictly newer than the rest of its cache, survives the
      pass that follows, whatever the limits, unless it is already too old. */
  lemma JustStampedSurvives(db: Records, cacheName: string, url: string, now: int, minTimestamp: int, maxEntries: nat)
    requires minTimestamp == 0 || minTimestamp <= now
    requires forall k :: k in db && db[k].cacheName == cacheName ==> db[k].timestamp < now
    ensures var after := Survivors(Stamped(db, cacheName, url, now), cacheName, minTimestamp, maxEntries);
            IdOf(cacheName, url) in after && after[IdOf(cacheName, url)].timestamp == now
  {
    var id, stamped := IdOf(cacheName, url), Stamped(db, cacheName, url, now);
    NewerTotal(stamped, id, id);
    assert NewerThan(stamped, cacheName, id) == {};
  }

  // ---------- the scan ----------

  /** The shared object store. */
  class ObjectStore {
    var records: Records

    constructor ()
      ensures records == map[]
    {
      records := map[];
    }
  }

  class CacheTimestampsModel {
    const cacheName: string
    const store: ObjectStore

    constructor (cacheName: string, store: ObjectStore)
      ensures this.cacheName == cacheName && this.store == store
    {
      this.cacheName, this.store := cacheName, store;
    }

    method SetTimestamp(url: string, timestamp: int)
      modifies store
      ensures store.records == Stamped(old(store.records), cacheName, url, timestamp)
      ensures WellKeyed(old(store.records)) ==> WellKeyed(store.records)
      ensures var bare := WithoutHash(url);
              var id := cacheName + "|" + bare;
              store.records == old(store.records)[id := Record(id, bare, timestamp, cacheName)]
    {
      var id := IdOf(cacheName, url);
      store.records := store.records[id := Record(id, WithoutHash(url), timestamp, cacheName)];
    }

    /** The first half of the pass: walks the index from the newest record to the
        oldest and collects what has expired, counting what stays. */
    method Scan(db: Records, minTimestamp: int, maxEntries: nat) returns (expired: seq<Record>)
      requires WellKeyed(db)
      ensures forall k :: k in db ==> (db[k] in expired <==> !Stays(db, cacheName, minTimestamp, maxEntries, k))
      ensures forall r :: r in expired ==> r.id in db && db[r.id] == r
    {
      expired := [];
      var kept := 0;
      var rest := db.Keys;
      while rest != {}
        invariant PassedNewest(db, rest)
        invariant CountsKept(db, cacheName, minTimestamp, maxEntries, rest, kept)
        invariant Collected(db, cacheName, minTimestamp, maxEntries, rest, expired)
        decreases |rest|
      {
        NewestExists(db, rest);
        var n :| n in rest && IsNewestOf(db, rest, n);
        var record := db[n];
        VisitOne(db, cacheName, minTimestamp, maxEntries, rest, n, kept);
        if record.cacheName == cacheName {
          if TooOld(record, minTimestamp) || (maxEntries != 0 && kept >= maxEntries) {
            CollectOne(db, cacheName, minTimestamp, maxEntries, rest, n, expired, expired + [record]);
            expired := expired + [record];
          } else {
            CollectOne(db, cacheName, minTimestamp, maxEntries, rest, n, expired, expired);
            kept := kept + 1;
          }
        } else {
          CollectOne(db, cacheName, minTimestamp, maxEntries, rest, n, expired, expired);
        }
        rest := rest - {n};
      }
      assert forall k :: k in db ==> k !in rest;
    }

    /** Scans, then deletes what has expired one by one. */
    method ExpireEntries(minTimestamp: int, maxEntries: nat) returns (urls: seq<string>)
      requires WellKeyed(store.records)
      modifies store
      ensures store.records == Survivors(old(store.records), cacheName, minTimestamp, maxEntries)
      ensures WellKeyed(store.records)
      ensures forall k :: k in old(store.records) && k !in store.records ==> old(store.records)[k].url in urls
      ensures forall u :: u in urls ==>
                exists k :: k in old(store.records) && k !in store.records && old(store.records)[k].url == u
    {
      hide Survivors, Stays;
      ghost var db := store.records;
      var expired := Scan(store.records, minTimestamp, maxEntries);
      urls := [];
      var i := 0;
      while i < |expired|
        invariant 0 <= i <= |expired| && |urls| == i
        invariant forall j :: 0 <= j < i ==> urls[j] == expired[j].url
        invariant store.records == Dropped(db, expired[..i])
      {
        assert expired[..i + 1] == expired[..i] + [expired[i]];
        store.records := store.records - {expired[i].id};
        urls := urls + [expired[i].url];
        i := i + 1;
      }
      assert expired[..|expired|] == expired;
      DroppedAreSurvivors(db, expired, cacheName, minTimestamp, maxEntries);
      UrlsOfDropped(db, expired, urls);
    }
  }

  /** The entries of the cache that the cursor has passed. */
  function Visited(db: Records, cacheName: string, rest: set<string>): set<string> {
    set j | j in db && j !in rest && db[j].cacheName == cacheName
  }

  function Capped(n: nat, maxEntries: nat): nat {
    if maxEntries != 0 && n > maxEntries then maxEntries else n
  }

  /** The cursor has passed the newest records. */
  ghost predicate PassedNewest(db: Records, rest: set<string>) {
    rest <= db.Keys && forall j, k :: j in db && j !in rest && k in rest ==> Newer(db, j, k)
  }

  /** While nothing too old was met, the counter holds the entries passed, up to
      the maximum. */
  ghost predicate CountsKept(db: Records, cacheName: string, minTimestamp: int, maxEntries: nat,
                             rest: set<string>, kept: nat)
  {
    (forall j :: j in Visited(db, cacheName, rest) ==> !TooOld(db[j], minTimestamp))
    ==> kept == Capped(|Visited(db, cacheName, rest)|, maxEntries)
  }

  /** Exactly the expired records passed so far are collected. */
  ghost predicate Collected(db: Records, cacheName: string, minTimestamp: int, maxEntries: nat,
                            rest: set<string>, expired: seq<Record>)
  {
    && (forall k :: k in db ==>
          (db[k] in expired <==> k !in rest && !Stays(db, cacheName, minTimestamp, maxEntries, k)))
    && (forall r :: r in expired ==> r.id in db && db[r.id] == r)
  }

  /** When the cursor stands on `n`, the entries it has passed are those newer. */
  lemma VisitedAreNewer(db: Records, cacheName: string, rest: set<string>, n: string)
    requires PassedNewest(db, rest) && IsNewestOf(db, rest, n)
    ensures Visited(db, cacheName, rest) == NewerThan(db, cacheName, n)
    ensures forall j :: j in Visited(db, cacheName, rest) ==> db[j].timestamp >= db[n].timestamp
    ensures PassedNewest(db, rest - {n})
  {
    forall j | j in db && Newer(db, j, n) ensures j !in rest {
      NewerTotal(db, j, n);
    }
  }

  /** The test of the scan decides by the rule, and the counter stays right. */
  lemma VisitOne(db: Records, cacheName: string, minTimestamp: int, maxEntries: nat, rest: set<string>,
                 n: string, kept: nat)
    requires PassedNewest(db, rest) && IsNewestOf(db, rest, n)
    requires CountsKept(db, cacheName, minTimestamp, maxEntries, rest, kept)
    ensures PassedNewest(db, rest - {n})
    ensures var goes := TooOld(db[n], minTimestamp) || (maxEntries != 0 && kept >= maxEntries);
            if db[n].cacheName != cacheName then
              && Stays(db, cacheName, minTimestamp, maxEntries, n)
              && CountsKept(db, cacheName, minTimestamp, maxEntries, rest - {n}, kept)
            else
              && (Stays(db, cacheName, minTimestamp, maxEntries, n) <==> !goes)
              && CountsKept(db, cacheName, minTimestamp, maxEntries, rest - {n}, if goes then kept else kept + 1)
  {
    VisitedAreNewer(db, cacheName, rest, n);
    var before, after := Visited(db, cacheName, rest), Visited(db, cacheName, rest - {n});
    if db[n].cacheName != cacheName {
      assert after == before;
    } else {
      assert after == before + {n};
    }
  }

  lemma CollectOne(db: Records, cacheName: string, minTimestamp: int, maxEntries: nat, rest: set<string>, n: string,
                   expired: seq<Record>, more: seq<Record>)
    requires WellKeyed(db) && n in rest && rest <= db.Keys
    requires Collected(db, cacheName, minTimestamp, maxEntries, rest, expired)
    requires more == if Stays(db, cacheName, minTimestamp, maxEntries, n) then expired else expired + [db[n]]
    ensures Collected(db, cacheName, minTimestamp, maxEntries, rest - {n}, more)
  {
  }

  /** The records without those listed. */
  function Dropped(db: Records, gone: seq<Record>): Records {
    map k | k in db && (forall r :: r in gone ==> r.id != k) :: db[k]
  }

  /** The URLs of the records dropped, and no others. */
  lemma UrlsOfDropped(db: Records, gone: seq<Record>, urls: seq<string>)
    requires WellKeyed(db) && (forall r :: r in gone ==> r.id in db && db[r.id] == r)
    requires |urls| == |gone| && forall j :: 0 <= j < |gone| ==> urls[j] == gone[j].url
    ensures forall k :: k in db && k !in Dropped(db, gone) ==> db[k].url in urls
    ensures forall u :: u in urls ==> exists k :: k in db && k !in Dropped(db, gone) && db[k].url == u
  {
    forall k | k in db && k !in Dropped(db, gone) ensures db[k].url in urls {
      var r :| r in gone && r.id == k;
      var j :| 0 <= j < |gone| && gone[j] == r;
      assert urls[j] == db[k].url;
    }
    forall u | u in urls ensures exists k :: k in db && k !in Dropped(db, gone) && db[k].url == u {
      var j :| 0 <= j < |urls| && urls[j] == u;
      assert gone[j] in gone && gone[j].id !in Dropped(db, gone);
    }
  }

  lemma DroppedAreSurvivors(db: Records, gone: seq<Record>, cacheName: string, minTimestamp: int, maxEntries: nat)
    requires WellKeyed(db)
    requires forall k :: k in db ==> (db[k] in gone <==> !Stays(db, cacheName, minTimestamp, maxEntries, k))
    requires forall r :: r in gone ==> r.id in db && db[r.id] == r
    ensures Dropped(db, gone) == Survivors(db, cacheName, minTimestamp, maxEntries)
  {
  }
}
