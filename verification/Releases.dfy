/** Releases of the web client.  Each installs URL by URL into the one precache, waits,
    and is activated; a version that waits may be activated while the next installs. */
module Releases {
  import opened Wrappers
  import opened Precache

  /** An install under way: the cache list, and how many of its URLs are handled. */
  datatype Installing = Installing(lists: Lists, handled: nat)

  /** The cache, the list of the version in use, the version that waits, and the one
      that installs. */
  datatype State = State(
    cache: Cache,
    active: map<Url, Url>,
    waiting: Option<Lists>,
    installing: Option<Installing>)

  datatype Step =
    | Begin(lists: Lists)
    /** Handles the next URL; a bad response ends the install. */
    | Fetch(server: Server)
    | Finish
    /** The browser ends an install. */
    | Abandon
    | Activation

  const START := State(map[], map[], None, None)

  ghost predicate Enabled(s: State, step: Step) {
    match step
    case Begin(lists) => s.installing.None? && WellOrdered(lists)
    case Fetch(_) =>
      s.installing.Some? && var i := s.installing.value; WellOrdered(i.lists) && i.handled < |i.lists.order|
    case Finish => s.installing.Some? && s.installing.value.handled == |s.installing.value.lists.order|
    case Abandon => s.installing.Some?
    case Activation => s.waiting.Some?
  }

  function FetchNext(s: State, server: Server): State
    requires s.installing.Some? && s.installing.value.handled < |s.installing.value.lists.order|
    requires s.installing.value.lists.order[s.installing.value.handled] in s.installing.value.lists.keys
  {
    var Installing(lists, n) := s.installing.value;
    var url := lists.order[n];
    var p := InstallOne(Progress(s.cache, [], [], true), url, lists.keys[url], Reaching(lists, server));
    s.(cache := p.cache, installing := if p.ok then Some(Installing(lists, n + 1)) else None)
  }

  ghost function Take(s: State, step: Step): State
    requires Enabled(s, step)
  {
    match step
    case Begin(lists) => s.(installing := Some(Installing(lists, 0)))
    case Fetch(server) =>
      assert s.installing.value.lists.order[s.installing.value.handled] in s.installing.value.lists.order;
      FetchNext(s, server)
    case Finish => s.(waiting := Some(s.installing.value.lists), installing := None)
    case Abandon => s.(installing := None)
    case Activation =>
      var keys := s.waiting.value.keys;
      s.(cache := Activate(keys, s.cache), active := keys, waiting := None)
  }

  ghost predicate IsRun(s: State, steps: seq<Step>)
    decreases |steps|
  {
    steps != [] ==> Enabled(s, steps[0]) && IsRun(Take(s, steps[0]), steps[1..])
  }

  ghost function After(s: State, steps: seq<Step>): State
    requires IsRun(s, steps)
    decreases |steps|
  {
    if steps == [] then s else After(Take(s, steps[0]), steps[1..])
  }

  /** Every URL of the version in use is served from the cache. */
  ghost predicate ServesOffline(s: State) {
    forall u :: u in s.active ==> s.active[u] in s.cache
  }

  // ---------- activations that do no harm ----------

  function KeyAt(lists: Lists, i: nat): Url
    requires i < |lists.order| && lists.order[i] in lists.keys
  {
    lists.keys[lists.order[i]]
  }

  ghost predicate HasKeys(lists: Lists) {
    forall i :: 0 <= i < |lists.order| ==> lists.order[i] in lists.keys
  }

  /** The install will come to this key. */
  ghost predicate StillToCome(i: Installing, key: Url)
    requires HasKeys(i.lists)
  {
    exists j :: i.handled <= j < |i.lists.order| && KeyAt(i.lists, j) == key
  }

  /** Nothing that the install has handled is lost with an activation of `lists`: each
      such key is in that list too, or the install will come to it again. */
  ghost predicate Spares(lists: Lists, i: Installing) {
    HasKeys(i.lists) ==>
      forall n :: 0 <= n < i.handled && n < |i.lists.order| ==>
        KeyAt(i.lists, n) in lists.keys.Values || StillToCome(i, KeyAt(i.lists, n))
  }

  ghost predicate Clean(s: State, step: Step) {
    step == Activation && s.waiting.Some? && s.installing.Some? ==> Spares(s.waiting.value, s.installing.value)
  }

  ghost predicate AllClean(s: State, steps: seq<Step>)
    requires IsRun(s, steps)
    decreases |steps|
  {
    steps != [] ==> Clean(s, steps[0]) && AllClean(Take(s, steps[0]), steps[1..])
  }

  /** What an install has handled is cached, or still to come. */
  ghost predicate OnTrack(cache: Cache, i: Installing) {
    && WellOrdered(i.lists) && HasKeys(i.lists) && i.handled <= |i.lists.order|
    && forall n :: 0 <= n < i.handled ==> KeyAt(i.lists, n) in cache || StillToCome(i, KeyAt(i.lists, n))
  }

  /** A version that waits has all its keys cached. */
  ghost predicate Complete(cache: Cache, lists: Lists) {
    forall u :: u in lists.keys ==> lists.keys[u] in cache
  }

  ghost predicate Inv(s: State) {
    && ServesOffline(s)
    && (s.waiting.Some? ==> Complete(s.cache, s.waiting.value))
    && (s.installing.Some? ==> OnTrack(s.cache, s.installing.value))
  }

  lemma OrderHasKeys(lists: Lists)
    requires WellOrdered(lists)
    ensures HasKeys(lists)
  {
    assert forall i :: 0 <= i < |lists.order| ==> lists.order[i] in lists.order;
  }

  lemma FetchInv(s: State, server: Server)
    requires Inv(s) && Enabled(s, Fetch(server))
    ensures Inv(Take(s, Fetch(server)))
  {
    var t := Take(s, Fetch(server));
    var i := s.installing.value;
    var key := KeyAt(i.lists, i.handled);
    assert s.cache.Keys <= t.cache.Keys;
    if t.installing.Some? {
      var next := t.installing.value;
      assert key in t.cache;
      forall n | 0 <= n < next.handled
        ensures KeyAt(next.lists, n) in t.cache || StillToCome(next, KeyAt(next.lists, n))
      {
        if KeyAt(i.lists, n) !in t.cache {
          var j :| i.handled <= j < |i.lists.order| && KeyAt(i.lists, j) == KeyAt(i.lists, n);
          assert j != i.handled;
        }
      }
    }
  }

  lemma FinishInv(s: State)
    requires Inv(s) && Enabled(s, Finish)
    ensures Inv(Take(s, Finish))
  {
    var Installing(lists, n) := s.installing.value;
    forall u | u in lists.keys ensures lists.keys[u] in s.cache {
      var j :| 0 <= j < |lists.order| && lists.order[j] == u;
      assert KeyAt(lists, j) in s.cache || StillToCome(s.installing.value, KeyAt(lists, j));
    }
  }

  lemma ActivationInv(s: State)
    requires Inv(s) && Enabled(s, Activation) && Clean(s, Activation)
    ensures Inv(Take(s, Activation))
  {
    var t, lists := Take(s, Activation), s.waiting.value;
    assert forall u :: u in lists.keys ==> lists.keys[u] in lists.keys.Values;
    assert forall k :: k in lists.keys.Values ==> k in s.cache;
    if s.installing.Some? {
      var i := s.installing.value;
      forall n | 0 <= n < i.handled ensures KeyAt(i.lists, n) in t.cache || StillToCome(i, KeyAt(i.lists, n)) {
        assert KeyAt(i.lists, n) in lists.keys.Values || StillToCome(i, KeyAt(i.lists, n));
      }
    }
  }

  lemma StepInv(s: State, step: Step)
    requires Inv(s) && Enabled(s, step) && Clean(s, step)
    ensures Inv(Take(s, step))
  {
    match step
    case Begin(lists) => OrderHasKeys(lists);
    case Fetch(server) => FetchInv(s, server);
    case Finish => FinishInv(s);
    case Abandon =>
    case Activation => ActivationInv(s);
  }

  lemma {:induction false} RunInv(s: State, steps: seq<Step>)
    requires Inv(s) && IsRun(s, steps) && AllClean(s, steps)
    ensures Inv(After(s, steps))
    decreases |steps|
  {
    hide Inv;
    if steps != [] {
      StepInv(s, steps[0]);
      RunInv(Take(s, steps[0]), steps[1..]);
    }
  }

  /** Through any sequence of releases, failed and abandoned ones included, the version
      in use always has every one of its URLs in the cache, as long as no activation
      takes from an install under way what it has handled.  An activation while nothing
      installs takes nothing. */
  lemma AlwaysServesOffline(steps: seq<Step>)
    requires IsRun(START, steps) && AllClean(START, steps)
    ensures ServesOffline(After(START, steps))
  {
    RunInv(START, steps);
  }

  // ---------- an install without interruption ----------

  ghost predicate Reaches(s: State, t: State) {
    exists steps :: IsRun(s, steps) && AllClean(s, steps) && After(s, steps) == t
  }

  lemma ReachesSelf(s: State)
    ensures Reaches(s, s)
  {
    assert IsRun(s, []) && AllClean(s, []) && After(s, []) == s;
  }

  lemma ReachesFirst(s: State, step: Step, t: State)
    requires Enabled(s, step) && Clean(s, step) && Reaches(Take(s, step), t)
    ensures Reaches(s, t)
  {
    var steps :| IsRun(Take(s, step), steps) && AllClean(Take(s, step), steps) && After(Take(s, step), steps) == t;
    assert ([step] + steps)[1..] == steps;
    assert IsRun(s, [step] + steps) && AllClean(s, [step] + steps) && After(s, [step] + steps) == t;
  }

  lemma {:induction false} ReachesThen(s: State, steps: seq<Step>, t: State, u: State)
    requires IsRun(s, steps) && AllClean(s, steps) && After(s, steps) == t && Reaches(t, u)
    ensures Reaches(s, u)
    decreases |steps|
  {
    if steps != [] {
      ReachesThen(Take(s, steps[0]), steps[1..], t, u);
      ReachesFirst(s, steps[0], u);
    }
  }

  /** The fetches of an install that nothing interrupts do what `Install` does. */
  lemma {:induction false} InstallAlone(s: State, lists: Lists, n: nat, server: Server)
    requires WellOrdered(lists) && HasKeys(lists) && n <= |lists.order|
    requires s.installing == Some(Installing(lists, 0))
    requires Install(lists.keys, lists.order[..n], s.cache, Reaching(lists, server)).ok
    ensures var p := Install(lists.keys, lists.order[..n], s.cache, Reaching(lists, server));
            Reaches(s, s.(cache := p.cache, installing := Some(Installing(lists, n))))
    decreases n
  {
    if n == 0 {
      ReachesSelf(s);
    } else {
      var net := Reaching(lists, server);
      assert lists.order[..n][..n - 1] == lists.order[..n - 1];
      var p := Install(lists.keys, lists.order[..n - 1], s.cache, net);
      InstallAlone(s, lists, n - 1, server);
      var t := s.(cache := p.cache, installing := Some(Installing(lists, n - 1)));
      var u := Take(t, Fetch(server));
      SameProgress(p, lists.order[n - 1], KeyAt(lists, n - 1), net);
      var steps :| IsRun(s, steps) && AllClean(s, steps) && After(s, steps) == t;
      ReachesSelf(u);
      ReachesFirst(t, Fetch(server), u);
      ReachesThen(s, steps, t, u);
    }
  }

  lemma SameProgress(p: Progress, url: Url, key: Url, net: Network)
    requires p.ok
    ensures InstallOne(p, url, key, net).cache == InstallOne(Progress(p.cache, [], [], true), url, key, net).cache
    ensures InstallOne(p, url, key, net).ok == InstallOne(Progress(p.cache, [], [], true), url, key, net).ok
  {
  }

  // ---------- activations that do harm ----------

  /** A key that was taken and will not be fetched again is missing for good: the
      install ends well, and its version is activated without it. */
  lemma {:induction false} EndsWithout(s: State, u: Url) returns (t: State)
    requires s.waiting.None? && s.installing.Some?
    requires var i := s.installing.value;
             && WellOrdered(i.lists) && HasKeys(i.lists) && i.handled <= |i.lists.order|
             && u in i.lists.keys && i.lists.keys[u] !in s.cache && !StillToCome(i, i.lists.keys[u])
    ensures Reaches(s, t) && !ServesOffline(t)
    decreases |s.installing.value.lists.order| - s.installing.value.handled
  {
    var Installing(lists, n) := s.installing.value;
    var key := lists.keys[u];
    if n == |lists.order| {
      var waits := Take(s, Finish);
      t := Take(waits, Activation);
      assert u in t.active && t.active[u] == key && key !in t.cache;
      ReachesSelf(t);
      ReachesFirst(waits, Activation, t);
      ReachesFirst(s, Finish, t);
    } else {
      var server: Server := (_: Request) => Response(200, "");
      var next := Take(s, Fetch(server));
      assert KeyAt(lists, n) != key;
      assert next.installing == Some(Installing(lists, n + 1));
      t := EndsWithout(next, u);
      ReachesFirst(s, Fetch(server), t);
    }
  }

  /** An activation leaves every later version in use complete, as long as all later
      activations are clean, exactly when it is clean itself. */
  lemma ActivationHarmsExactly(s: State)
    requires Inv(s) && s.waiting.Some?
    ensures (forall t | Reaches(Take(s, Activation), t) :: ServesOffline(t)) <==> Clean(s, Activation)
  {
    var after := Take(s, Activation);
    if Clean(s, Activation) {
      StepInv(s, Activation);
      forall t | Reaches(after, t) ensures ServesOffline(t) {
        var steps :| IsRun(after, steps) && AllClean(after, steps) && After(after, steps) == t;
        RunInv(after, steps);
      }
    } else {
      var i := s.installing.value;
      var n :| 0 <= n < i.handled && n < |i.lists.order|
               && KeyAt(i.lists, n) !in s.waiting.value.keys.Values && !StillToCome(i, KeyAt(i.lists, n));
      var t := EndsWithout(after, i.lists.order[n]);
    }
  }

  // ---------- and one that is reached ----------

  function OneUrl(url: Url): Lists {
    Lists(map[url := url], [url], map[url := false], map[])
  }

  /** One release waits while the next has stored its only URL. */
  function Overlapping(a: Url, b: Url): State {
    State(map[a := "", b := ""], map[], Some(OneUrl(a)), Some(Installing(OneUrl(b), 1)))
  }

  lemma OverlapIsReached(a: Url, b: Url)
    requires a != b
    ensures Reaches(START, Overlapping(a, b)) && Inv(Overlapping(a, b)) && !Clean(Overlapping(a, b), Activation)
  {
    var server: Server := (_: Request) => Response(200, "");
    var s1 := Take(START, Begin(OneUrl(a)));
    var s2 := Take(s1, Fetch(server));
    var s3 := Take(s2, Finish);
    var s4 := Take(s3, Begin(OneUrl(b)));
    var s5 := Take(s4, Fetch(server));
    assert s5 == Overlapping(a, b);
    ReachesSelf(s5);
    ReachesFirst(s4, Fetch(server), s5);
    ReachesFirst(s3, Begin(OneUrl(b)), s5);
    ReachesFirst(s2, Finish, s5);
    ReachesFirst(s1, Fetch(server), s5);
    ReachesFirst(START, Begin(OneUrl(a)), s5);
    assert KeyAt(OneUrl(b), 0) == b && b !in OneUrl(a).keys.Values;
    assert !Spares(OneUrl(a), Installing(OneUrl(b), 1));
  }

  /** So a version can be in use with a URL that is not cached. */
  lemma OverlapLosesUrl(a: Url, b: Url)
    requires a != b
    ensures exists steps :: IsRun(START, steps) && !ServesOffline(After(START, steps))
  {
    var s := Overlapping(a, b);
    OverlapIsReached(a, b);
    ActivationHarmsExactly(s);
    var t :| Reaches(Take(s, Activation), t) && !ServesOffline(t);
    var first :| IsRun(START, first) && AllClean(START, first) && After(START, first) == s;
    var rest :| IsRun(Take(s, Activation), rest) && After(Take(s, Activation), rest) == t;
    assert ([Activation] + rest)[1..] == rest;
    RunsJoined(START, first, [Activation] + rest);
  }

  lemma {:induction false} RunsJoined(s: State, first: seq<Step>, rest: seq<Step>)
    requires IsRun(s, first) && IsRun(After(s, first), rest)
    ensures IsRun(s, first + rest) && After(s, first + rest) == After(After(s, first), rest)
    decreases |first|
  {
    if first == [] {
      assert first + rest == rest;
    } else {
      assert (first + rest)[1..] == first[1..] + rest;
      RunsJoined(Take(s, first[0]), first[1..], rest);
    }
  }
}
