/** The guard around expiry passes.  A pass runs over several awaits; a request
    made meanwhile does not start a second pass but asks for a rerun. */
module ExpirationGuard {
  import opened TimestampStore

  // ---------- the guard ----------

  /** The two flags of a cache's expiration object. */
  datatype Flags = Flags(running: bool, rerun: bool)

  /** A call of `expireEntries`, up to its first await: the flags after it, and
      whether it starts a pass. */
  function OnRequest(f: Flags): (Flags, bool) {
    if f.running then (f.(rerun := true), false) else (f.(running := true), true)
  }

  /** The end of a pass: a pending rerun starts the next one at once. */
  function OnFinish(f: Flags): (Flags, bool) {
    var idle := f.(running := false);
    if idle.rerun then OnRequest(idle.(rerun := false)) else (idle, false)
  }

  /** `delete` drops a pending rerun. */
  function OnDelete(f: Flags): Flags {
    f.(rerun := false)
  }

  /** The oldest timestamp a pass keeps; without a maximum age there is none. */
  function MinTimestamp(now: int, maxAgeSeconds: nat): int {
    if maxAgeSeconds != 0 then now - 1000 * maxAgeSeconds else 0
  }

  /** After a cache update the URL is stamped and a pass follows.  The entry just
      written survives it unless the pass comes later than the maximum age. */
  lemma UpdatedEntrySurvives(db: Records, cacheName: string, url: string, stamp: int, now: int,
                             maxAgeSeconds: nat, maxEntries: nat)
    requires stamp <= now && (maxAgeSeconds != 0 ==> now - stamp <= 1000 * maxAgeSeconds)
    requires forall k :: k in db && db[k].cacheName == cacheName ==> db[k].timestamp < stamp
    ensures IdOf(cacheName, url) in
              Survivors(Stamped(db, cacheName, url, stamp), cacheName, MinTimestamp(now, maxAgeSeconds), maxEntries)
  {
    JustStampedSurvives(db, cacheName, url, stamp, MinTimestamp(now, maxAgeSeconds), maxEntries);
  }

  function OfOtherCaches(db: Records, cacheName: string): Records {
    map k | k in db && db[k].cacheName != cacheName :: db[k]
  }

  class CacheExpiration {
    var running: bool
    var rerun: bool
    const timestamps: CacheTimestampsModel

    constructor (timestamps: CacheTimestampsModel)
      ensures Now() == Flags(false, false) && this.timestamps == timestamps
    {
      running, rerun := false, false;
      this.timestamps := timestamps;
    }

    function Now(): Flags
      reads this
    {
      Flags(running, rerun)
    }

    /** The synchronous first segment of `expireEntries`. */
    method Request() returns (starts: bool)
      modifies this
      ensures (Now(), starts) == OnRequest(old(Now()))
    {
      if running {
        rerun := true;
        return false;
      }
      running := true;
      starts := true;
    }

    /** The synchronous last segment, after the last await. */
    method Finish() returns (starts: bool)
      modifies this
      ensures (Now(), starts) == OnFinish(old(Now()))
    {
      running := false;
      starts := false;
      if rerun {
        rerun := false;
        starts := Request();
      }
    }

    /** Drops a pending rerun, then expires every record of the cache: no timestamp
        reaches `infinity`.  Records of other caches stay. */
    method Delete(infinity: int)
      requires WellKeyed(timestamps.store.records) && infinity > 0
      requires forall k :: k in timestamps.store.records ==> timestamps.store.records[k].timestamp < infinity
      modifies this, timestamps.store
      ensures Now() == OnDelete(old(Now()))
      ensures timestamps.store.records == OfOtherCaches(old(timestamps.store.records), timestamps.cacheName)
    {
      rerun := false;
      var _ := timestamps.ExpireEntries(infinity, 0);
    }
  }

  // ---------- all interleavings ----------

  datatype Event = Requested | Started | Finished | Deleted

  /** The flags, the passes under way with the awaits they have left, the number
      of the next pass, and everything that happened so far. */
  datatype State = State(flags: Flags, passes: map<nat, nat>, nextPass: nat, log: seq<Event>)

  const START := State(Flags(false, false), map[], 0, [])

  /** A pass that starts with this step will take `awaits` awaits. */
  datatype Step =
    | Request(awaits: nat)
    | Await(pass: nat)
    | Finish(pass: nat, awaits: nat)
    | Delete

  predicate Enabled(s: State, step: Step) {
    match step
    case Request(_) => true
    case Await(p) => p in s.passes && s.passes[p] > 0
    case Finish(p, _) => p in s.passes && s.passes[p] == 0
    case Delete => true
  }

  function Begin(s: State, awaits: nat): State {
    s.(passes := s.passes[s.nextPass := awaits], nextPass := s.nextPass + 1, log := s.log + [Started])
  }

  function Take(s: State, step: Step): State
    requires Enabled(s, step)
  {
    match step
    case Request(awaits) =>
      var (flags, starts) := OnRequest(s.flags);
      var t := s.(flags := flags, log := s.log + [Requested]);
      if starts then Begin(t, awaits) else t
    case Await(p) => s.(passes := s.passes[p := s.passes[p] - 1])
    case Finish(p, awaits) =>
      var (flags, starts) := OnFinish(s.flags);
      var t := s.(flags := flags, passes := s.passes - {p}, log := s.log + [Finished]);
      if starts then Begin(t, awaits) else t
    case Delete => s.(flags := OnDelete(s.flags), log := s.log + [Deleted])
  }

  ghost predicate IsRun(s: State, steps: seq<Step>)
    decreases |steps|
  {
    steps != [] ==> Enabled(s, steps[0]) && IsRun(Take(s, steps[0]), steps[1..])
  }

  ghost function After(s: State, steps: seq<Step>): State
    requires IsRun(s, steps)
    decreases |steps|
  {
    if steps == [] then s else After(Take(s, steps[0]), steps[1..])
  }

  function Count(log: seq<Event>, e: Event): nat {
    if log == [] then 0 else Count(log[..|log| - 1], e) + (if log[|log| - 1] == e then 1 else 0)
  }

  lemma CountOneMore(log: seq<Event>, added: Event, e: Event)
    ensures Count(log + [added], e) == Count(log, e) + (if added == e then 1 else 0)
  {
    assert (log + [added])[..|log|] == log;
  }

  lemma CountTwoMore(log: seq<Event>, a: Event, b: Event, e: Event)
    ensures Count(log + [a] + [b], e) == Count(log, e) + (if a == e then 1 else 0) + (if b == e then 1 else 0)
  {
    CountOneMore(log, a, e);
    CountOneMore(log + [a], b, e);
  }

  /** At most one pass; the running flag tells whether there is one; a pending rerun
      implies one; every pass answers a request of its own. */
  ghost predicate Safe(s: State) {
    && (forall p :: p in s.passes ==> p < s.nextPass)
    && (forall p, q :: p in s.passes && q in s.passes ==> p == q)
    && (s.flags.running <==> s.passes != map[])
    && (s.flags.rerun ==> s.flags.running)
    && Count(s.log, Started) == s.nextPass
    && Count(s.log, Started) + (if s.flags.rerun then 1 else 0) <= Count(s.log, Requested)
  }

  lemma RequestSafe(s: State, awaits: nat)
    requires Safe(s)
    ensures Safe(Take(s, Request(awaits)))
  {
    if s.flags.running {
      CountOneMore(s.log, Requested, Started);
      CountOneMore(s.log, Requested, Requested);
    } else {
      assert s.nextPass in Take(s, Request(awaits)).passes;
      CountTwoMore(s.log, Requested, Started, Started);
      CountTwoMore(s.log, Requested, Started, Requested);
    }
  }

  lemma FinishSafe(s: State, p: nat, awaits: nat)
    requires Safe(s) && Enabled(s, Finish(p, awaits))
    ensures Safe(Take(s, Finish(p, awaits)))
  {
    assert s.passes - {p} == map[];
    if s.flags.rerun {
      assert s.nextPass in Take(s, Finish(p, awaits)).passes;
      CountTwoMore(s.log, Finished, Started, Started);
      CountTwoMore(s.log, Finished, Started, Requested);
    } else {
      CountOneMore(s.log, Finished, Started);
      CountOneMore(s.log, Finished, Requested);
    }
  }

  lemma StepSafe(s: State, step: Step)
    requires Safe(s) && Enabled(s, step)
    ensures Safe(Take(s, step))
  {
    match step
    case Request(awaits) => RequestSafe(s, awaits);
    case Await(p) => assert p in Take(s, step).passes;
    case Finish(p, awaits) => FinishSafe(s, p, awaits);
    case Delete =>
      CountOneMore(s.log, Deleted, Started);
      CountOneMore(s.log, Deleted, Requested);
  }

  lemma {:induction false} RunSafe(s: State, steps: seq<Step>)
    requires Safe(s) && IsRun(s, steps)
    ensures Safe(After(s, steps))
    decreases |steps|
  {
    if steps != [] {
      StepSafe(s, steps[0]);
      RunSafe(Take(s, steps[0]), steps[1..]);
    }
  }

  /** Under every interleaving of requests, awaits, ends and deletes at most one
      pass is under way, a pending rerun implies one, and passes never outnumber
      requests: finitely many requests give finitely many passes. */
  lemma AtMostOnePass(steps: seq<Step>)
    requires IsRun(START, steps)
    ensures var s := After(START, steps);
            && |s.passes| <= 1
            && (s.flags.running <==> |s.passes| == 1)
            && (s.flags.rerun ==> |s.passes| == 1)
            && Count(s.log, Started) <= Count(s.log, Requested)
  {
    RunSafe(START, steps);
    var s := After(START, steps);
    if s.passes != map[] {
      var p :| p in s.passes;
      assert s.passes.Keys == {p};
      assert |s.passes| == |s.passes.Keys|;
    }
  }

  // ---------- no request is forgotten ----------

  /** Some pass started at or after event `i`. */
  ghost predicate StartedSince(log: seq<Event>, i: nat) {
    exists j :: i <= j < |log| && log[j] == Started
  }

  ghost predicate AllAnswered(log: seq<Event>) {
    forall i :: 0 <= i < |log| && log[i] == Requested ==> StartedSince(log, i)
  }

  /** Starting a pass answers every request made so far. */
  lemma StartAnswersAll(log: seq<Event>)
    ensures AllAnswered(log + [Started])
  {
    var more := log + [Started];
    forall i | 0 <= i < |more| && more[i] == Requested ensures StartedSince(more, i) {
      assert more[|log|] == Started;
    }
  }

  lemma OtherEventKeepsAnswers(log: seq<Event>, e: Event)
    requires e != Requested && e != Started
    ensures AllAnswered(log + [e]) <==> AllAnswered(log)
  {
    var more := log + [e];
    forall i | 0 <= i < |log| && log[i] == Requested ensures StartedSince(more, i) <==> StartedSince(log, i) {
      assert more[i] == Requested;
      if StartedSince(log, i) {
        var j :| i <= j < |log| && log[j] == Started;
        assert more[j] == Started;
      }
    }
    assert forall i :: 0 <= i < |log| ==> more[i] == log[i];
  }

  lemma NewRequestIsOpen(log: seq<Event>)
    ensures !AllAnswered(log + [Requested])
  {
    var more := log + [Requested];
    assert more[|log|] == Requested && !StartedSince(more, |log|);
  }

  /** Whether a rerun dropped by `delete` is still missed: no pass has started since. */
  ghost predicate MissedAfter(s: State, step: Step, missed: bool)
    requires Enabled(s, step)
  {
    if step == Delete then missed || s.flags.rerun
    else missed && Take(s, step).nextPass == s.nextPass
  }

  ghost predicate Missed(s: State, steps: seq<Step>, missed: bool)
    requires IsRun(s, steps)
    decreases |steps|
  {
    if steps == [] then missed
    else Missed(Take(s, steps[0]), steps[1..], MissedAfter(s, steps[0], missed))
  }

  /** A request is open exactly when a rerun is pending for it or was dropped. */
  lemma StepAnswers(s: State, step: Step, missed: bool)
    requires Safe(s) && Enabled(s, step)
    requires AllAnswered(s.log) <==> !s.flags.rerun && !missed
    ensures var t := Take(s, step); AllAnswered(t.log) <==> !t.flags.rerun && !MissedAfter(s, step, missed)
  {
    match step
    case Request(awaits) =>
      if s.flags.running {
        NewRequestIsOpen(s.log);
      } else {
        StartAnswersAll(s.log + [Requested]);
      }
    case Await(p) =>
    case Finish(p, awaits) =>
      if s.flags.rerun {
        StartAnswersAll(s.log + [Finished]);
      } else {
        OtherEventKeepsAnswers(s.log, Finished);
      }
    case Delete => OtherEventKeepsAnswers(s.log, Deleted);
  }

  lemma {:induction false} RunAnswers(s: State, steps: seq<Step>, missed: bool)
    requires Safe(s) && IsRun(s, steps)
    requires AllAnswered(s.log) <==> !s.flags.rerun && !missed
    ensures var t := After(s, steps); AllAnswered(t.log) <==> !t.flags.rerun && !Missed(s, steps, missed)
    decreases |steps|
  {
    if steps != [] {
      StepSafe(s, steps[0]);
      StepAnswers(s, steps[0], missed);
      RunAnswers(Take(s, steps[0]), steps[1..], MissedAfter(s, steps[0], missed));
    }
  }

  /** Over every run, deletes included, once no pass is under way: every request was
      followed by a pass that started at or after it, exactly when each rerun that
      `delete` dropped was made up for by a later pass. */
  lemma AnsweredExactly(steps: seq<Step>)
    requires IsRun(START, steps) && After(START, steps).passes == map[]
    ensures AllAnswered(After(START, steps).log) <==> !Missed(START, steps, false)
  {
    RunSafe(START, steps);
    RunAnswers(START, steps, false);
  }

  ghost predicate NoDelete(steps: seq<Step>) {
    forall i :: 0 <= i < |steps| ==> steps[i] != Delete
  }

  lemma {:induction false} NoneMissed(s: State, steps: seq<Step>)
    requires IsRun(s, steps) && NoDelete(steps)
    ensures !Missed(s, steps, false)
    decreases |steps|
  {
    if steps != [] {
      assert steps[0] != Delete;
      NoneMissed(Take(s, steps[0]), steps[1..]);
    }
  }

  /** Without `delete`, once no pass is under way every request so far was followed
      by a pass that started at or after it. */
  lemma EveryRequestAnswered(steps: seq<Step>)
    requires IsRun(START, steps) && NoDelete(steps)
    requires After(START, steps).passes == map[]
    ensures AllAnswered(After(START, steps).log)
  {
    AnsweredExactly(steps);
    NoneMissed(START, steps);
  }

  // ---------- passes that finish leave the guard idle ----------

  ghost predicate OnlyPassSteps(steps: seq<Step>) {
    forall i :: 0 <= i < |steps| ==> steps[i].Await? || steps[i].Finish?
  }

  /** The passes still to come if no further request is made. */
  function Pending(s: State): nat {
    (if s.flags.running then 1 else 0) + (if s.flags.rerun then 1 else 0)
  }

  /** From every reachable state the passes, left to themselves, come to an end:
      at most the one under way and one rerun. */
  lemma {:induction false} Drains(s: State) returns (steps: seq<Step>)
    requires Safe(s)
    ensures OnlyPassSteps(steps) && IsRun(s, steps) && After(s, steps).passes == map[]
    ensures After(s, steps).nextPass == s.nextPass + (if s.flags.rerun then 1 else 0)
    decreases Pending(s), if s.passes != map[] then SomeAwaits(s) else 0
  {
    if s.passes == map[] {
      steps := [];
    } else {
      var p :| p in s.passes && s.passes[p] == SomeAwaits(s);
      var step := if s.passes[p] > 0 then Await(p) else Finish(p, 0);
      StepSafe(s, step);
      var t := Take(s, step);
      if s.passes[p] > 0 {
        assert t.passes == map[p := s.passes[p] - 1];
        assert SomeAwaits(t) == s.passes[p] - 1;
      }
      var rest := Drains(t);
      steps := [step] + rest;
      assert steps[1..] == rest;
    }
  }

  ghost function SomeAwaits(s: State): nat
    requires s.passes != map[]
  {
    var p :| p in s.passes;
    s.passes[p]
  }

  /** Without a pending rerun, passes left to themselves answer nothing more. */
  lemma {:induction false} DrainingAnswers(s: State, steps: seq<Step>)
    requires Safe(s) && !s.flags.rerun
    requires OnlyPassSteps(steps) && IsRun(s, steps)
    ensures AllAnswered(After(s, steps).log) <==> AllAnswered(s.log)
    decreases |steps|
  {
    if steps != [] {
      assert steps[0].Await? || steps[0].Finish?;
      StepSafe(s, steps[0]);
      if steps[0].Finish? {
        OtherEventKeepsAnswers(s.log, Finished);
      }
      DrainingAnswers(Take(s, steps[0]), steps[1..]);
    }
  }

  /** `delete` loses a request exactly when a rerun is pending: in every state reached
      without one, however the passes then come to an end. */
  lemma DeleteForgetsExactly(steps: seq<Step>, rest: seq<Step>)
    requires IsRun(START, steps) && NoDelete(steps)
    requires OnlyPassSteps(rest) && IsRun(Take(After(START, steps), Delete), rest)
    ensures AllAnswered(After(Take(After(START, steps), Delete), rest).log) <==> !After(START, steps).flags.rerun
  {
    var s := After(START, steps);
    RunSafe(START, steps);
    NoneMissed(START, steps);
    RunAnswers(START, steps, false);
    OtherEventKeepsAnswers(s.log, Deleted);
    StepSafe(s, Delete);
    DrainingAnswers(Take(s, Delete), rest);
  }

  /** And such a state is reached: a request is made while a pass runs, and is lost. */
  lemma DeleteForgetsRequest()
    ensures var steps := [Request(0), Request(0), Delete, Finish(0, 0)];
            IsRun(START, steps) && After(START, steps).passes == map[] && !AllAnswered(After(START, steps).log)
  {
    var steps := [Request(0), Request(0), Delete, Finish(0, 0)];
    var a := Take(START, Request(0));
    var b := Take(a, Request(0));
    var c := Take(b, Delete);
    var d := Take(c, Finish(0, 0));
    assert steps[1..] == [Request(0), Delete, Finish(0, 0)];
    assert steps[1..][1..] == [Delete, Finish(0, 0)];
    assert steps[1..][1..][1..] == [Finish(0, 0)];
    assert d.log == [Requested, Started, Requested, Deleted, Finished];
    assert d.log[2] == Requested && !StartedSince(d.log, 2);
  }
}
