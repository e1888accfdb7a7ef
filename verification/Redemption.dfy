/** Clients redeeming one discount concurrently.  Checking the limit and counting
    the use are two calls, and the check works on a row read before it decides,
    so each client goes through separate steps that interleave freely. */
module Redemption {
  import opened Wrappers
  import opened Discounts

  type Client = nat

  /** Where a client is: it has read the row, or its check passed. */
  datatype Phase = Read(row: Discount, subtotal: real, now: int) | Granted

  /** The stored row, if it still exists, and the clients between check and
      increment. */
  datatype State = State(row: Option<Discount>, clients: map<Client, Phase>)

  datatype Step =
    /** `calculateDiscount` reads the row. */
    | ReadRow(c: Client, subtotal: real, now: int)
    /** It decides on the row it read; a refused client is out. */
    | Decide(c: Client)
    /** A client whose check passed counts its use. */
    | Increment(c: Client)
    /** An update, activation or deactivation that leaves both counters alone. */
    | Patch(dto: UpdateDiscountDto)
    /** The row is deleted. */
    | Delete

  predicate Enabled(s: State, step: Step) {
    match step
    case ReadRow(c, _, _) => c !in s.clients && s.row.Some?
    case Decide(c) => c in s.clients && s.clients[c].Read?
    case Increment(c) => c in s.clients && s.clients[c].Granted?
    case Patch(dto) => s.row.Some? && dto.usageLimit.Keep? && dto.usageCount.Keep?
    case Delete => true
  }

  function Take(s: State, step: Step): State
    requires Enabled(s, step)
  {
    match step
    case ReadRow(c, subtotal, now) => s.(clients := s.clients[c := Read(s.row.value, subtotal, now)])
    case Decide(c) =>
      var Read(row, subtotal, now) := s.clients[c];
      if Accepts(row, subtotal, now) then s.(clients := s.clients[c := Granted]) else s.(clients := s.clients - {c})
    case Increment(c) =>
      var counted := if s.row.Some? then Some(CountUse(s.row.value)) else None;
      State(counted, s.clients - {c})
    case Patch(dto) => s.(row := Some(PatchDiscount(s.row.value, dto)))
    case Delete => s.(row := None)
  }

  /** A run whose every state has at most `k` clients between check and increment. */
  ghost predicate IsRun(s: State, steps: seq<Step>, k: nat)
    decreases |steps|
  {
    && |s.clients| <= k
    && (steps != [] ==> Enabled(s, steps[0]) && IsRun(Take(s, steps[0]), steps[1..], k))
  }

  ghost function After(s: State, steps: seq<Step>, k: nat): State
    requires IsRun(s, steps, k)
    decreases |steps|
  {
    if steps == [] then s else After(Take(s, steps[0]), steps[1..], k)
  }

  ghost predicate Limited(d: Discount, limit: int) {
    d.usageLimit == Some(limit) && limit != 0
  }

  /** The clients that will count a use: granted, or about to be. */
  ghost function Redeemers(s: State): set<Client> {
    set c | c in s.clients && (s.clients[c].Granted? || UnderLimit(s.clients[c].row))
  }

  /** Uses counted and uses promised stay within `bound`. */
  ghost predicate Inv(s: State, limit: int, bound: int) {
    && (s.row.Some? ==> Limited(s.row.value, limit) && s.row.value.usageCount + |Redeemers(s)| <= bound)
    && (forall c :: c in s.clients && s.clients[c].Read? ==> Limited(s.clients[c].row, limit))
  }

  lemma RedeemersAtMost(s: State)
    ensures |Redeemers(s)| <= |s.clients|
  {
    assert Redeemers(s) <= s.clients.Keys;
    assert s.clients.Keys == Redeemers(s) + (s.clients.Keys - Redeemers(s));
    assert |s.clients.Keys| == |s.clients|;
  }

  lemma StepInv(s: State, step: Step, limit: int, bound: int, k: nat)
    requires Inv(s, limit, bound) && Enabled(s, step) && limit + k - 1 <= bound
    requires |Take(s, step).clients| <= k
    ensures Inv(Take(s, step), limit, bound)
  {
    var t := Take(s, step);
    match step
    case ReadRow(c, subtotal, now) =>
      if UnderLimit(s.row.value) {
        RedeemersAtMost(t);
      } else {
        assert Redeemers(t) == Redeemers(s);
      }
    case Decide(c) =>
      if Accepts(s.clients[c].row, s.clients[c].subtotal, s.clients[c].now) {
        assert Redeemers(t) == Redeemers(s);
      } else {
        assert Redeemers(t) == Redeemers(s) - {c};
      }
    case Increment(c) =>
      assert Redeemers(t) == Redeemers(s) - {c};
    case Patch(dto) =>
      assert Redeemers(t) == Redeemers(s);
    case Delete =>
  }

  lemma {:induction false} RunInv(s: State, steps: seq<Step>, limit: int, bound: int, k: nat)
    requires Inv(s, limit, bound) && IsRun(s, steps, k) && limit + k - 1 <= bound
    ensures Inv(After(s, steps, k), limit, bound)
    decreases |steps|
  {
    if steps != [] {
      StepInv(s, steps[0], limit, bound, k);
      RunInv(Take(s, steps[0]), steps[1..], limit, bound, k);
    }
  }

  /** With at most `k` clients between check and increment the limit is overrun
      by at most `k - 1` uses, whatever the interleaving; a row created with a
      count beyond that never gains a use. */
  lemma OverrunAtMost(d: Discount, steps: seq<Step>, limit: int, k: nat)
    requires Limited(d, limit) && k >= 1
    requires IsRun(State(Some(d), map[]), steps, k)
    ensures var final := After(State(Some(d), map[]), steps, k);
            var most := if d.usageCount > limit + k - 1 then d.usageCount else limit + k - 1;
            final.row.Some? ==> final.row.value.usageCount <= most
  {
    var s := State(Some(d), map[]);
    assert Redeemers(s) == {};
    RunInv(s, steps, limit, if d.usageCount > limit + k - 1 then d.usageCount else limit + k - 1, k);
  }

  // ---------- the bound is reached ----------

  /** The clients numbered from `j` up to `n`. */
  function Clients(j: nat, n: nat): (cs: set<Client>)
    requires j <= n
    ensures forall c: Client :: c in cs <==> j <= c < n
    ensures |cs| == n - j
  {
    if j == n then {} else Clients(j, n - 1) + {n - 1}
  }

  /** Clients `0..n` have read the row `d`. */
  function AllRead(d: Discount, n: nat, subtotal: real, now: int): State {
    State(Some(d), map c | c in Clients(0, n) :: Read(d, subtotal, now))
  }

  /** `j` of `n` clients have decided and counted. */
  function SomeCounted(d: Discount, j: nat, n: nat, subtotal: real, now: int): State
    requires j <= n
  {
    State(Some(d.(usageCount := d.usageCount + j)), map c | c in Clients(j, n) :: Read(d, subtotal, now))
  }

  ghost predicate Reaches(s: State, t: State, k: nat) {
    exists steps :: IsRun(s, steps, k) && After(s, steps, k) == t
  }

  lemma ReachesSelf(s: State, k: nat)
    requires |s.clients| <= k
    ensures Reaches(s, s, k)
  {
    assert IsRun(s, [], k) && After(s, [], k) == s;
  }

  lemma ReachesFirst(s: State, step: Step, t: State, k: nat)
    requires |s.clients| <= k && Enabled(s, step) && Reaches(Take(s, step), t, k)
    ensures Reaches(s, t, k)
  {
    var steps :| IsRun(Take(s, step), steps, k) && After(Take(s, step), steps, k) == t;
    assert ([step] + steps)[1..] == steps;
    assert IsRun(s, [step] + steps, k) && After(s, [step] + steps, k) == t;
  }

  lemma ReadSize(d: Discount, j: nat, n: nat, subtotal: real, now: int)
    requires j <= n
    ensures |SomeCounted(d, j, n, subtotal, now).clients| == n - j
  {
    var m := SomeCounted(d, j, n, subtotal, now).clients;
    assert m.Keys == Clients(j, n);
    assert |m| == |m.Keys|;
  }

  /** A waiting client decides on its old row, and counts. */
  lemma CountOne(d: Discount, j: nat, n: nat, subtotal: real, now: int)
    requires j < n && Accepts(d, subtotal, now)
    ensures var s := SomeCounted(d, j, n, subtotal, now);
            && Enabled(s, Decide(j))
            && |Take(s, Decide(j)).clients| == n - j
            && Enabled(Take(s, Decide(j)), Increment(j))
            && Take(Take(s, Decide(j)), Increment(j)) == SomeCounted(d, j + 1, n, subtotal, now)
  {
    var s := SomeCounted(d, j, n, subtotal, now);
    ReadSize(d, j, n, subtotal, now);
    var granted := Take(s, Decide(j));
    assert granted.clients.Keys == s.clients.Keys;
    assert |granted.clients| == |granted.clients.Keys| == |s.clients.Keys| == |s.clients|;
    assert Take(granted, Increment(j)).clients == SomeCounted(d, j + 1, n, subtotal, now).clients;
  }

  /** All waiting clients do. */
  lemma {:induction false} CountAll(d: Discount, j: nat, n: nat, k: nat, subtotal: real, now: int)
    requires j <= n <= k && Accepts(d, subtotal, now)
    ensures Reaches(SomeCounted(d, j, n, subtotal, now), SomeCounted(d, n, n, subtotal, now), k)
    decreases n - j
  {
    hide Accepts, Take, Enabled, SomeCounted;
    var s := SomeCounted(d, j, n, subtotal, now);
    ReadSize(d, j, n, subtotal, now);
    if j == n {
      ReachesSelf(s, k);
    } else {
      CountAll(d, j + 1, n, k, subtotal, now);
      CountOne(d, j, n, subtotal, now);
      ReachesFirst(Take(s, Decide(j)), Increment(j), SomeCounted(d, n, n, subtotal, now), k);
      ReachesFirst(s, Decide(j), SomeCounted(d, n, n, subtotal, now), k);
    }
  }

  lemma NobodyCounted(d: Discount, n: nat, subtotal: real, now: int)
    ensures AllRead(d, n, subtotal, now) == SomeCounted(d, 0, n, subtotal, now)
    ensures |AllRead(d, n, subtotal, now).clients| == n
  {
    assert d.(usageCount := d.usageCount + 0) == d;
    ReadSize(d, 0, n, subtotal, now);
  }

  lemma ReadOne(d: Discount, j: nat, subtotal: real, now: int)
    ensures var s := AllRead(d, j, subtotal, now);
            && Enabled(s, ReadRow(j, subtotal, now))
            && Take(s, ReadRow(j, subtotal, now)) == AllRead(d, j + 1, subtotal, now)
  {
  }

  lemma {:induction false} ReadAll(d: Discount, j: nat, n: nat, subtotal: real, now: int)
    requires j <= n && Accepts(d, subtotal, now)
    ensures Reaches(AllRead(d, j, subtotal, now), SomeCounted(d, n, n, subtotal, now), n)
    decreases n - j
  {
    NobodyCounted(d, j, subtotal, now);
    if j == n {
      CountAll(d, 0, n, n, subtotal, now);
    } else {
      ReadOne(d, j, subtotal, now);
      ReadAll(d, j + 1, n, subtotal, now);
      ReachesFirst(AllRead(d, j, subtotal, now), ReadRow(j, subtotal, now), SomeCounted(d, n, n, subtotal, now), n);
    }
  }

  lemma {:induction false} ReachesThen(s: State, steps: seq<Step>, t: State, u: State, k: nat)
    requires IsRun(s, steps, k) && After(s, steps, k) == t && Reaches(t, u, k)
    ensures Reaches(s, u, k)
    decreases |steps|
  {
    if steps != [] {
      ReachesThen(Take(s, steps[0]), steps[1..], t, u, k);
      ReachesFirst(s, steps[0], u, k);
    }
  }

  function WithCount(d: Discount, count: int): State {
    State(Some(d.(usageCount := count)), map[])
  }

  /** One client alone redeems the discount once. */
  lemma RedeemOnce(d: Discount, count: int, k: nat, subtotal: real, now: int)
    requires k >= 1 && Accepts(d.(usageCount := count), subtotal, now)
    ensures Reaches(WithCount(d, count), WithCount(d, count + 1), k)
  {
    var row := d.(usageCount := count);
    var t := WithCount(d, count + 1);
    NobodyCounted(row, 0, subtotal, now);
    NobodyCounted(row, 1, subtotal, now);
    ReadOne(row, 0, subtotal, now);
    CountAll(row, 0, 1, k, subtotal, now);
    assert AllRead(row, 0, subtotal, now) == WithCount(d, count);
    assert SomeCounted(row, 1, 1, subtotal, now) == t;
    ReachesFirst(WithCount(d, count), ReadRow(0, subtotal, now), t, k);
  }

  /** Clients one after the other use the discount up to its last use. */
  lemma {:induction false} RedeemUpTo(d: Discount, count: int, last: int, k: nat, subtotal: real, now: int)
    requires k >= 1 && count <= last && Accepts(d.(usageCount := last), subtotal, now)
    ensures Reaches(WithCount(d, count), WithCount(d, last), k)
    decreases last - count
  {
    if count == last {
      ReachesSelf(WithCount(d, count), k);
    } else {
      RedeemOnce(d, count, k, subtotal, now);
      RedeemUpTo(d, count + 1, last, k, subtotal, now);
      var steps :| IsRun(WithCount(d, count), steps, k)
                   && After(WithCount(d, count), steps, k) == WithCount(d, count + 1);
      ReachesThen(WithCount(d, count), steps, WithCount(d, count + 1), WithCount(d, last), k);
    }
  }

  /** And the bound is tight for every `k`, limit and count below it: clients one
      at a time leave one use, then `k` clients that all read the row count it. */
  lemma OverrunReached(d: Discount, limit: int, k: nat, subtotal: real, now: int)
    requires Limited(d, limit) && Accepts(d, subtotal, now) && k >= 1
    ensures exists steps ::
              && IsRun(State(Some(d), map[]), steps, k)
              && After(State(Some(d), map[]), steps, k) == State(Some(d.(usageCount := limit + k - 1)), map[])
  {
    var one := d.(usageCount := limit - 1);
    var s, t := WithCount(d, limit - 1), SomeCounted(one, k, k, subtotal, now);
    assert WithCount(d, d.usageCount) == State(Some(d), map[]);
    RedeemUpTo(d, d.usageCount, limit - 1, k, subtotal, now);
    assert AllRead(one, 0, subtotal, now) == s;
    assert t == WithCount(d, limit + k - 1);
    ReadAll(one, 0, k, subtotal, now);
    var steps :| IsRun(State(Some(d), map[]), steps, k) && After(State(Some(d), map[]), steps, k) == s;
    ReachesThen(State(Some(d), map[]), steps, s, t, k);
  }

  /** So the limit itself is kept by every run exactly when at most one client
      at a time is between check and increment. */
  lemma LimitKeptExactly(d: Discount, limit: int, k: nat, subtotal: real, now: int)
    requires Limited(d, limit) && Accepts(d, subtotal, now) && k >= 1
    ensures (forall steps | IsRun(State(Some(d), map[]), steps, k) ::
               var final := After(State(Some(d), map[]), steps, k);
               final.row.Some? ==> final.row.value.usageCount <= limit)
            <==> k == 1
  {
    if k == 1 {
      forall steps | IsRun(State(Some(d), map[]), steps, k)
        ensures var final := After(State(Some(d), map[]), steps, k);
                final.row.Some? ==> final.row.value.usageCount <= limit
      {
        OverrunAtMost(d, steps, limit, k);
      }
    } else {
      OverrunReached(d, limit, k, subtotal, now);
    }
  }
}
