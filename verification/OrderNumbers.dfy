/** Which runs give every order a number of its own. */
module OrderNumbers {
  import opened Wrappers
  import opened Existence
  import opened Decimals
  import opened Calendar
  import opened Orders

  /** Two numbers agree only on the same day with the same count. */
  lemma NumbersDiffer(day: nat, n: nat, day': nat, n': nat)
    requires DateOf(day).year <= 9999 && DateOf(day').year <= 9999
    requires OrderNumber(day, n) == OrderNumber(day', n')
    ensures day == day' && n == n'
  {
    NumberReadsBack(day, n);
    NumberReadsBack(day', n');
    DaysToDateOf(day);
    DaysToDateOf(day');
  }

  /** The orders created on the same day before order `k`. */
  ghost function EarlierThatDay(orders: map<Id, Order>, k: Id): set<Id>
    requires k in orders
  {
    set j | j in orders && j < k && DayOf(orders[j].createdAt) == DayOf(orders[k].createdAt)
  }

  /** Ids were given out earlier, and creation times lie in the past. */
  ghost predicate Dated(s: Store) {
    forall k :: k in s.orders ==> k < s.next && s.orders[k].createdAt <= s.clock
  }

  /** The order carries its place among the orders of its day. */
  ghost predicate HasPlace(orders: map<Id, Order>, k: Id)
    requires k in orders
  {
    orders[k].orderNumber == OrderNumber(DayOf(orders[k].createdAt), |EarlierThatDay(orders, k)| + 1)
  }

  ghost predicate NumberedByDay(s: Store) {
    Dated(s) && forall k :: k in s.orders ==> HasPlace(s.orders, k)
  }

  lemma DayBounds(time: nat)
    ensures DayOf(time) * MS_PER_DAY <= time < (DayOf(time) + 1) * MS_PER_DAY
  {
  }

  lemma DayMonotone(a: nat, b: nat)
    requires a <= b
    ensures DayOf(a) <= DayOf(b)
  {
  }

  /** On a server in UTC the orders counted are those of the day. */
  lemma CountedAreToday(s: Store, k: Id)
    requires Dated(s) && k in s.orders
    ensures s.orders[k].createdAt >= LocalMidnight(s.clock, 0) <==> DayOf(s.orders[k].createdAt) == DayOf(s.clock)
  {
    DayBounds(s.orders[k].createdAt);
    DayBounds(s.clock);
    DayMonotone(s.orders[k].createdAt, s.clock);
  }

  /** The orders created on the day it is now. */
  ghost function Today(s: Store): set<Id> {
    set j | j in s.orders && DayOf(s.orders[j].createdAt) == DayOf(s.clock)
  }

  /** A new order is numbered after the orders of today, and moves no other's place. */
  lemma CreateCounts(s: Store, t: Option<Id>, ts: set<Id>, details: string)
    requires Dated(s) && Create(s, 0, t, ts, details).Ok?
    ensures var u := Create(s, 0, t, ts, details).value;
            && Dated(u) && u.clock == s.clock
            && s.next in u.orders && u.orders == s.orders[s.next := u.orders[s.next]]
            && u.orders[s.next].createdAt == s.clock
            && u.orders[s.next].orderNumber == OrderNumber(DayOf(s.clock), |Today(s)| + 1)
            && EarlierThatDay(u.orders, s.next) == Today(s)
            && forall k :: k in s.orders ==> EarlierThatDay(u.orders, k) == EarlierThatDay(s.orders, k)
  {
    hide OrderNumber;
    forall k | k in s.orders
      ensures s.orders[k].createdAt >= LocalMidnight(s.clock, 0) <==> DayOf(s.orders[k].createdAt) == DayOf(s.clock)
    {
      CountedAreToday(s, k);
    }
    assert CreatedSince(s.orders, LocalMidnight(s.clock, 0)) == Today(s);
  }

  lemma CreateNumbers(s: Store, t: Option<Id>, ts: set<Id>, details: string)
    requires NumberedByDay(s)
    ensures NumberedByDay(After(s, Create(s, 0, t, ts, details)))
  {
    hide OrderNumber, DayOf;
    if Create(s, 0, t, ts, details).Ok? {
      CreateCounts(s, t, ts, details);
      hide Create, EarlierThatDay, Today;
      var u := Create(s, 0, t, ts, details).value;
      forall k | k in u.orders ensures HasPlace(u.orders, k) {
        assert k != s.next ==> HasPlace(s.orders, k);
      }
    }
  }

  /** A call that changes neither the set of orders nor when they were created
      or numbered. */
  lemma RestKeepsNumbers(s: Store, u: Store)
    requires NumberedByDay(s)
    requires u.orders.Keys == s.orders.Keys && u.next == s.next && u.clock >= s.clock
    requires forall k :: k in s.orders ==>
               u.orders[k].createdAt == s.orders[k].createdAt && u.orders[k].orderNumber == s.orders[k].orderNumber
    ensures NumberedByDay(u)
  {
    hide OrderNumber;
    forall k | k in u.orders
      ensures EarlierThatDay(u.orders, k) == EarlierThatDay(s.orders, k) && HasPlace(u.orders, k)
    {
      assert HasPlace(s.orders, k);
    }
  }

  lemma StepNumbers(s: Store, op: Op)
    requires NumberedByDay(s) && !op.OpRemove?
    ensures NumberedByDay(Next(s, 0, op))
  {
    hide OrderNumber;
    match op
    case OpCreate(t, ts, details) => CreateNumbers(s, t, ts, details);
    case _ => RestKeepsNumbers(s, Next(s, 0, op));
  }

  lemma {:induction false} RunNumbers(s: Store, ops: seq<Op>)
    requires NumberedByDay(s)
    requires forall i :: 0 <= i < |ops| ==> !ops[i].OpRemove?
    ensures NumberedByDay(Run(s, 0, ops))
    decreases |ops|
  {
    if ops != [] {
      assert !ops[0].OpRemove?;
      StepNumbers(s, ops[0]);
      RunNumbers(Next(s, 0, ops[0]), ops[1..]);
    }
  }

  /** No two orders share a number. */
  ghost predicate AllDistinct(s: Store) {
    forall j, k :: j in s.orders && k in s.orders && j != k ==> s.orders[j].orderNumber != s.orders[k].orderNumber
  }

  function YearOf(time: nat): nat {
    DateOf(DayOf(time)).year
  }

  lemma YearsUpTo(day: nat, last: nat)
    ensures day <= last && DateOf(last).year <= 9999 ==> DateOf(day).year <= 9999
  {
    LastDay(day);
    LastDay(last);
  }

  // ---------- deletions ----------

  /** The number holds a count under the date of the order's day. */
  ghost predicate NumberedOnItsDay(o: Order) {
    exists n: nat :: o.orderNumber == OrderNumber(DayOf(o.createdAt), n)
  }

  /** What deletions may leave: distinct numbers, each of its own day, and today's
      orders in their places. */
  ghost predicate WellNumbered(s: Store) {
    && Dated(s) && AllDistinct(s)
    && (forall k :: k in s.orders ==> NumberedOnItsDay(s.orders[k]))
    && (forall k :: k in Today(s) ==> HasPlace(s.orders, k))
  }

  /** Deleting `k` leaves a gap among today's numbers unless it is the last of them;
      a served order is not deleted at all. */
  ghost predicate LeavesNoGap(s: Store, k: Id) {
    k in Today(s) && !s.orders[k].status.SERVED? ==> forall j :: j in Today(s) ==> j <= k
  }

  lemma PlaceAmongToday(s: Store, k: Id)
    requires k in Today(s)
    ensures |EarlierThatDay(s.orders, k)| < |Today(s)|
  {
    SubsetSize(EarlierThatDay(s.orders, k) + {k}, Today(s));
  }

  /** The number of a new order is none of those in use. */
  lemma NewNumberDiffers(s: Store, k: Id)
    requires WellNumbered(s) && k in s.orders && YearOf(s.clock) <= 9999
    ensures s.orders[k].orderNumber != OrderNumber(DayOf(s.clock), |Today(s)| + 1)
  {
    hide OrderNumber;
    var o := s.orders[k];
    DayMonotone(o.createdAt, s.clock);
    YearsUpTo(DayOf(o.createdAt), DayOf(s.clock));
    if o.orderNumber == OrderNumber(DayOf(s.clock), |Today(s)| + 1) {
      if k in Today(s) {
        PlaceAmongToday(s, k);
        NumbersDiffer(DayOf(s.clock), |EarlierThatDay(s.orders, k)| + 1, DayOf(s.clock), |Today(s)| + 1);
      } else {
        var n: nat :| o.orderNumber == OrderNumber(DayOf(o.createdAt), n);
        NumbersDiffer(DayOf(o.createdAt), n, DayOf(s.clock), |Today(s)| + 1);
      }
      assert false;
    }
  }

  /** One more order of today, with the next number. */
  lemma OneMoreWellNumbered(s: Store, u: Store, k: Id)
    requires WellNumbered(s) && YearOf(s.clock) <= 9999
    requires k !in s.orders && k in u.orders && u.orders == s.orders[k := u.orders[k]]
    requires Dated(u) && u.clock == s.clock && u.orders[k].createdAt == s.clock
    requires u.orders[k].orderNumber == OrderNumber(DayOf(s.clock), |Today(s)| + 1)
    requires EarlierThatDay(u.orders, k) == Today(s)
    requires forall j :: j in s.orders ==> EarlierThatDay(u.orders, j) == EarlierThatDay(s.orders, j)
    ensures WellNumbered(u)
  {
    hide OrderNumber, YearOf, DayOf, EarlierThatDay;
    forall j | j in s.orders ensures s.orders[j].orderNumber != u.orders[k].orderNumber {
      NewNumberDiffers(s, j);
    }
    forall j | j in u.orders ensures NumberedOnItsDay(u.orders[j]) {
      if j == k {
        assert NumberedOnItsDay(u.orders[k]);
      }
    }
    forall j | j in Today(u) ensures HasPlace(u.orders, j) {
      if j != k {
        assert j in Today(s) && HasPlace(s.orders, j);
      }
    }
  }

  lemma CreateWellNumbered(s: Store, t: Option<Id>, ts: set<Id>, details: string)
    requires WellNumbered(s) && YearOf(s.clock) <= 9999
    ensures WellNumbered(After(s, Create(s, 0, t, ts, details)))
  {
    hide OrderNumber, YearOf, DayOf, EarlierThatDay, Create, Today;
    if Create(s, 0, t, ts, details).Ok? {
      CreateCounts(s, t, ts, details);
      OneMoreWellNumbered(s, Create(s, 0, t, ts, details).value, s.next);
    }
  }

  lemma RemoveWellNumbered(s: Store, k: Id)
    requires WellNumbered(s) && LeavesNoGap(s, k)
    ensures WellNumbered(Next(s, 0, OpRemove(k)))
  {
    hide OrderNumber;
    var u := Next(s, 0, OpRemove(k));
    forall j | j in Today(u) ensures HasPlace(u.orders, j) {
      assert j in Today(s) && HasPlace(s.orders, j);
      assert EarlierThatDay(u.orders, j) == EarlierThatDay(s.orders, j);
    }
  }

  /** A call that moves neither orders nor numbers; the clock may go on to another day. */
  lemma RestWellNumbered(s: Store, u: Store)
    requires WellNumbered(s)
    requires u.orders.Keys == s.orders.Keys && u.next == s.next && u.clock >= s.clock
    requires forall k :: k in s.orders ==>
               u.orders[k].createdAt == s.orders[k].createdAt && u.orders[k].orderNumber == s.orders[k].orderNumber
    ensures WellNumbered(u)
  {
    hide OrderNumber;
    forall k | k in u.orders ensures NumberedOnItsDay(u.orders[k]) {
      assert NumberedOnItsDay(s.orders[k]);
    }
    forall k | k in Today(u) ensures HasPlace(u.orders, k) {
      DayMonotone(s.orders[k].createdAt, s.clock);
      DayMonotone(s.clock, u.clock);
      assert k in Today(s) && HasPlace(s.orders, k);
      assert EarlierThatDay(u.orders, k) == EarlierThatDay(s.orders, k);
    }
  }

  lemma StepWellNumbered(s: Store, op: Op)
    requires WellNumbered(s) && YearOf(s.clock) <= 9999
    requires op.OpRemove? ==> LeavesNoGap(s, op.id)
    ensures WellNumbered(Next(s, 0, op))
  {
    hide OrderNumber, YearOf, WellNumbered;
    match op
    case OpCreate(t, ts, details) => CreateWellNumbered(s, t, ts, details);
    case OpRemove(k) => RemoveWellNumbered(s, k);
    case _ => RestWellNumbered(s, Next(s, 0, op));
  }

  /** Every deletion of the run leaves no gap when it happens. */
  ghost predicate LeavesNoGaps(s: Store, ops: seq<Op>)
    decreases |ops|
  {
    ops != [] ==>
      && (ops[0].OpRemove? ==> LeavesNoGap(s, ops[0].id))
      && LeavesNoGaps(Next(s, 0, ops[0]), ops[1..])
  }

  lemma {:induction false} ClockGoesOn(s: Store, zone: int, ops: seq<Op>)
    ensures s.clock <= Run(s, zone, ops).clock
    decreases |ops|
  {
    if ops != [] {
      ClockGoesOn(Next(s, zone, ops[0]), zone, ops[1..]);
    }
  }

  lemma {:induction false} RunWellNumbered(s: Store, ops: seq<Op>)
    requires WellNumbered(s) && LeavesNoGaps(s, ops) && YearOf(Run(s, 0, ops).clock) <= 9999
    ensures WellNumbered(Run(s, 0, ops)) && AllDistinct(Run(s, 0, ops))
    decreases |ops|
  {
    if ops != [] {
      ClockGoesOn(s, 0, ops);
      DayMonotone(s.clock, Run(s, 0, ops).clock);
      YearsUpTo(DayOf(s.clock), DayOf(Run(s, 0, ops).clock));
      StepWellNumbered(s, ops[0]);
      RunWellNumbered(Next(s, 0, ops[0]), ops[1..]);
    }
  }

  lemma {:induction false} LatestOf(ids: set<Id>) returns (last: Id)
    requires ids != {}
    ensures last in ids && forall j :: j in ids ==> j <= last
  {
    var x :| x in ids;
    last := x;
    if ids != {x} {
      var y := LatestOf(ids - {x});
      last := if x < y then y else x;
      assert forall j :: j in ids ==> j == x || j in ids - {x};
    }
  }

  lemma LastPlace(s: Store, last: Id)
    requires WellNumbered(s) && last in Today(s) && forall j :: j in Today(s) ==> j <= last
    ensures s.orders[last].orderNumber == OrderNumber(DayOf(s.clock), |Today(s)|)
  {
    hide OrderNumber;
    assert EarlierThatDay(s.orders, last) == Today(s) - {last};
    assert HasPlace(s.orders, last);
  }

  /** A gap is filled with the number of the last order of today. */
  lemma GapRepeatsLast(s: Store, k: Id)
    requires WellNumbered(s) && !LeavesNoGap(s, k)
    ensures !AllDistinct(Next(Next(s, 0, OpRemove(k)), 0, NEW_ORDER))
  {
    hide OrderNumber, Create, DayOf, HasPlace, NumberedOnItsDay;
    var last := LatestOf(Today(s));
    LastPlace(s, last);
    var u := s.(orders := s.orders - {k});
    assert Next(s, 0, OpRemove(k)) == u;
    assert Today(u) == Today(s) - {k};
    NewOrderCounts(u);
    hide Next, Today;
    var v := Next(u, 0, NEW_ORDER);
    assert last in v.orders && u.next in v.orders;
  }

  lemma NewOrderCounts(s: Store)
    requires Dated(s)
    ensures var u := Next(s, 0, NEW_ORDER);
            && u.clock == s.clock
            && s.next in u.orders && u.orders == s.orders[s.next := u.orders[s.next]]
            && u.orders[s.next].orderNumber == OrderNumber(DayOf(s.clock), |Today(s)| + 1)
  {
    hide OrderNumber, Today, DayOf, GenerateOrderNumber;
    CreateCounts(s, None, {}, "");
  }

  lemma RemoveKeepsClock(s: Store, k: Id)
    ensures YearOf(Next(s, 0, OpRemove(k)).clock) == YearOf(s.clock)
  {
    hide YearOf;
    assert Next(s, 0, OpRemove(k)).clock == s.clock;
  }

  lemma NewOrderLeavesNoGap(s: Store)
    ensures LeavesNoGaps(s, [NEW_ORDER])
    ensures YearOf(Run(s, 0, [NEW_ORDER]).clock) == YearOf(s.clock)
  {
    hide YearOf, GenerateOrderNumber;
    RunOne(s, 0, NEW_ORDER);
    assert [NEW_ORDER][1..] == [];
    assert Next(s, 0, NEW_ORDER).clock == s.clock;
  }

  /** A deletion, then a new order: their numbers stay distinct exactly when the
      deleted order is not of today, or no order of today is later. */
  lemma DeletionHarmsExactly(s: Store, k: Id)
    requires WellNumbered(s) && YearOf(s.clock) <= 9999
    ensures AllDistinct(Next(Next(s, 0, OpRemove(k)), 0, NEW_ORDER)) <==> LeavesNoGap(s, k)
  {
    if LeavesNoGap(s, k) {
      hide OrderNumber, YearOf;
      StepWellNumbered(s, OpRemove(k));
      StepWellNumbered(Next(s, 0, OpRemove(k)), NEW_ORDER);
    } else {
      GapRepeatsLast(s, k);
    }
  }

  /** The same of everything that can follow: after a deletion all further runs keep
      the numbers distinct, as long as they leave no gap themselves, exactly when it
      left none. */
  lemma DeletionHarmsRunsExactly(s: Store, k: Id)
    requires WellNumbered(s) && YearOf(s.clock) <= 9999
    ensures var t := Next(s, 0, OpRemove(k));
            (forall ops | LeavesNoGaps(t, ops) && YearOf(Run(t, 0, ops).clock) <= 9999 :: AllDistinct(Run(t, 0, ops)))
            <==> LeavesNoGap(s, k)
  {
    hide YearOf, WellNumbered, AllDistinct, LeavesNoGap, LeavesNoGaps, Next, Run;
    var t := Next(s, 0, OpRemove(k));
    RemoveKeepsClock(s, k);
    if LeavesNoGap(s, k) {
      StepWellNumbered(s, OpRemove(k));
      forall ops | LeavesNoGaps(t, ops) && YearOf(Run(t, 0, ops).clock) <= 9999 ensures AllDistinct(Run(t, 0, ops)) {
        RunWellNumbered(t, ops);
      }
    } else {
      GapRepeatsLast(s, k);
      RunOne(t, 0, NEW_ORDER);
      NewOrderLeavesNoGap(t);
    }
  }

  /** On a server in UTC all order numbers are different, within a day and across
      days, over every run whose deletions leave no gap among today's numbers. */
  lemma NumbersDistinctWithoutGaps(ops: seq<Op>)
    requires LeavesNoGaps(EMPTY_STORE, ops) && YearOf(Run(EMPTY_STORE, 0, ops).clock) <= 9999
    ensures AllDistinct(Run(EMPTY_STORE, 0, ops))
  {
    RunWellNumbered(EMPTY_STORE, ops);
  }

  lemma {:induction false} NoDeletionLeavesNoGap(s: Store, ops: seq<Op>)
    requires forall i :: 0 <= i < |ops| ==> !ops[i].OpRemove?
    ensures LeavesNoGaps(s, ops)
    decreases |ops|
  {
    if ops != [] {
      assert !ops[0].OpRemove?;
      NoDeletionLeavesNoGap(Next(s, 0, ops[0]), ops[1..]);
    }
  }

  /** In particular over every run that deletes no order. */
  lemma NumbersDistinctInUtc(ops: seq<Op>)
    requires forall i :: 0 <= i < |ops| ==> !ops[i].OpRemove?
    requires YearOf(Run(EMPTY_STORE, 0, ops).clock) <= 9999
    ensures AllDistinct(Run(EMPTY_STORE, 0, ops))
  {
    NoDeletionLeavesNoGap(EMPTY_STORE, ops);
    NumbersDistinctWithoutGaps(ops);
  }

  lemma RunOne(s: Store, zone: int, op: Op)
    ensures Run(s, zone, [op]) == Next(s, zone, op)
  {
    assert [op][1..] == [];
  }

  // ---------- servers in another time zone ----------

  lemma {:induction false} RunJoined(s: Store, zone: int, first: seq<Op>, rest: seq<Op>)
    ensures Run(s, zone, first + rest) == Run(Run(s, zone, first), zone, rest)
    decreases |first|
  {
    if first == [] {
      assert first + rest == rest;
    } else {
      assert (first + rest)[1..] == first[1..] + rest;
      RunJoined(Next(s, zone, first[0]), zone, first[1..], rest);
    }
  }

  /** Two orders on one UTC day with the server's midnight between them. */
  function AcrossMidnight(zone: int): seq<Op>
    requires 0 < (if zone < 0 then -zone else zone) < MS_PER_DAY
  {
    var wait: nat := if zone > 0 then MS_PER_DAY - zone else -zone;
    [Tick(MS_PER_DAY), NEW_ORDER, Tick(wait), NEW_ORDER]
  }

  lemma SameNumberAcrossMidnight(zone: int)
    requires 0 < (if zone < 0 then -zone else zone) < MS_PER_DAY
    ensures !AllDistinct(Run(EMPTY_STORE, zone, AcrossMidnight(zone)))
    ensures DayOf(Run(EMPTY_STORE, zone, AcrossMidnight(zone)).clock) == 1
  {
    hide OrderNumber;
    var wait: nat := if zone > 0 then MS_PER_DAY - zone else -zone;
    var a := Next(EMPTY_STORE, zone, Tick(MS_PER_DAY));
    var b := Next(a, zone, NEW_ORDER);
    var c := Next(b, zone, Tick(wait));
    var d := Next(c, zone, NEW_ORDER);
    RunOne(EMPTY_STORE, zone, Tick(MS_PER_DAY));
    RunOne(a, zone, NEW_ORDER);
    RunOne(b, zone, Tick(wait));
    RunOne(c, zone, NEW_ORDER);
    RunJoined(EMPTY_STORE, zone, [Tick(MS_PER_DAY)], [NEW_ORDER]);
    RunJoined(EMPTY_STORE, zone, [Tick(MS_PER_DAY)] + [NEW_ORDER], [Tick(wait)]);
    RunJoined(EMPTY_STORE, zone, [Tick(MS_PER_DAY)] + [NEW_ORDER] + [Tick(wait)], [NEW_ORDER]);
    assert AcrossMidnight(zone) == [Tick(MS_PER_DAY)] + [NEW_ORDER] + [Tick(wait)] + [NEW_ORDER];
    assert LocalMidnight(c.clock, zone) == c.clock;
    assert CreatedSince(a.orders, LocalMidnight(a.clock, zone)) == {};
    assert CreatedSince(c.orders, LocalMidnight(c.clock, zone)) == {};
    assert d.orders[0].orderNumber == OrderNumber(1, 1) == d.orders[1].orderNumber;
  }

  lemma SecondDayInRange()
    ensures forall time: nat :: DayOf(time) == 1 ==> YearOf(time) <= 9999
  {
    assert DateOf(1) == NextDay(DateOf(0));
  }

  /** So order numbers stay distinct over every run without deletions exactly when
      the server's clock is in UTC. */
  lemma DistinctExactlyInUtc(zone: int)
    requires (if zone < 0 then -zone else zone) < MS_PER_DAY
    ensures (forall ops: seq<Op> |
               && (forall i :: 0 <= i < |ops| ==> !ops[i].OpRemove?)
               && YearOf(Run(EMPTY_STORE, zone, ops).clock) <= 9999 ::
               AllDistinct(Run(EMPTY_STORE, zone, ops)))
            <==> zone == 0
  {
    hide AllDistinct, DayOf, YearOf;
    if zone == 0 {
      forall ops: seq<Op> |
        && (forall i :: 0 <= i < |ops| ==> !ops[i].OpRemove?)
        && YearOf(Run(EMPTY_STORE, zone, ops).clock) <= 9999
        ensures AllDistinct(Run(EMPTY_STORE, zone, ops))
      {
        NumbersDistinctInUtc(ops);
      }
    } else {
      SameNumberAcrossMidnight(zone);
      var ops := AcrossMidnight(zone);
      SecondDayInRange();
      assert forall i :: 0 <= i < |ops| ==> !ops[i].OpRemove?;
    }
  }

  /** A deletion frees the number of a later order: of two orders the first is
      deleted, and the next order repeats the number of the second. */
  lemma DeletionRepeatsNumber()
    ensures !AllDistinct(Run(EMPTY_STORE, 0, [NEW_ORDER] + [NEW_ORDER] + [OpRemove(0)] + [NEW_ORDER]))
  {
    hide OrderNumber;
    var a := Next(EMPTY_STORE, 0, NEW_ORDER);
    var b := Next(a, 0, NEW_ORDER);
    var c := Next(b, 0, OpRemove(0));
    var d := Next(c, 0, NEW_ORDER);
    RunOne(EMPTY_STORE, 0, NEW_ORDER);
    RunOne(a, 0, NEW_ORDER);
    RunOne(b, 0, OpRemove(0));
    RunOne(c, 0, NEW_ORDER);
    RunJoined(EMPTY_STORE, 0, [NEW_ORDER], [NEW_ORDER]);
    RunJoined(EMPTY_STORE, 0, [NEW_ORDER] + [NEW_ORDER], [OpRemove(0)]);
    RunJoined(EMPTY_STORE, 0, [NEW_ORDER] + [NEW_ORDER] + [OpRemove(0)], [NEW_ORDER]);
    assert CreatedSince(a.orders, LocalMidnight(0, 0)) == {0};
    assert CreatedSince(c.orders, LocalMidnight(0, 0)) == {1};
    assert d.orders[1].orderNumber == OrderNumber(0, 2) == d.orders[2].orderNumber;
  }
}
