/** Orders: their life from kitchen to table, and the numbers they are given. */
module Orders {
  import opened Wrappers
  import opened Decimals
  import opened Calendar

  type Id = nat

  datatype OrderStatus = PENDING | IN_PROGRESS | READY | SERVED | CANCELLED

  /** `details` stands for the descriptive fields: type, table, guests, notes. */
  datatype Order = Order(
    status: OrderStatus,
    orderNumber: string,
    transactionId: Option<Id>,
    details: string,
    createdAt: nat,
    startedAt: Option<nat>,
    readyAt: Option<nat>,
    servedAt: Option<nat>,
    cancelledAt: Option<nat>)

  datatype UpdateOrderDto = UpdateOrderDto(
    status: Patch<OrderStatus>,
    transactionId: Patch<Option<Id>>,
    details: Patch<string>)

  /** The orders, the next id, and the clock in milliseconds since 1970 (UTC). */
  datatype Store = Store(orders: map<Id, Order>, next: Id, clock: nat)

  const EMPTY_STORE := Store(map[], 0, 0)

  // ---------- order numbers ----------

  const MS_PER_DAY: nat := 86400000

  function DayOf(time: nat): nat {
    time / MS_PER_DAY
  }

  /** The instant at which the server's calendar day began; its clock runs
      `zone` milliseconds ahead of UTC. */
  function LocalMidnight(time: nat, zone: int): int {
    (time + zone) / MS_PER_DAY * MS_PER_DAY - zone
  }

  /** It is the last instant, now or before, at which that clock began a day. */
  lemma MidnightExactly(time: nat, zone: int)
    ensures var midnight := LocalMidnight(time, zone);
            midnight <= time < midnight + 86400000 && (midnight + zone) % 86400000 == 0
  {
  }

  function CreatedSince(orders: map<Id, Order>, start: int): set<Id> {
    set k | k in orders && orders[k].createdAt >= start
  }

  /** The number of the `n`-th order under the date of day `day`. */
  function OrderNumber(day: nat, n: nat): string {
    "ORD-" + IsoDate(DateOf(day)) + "-" + PadStart(Print(n), 4)
  }

  /** An order number taken apart: its date, and its count. */
  function ReadNumber(s: string): (Date, nat)
    requires |s| > 13 && AllDigits(s[4..12]) && AllDigits(s[13..])
  {
    var date := s[4..12];
    assert s[4..8] == date[..4] && s[8..10] == date[4..6] && s[10..12] == date[6..];
    (Date(Value(s[4..8]), Value(s[8..10]), Value(s[10..12])), Value(s[13..]))
  }

  /** A text of the form ORD-YYYYMMDD-NNNN, the count in at least four digits, without
      leading zeros beyond them. */
  predicate IsNumber(s: string) {
    && |s| >= 17 && s[..4] == "ORD-" && s[12] == '-'
    && AllDigits(s[4..12]) && AllDigits(s[13..])
    && (|s| > 17 ==> s[13] != '0')
  }

  lemma PartsOf(date: string, count: string)
    requires |date| == 8 && |count| >= 4
    ensures var s := "ORD-" + date + "-" + count;
            && |s| == 13 + |count| && s[..4] == "ORD-" && s[4..12] == date && s[12] == '-' && s[13..] == count
            && s[4..8] == date[..4] && s[8..10] == date[4..6] && s[10..12] == date[6..]
  {
  }

  /** Every order number reads back as the date of its day and its count, counts above
      9999 included. */
  lemma NumberReadsBack(day: nat, n: nat)
    requires DateOf(day).year <= 9999
    ensures IsNumber(OrderNumber(day, n)) && ReadNumber(OrderNumber(day, n)) == (DateOf(day), n)
  {
    hide Print, PadStart, Zeros, IsoDate, DateOf, Value;
    var count := PadStart(Print(n), 4);
    IsoDateReadsBack(DateOf(day));
    ValueOfPadded(n, 4);
    PaddedHasNoExtraZero(n, 4);
    PartsOf(IsoDate(DateOf(day)), count);
    var s := OrderNumber(day, n);
    assert |s| > 17 ==> s[13] == s[13..][0];
  }

  /** In days and dates: the date a number carries is a date of the calendar, and so
      many days after 1 January 1970 as the number was given. */
  lemma NumberCarriesDay(now: nat, n: nat)
    requires DayOf(now) <= 2932896
    ensures IsNumber(OrderNumber(DayOf(now), n))
    ensures var (date, count) := ReadNumber(OrderNumber(DayOf(now), n));
            IsDate(date) && DaysTo(date) * 86400000 <= now < (DaysTo(date) + 1) * 86400000 && count == n
  {
    LastDay(DayOf(now));
    NumberReadsBack(DayOf(now), n);
    DaysToDateOf(DayOf(now));
  }

  /** The date comes from UTC, the count from the server's own day. */
  function GenerateOrderNumber(orders: map<Id, Order>, now: nat, zone: int): string {
    OrderNumber(DayOf(now), |CreatedSince(orders, LocalMidnight(now, zone))| + 1)
  }

  // ---------- calls ----------

  function Create(s: Store, zone: int, transactionId: Option<Id>, transactions: set<Id>, details: string)
    : Result<Store>
  {
    if transactionId.Some? && transactionId.value !in transactions then Err(BadRequest)
    else
      var number := GenerateOrderNumber(s.orders, s.clock, zone);
      var o := Order(PENDING, number, transactionId, details, s.clock, None, None, None, None);
      Ok(s.(orders := s.orders[s.next := o], next := s.next + 1))
  }

  function PatchOrder(o: Order, dto: UpdateOrderDto): Order {
    o.(status := dto.status.On(o.status),
       transactionId := dto.transactionId.On(o.transactionId),
       details := dto.details.On(o.details))
  }

  /** A patch may name any status and any transaction; neither is looked up. */
  function Update(s: Store, id: Id, dto: UpdateOrderDto): Result<Store> {
    if id !in s.orders then Err(NotFound)
    else if s.orders[id].status.SERVED? then Err(BadRequest)
    else if s.orders[id].status.CANCELLED? then Err(BadRequest)
    else
      var o := s.orders[id];
      Ok(s.(orders := s.orders[id := PatchOrder(o, dto)]))
  }

  function StartOrder(s: Store, id: Id): Result<Store> {
    if id !in s.orders then Err(NotFound)
    else if !s.orders[id].status.PENDING? then Err(BadRequest)
    else Ok(s.(orders := s.orders[id := s.orders[id].(status := IN_PROGRESS, startedAt := Some(s.clock))]))
  }

  function MarkReady(s: Store, id: Id): Result<Store> {
    if id !in s.orders then Err(NotFound)
    else if !s.orders[id].status.IN_PROGRESS? then Err(BadRequest)
    else Ok(s.(orders := s.orders[id := s.orders[id].(status := READY, readyAt := Some(s.clock))]))
  }

  function MarkServed(s: Store, id: Id): Result<Store> {
    if id !in s.orders then Err(NotFound)
    else if !s.orders[id].status.READY? then Err(BadRequest)
    else Ok(s.(orders := s.orders[id := s.orders[id].(status := SERVED, servedAt := Some(s.clock))]))
  }

  function Cancel(s: Store, id: Id): Result<Store> {
    if id !in s.orders then Err(NotFound)
    else if s.orders[id].status.SERVED? then Err(BadRequest)
    else if s.orders[id].status.CANCELLED? then Err(BadRequest)
    else Ok(s.(orders := s.orders[id := s.orders[id].(status := CANCELLED, cancelledAt := Some(s.clock))]))
  }

  function Remove(s: Store, id: Id): Result<Store> {
    if id !in s.orders then Err(NotFound)
    else if s.orders[id].status.SERVED? then Err(BadRequest)
    else Ok(s.(orders := s.orders - {id}))
  }

  // ---------- runs ----------

  datatype Op =
    | Tick(ms: nat)
    | OpCreate(transactionId: Option<Id>, transactions: set<Id>, details: string)
    | OpUpdate(id: Id, dto: UpdateOrderDto)
    | OpStart(id: Id)
    | OpReady(id: Id)
    | OpServed(id: Id)
    | OpCancel(id: Id)
    | OpRemove(id: Id)

  function Call(s: Store, zone: int, op: Op): Result<Store> {
    match op
    case Tick(ms) => Ok(s.(clock := s.clock + ms))
    case OpCreate(t, ts, details) => Create(s, zone, t, ts, details)
    case OpUpdate(id, dto) => Update(s, id, dto)
    case OpStart(id) => StartOrder(s, id)
    case OpReady(id) => MarkReady(s, id)
    case OpServed(id) => MarkServed(s, id)
    case OpCancel(id) => Cancel(s, id)
    case OpRemove(id) => Remove(s, id)
  }

  function Next(s: Store, zone: int, op: Op): Store {
    After(s, Call(s, zone, op))
  }

  function Run(s: Store, zone: int, ops: seq<Op>): Store
    decreases |ops|
  {
    if ops == [] then s else Run(Next(s, zone, ops[0]), zone, ops[1..])
  }

  // ---------- final states ----------

  /** A served order is never changed and never deleted, in any run. */
  lemma {:induction false} ServedIsFinal(s: Store, zone: int, ops: seq<Op>, id: Id)
    requires id in s.orders && id < s.next && s.orders[id].status.SERVED?
    ensures id in Run(s, zone, ops).orders && Run(s, zone, ops).orders[id] == s.orders[id]
    decreases |ops|
  {
    if ops != [] {
      ServedIsFinal(Next(s, zone, ops[0]), zone, ops[1..], id);
    }
  }

  /** A cancelled order never changes while it exists, and never comes back. */
  lemma {:induction false} CancelledIsFinal(s: Store, zone: int, ops: seq<Op>, id: Id, o: Order)
    requires id < s.next && o.status.CANCELLED?
    requires id in s.orders ==> s.orders[id] == o
    ensures id in Run(s, zone, ops).orders ==> id in s.orders && Run(s, zone, ops).orders[id] == o
    decreases |ops|
  {
    if ops != [] {
      CancelledIsFinal(Next(s, zone, ops[0]), zone, ops[1..], id, o);
    }
  }

  // ---------- the statuses a PATCH may carry ----------

  /** A PATCH that changes the status changes it to one of these. */
  predicate PatchesTo(op: Op, allowed: set<OrderStatus>) {
    op.OpUpdate? && op.dto.status.Put? ==> op.dto.status.value in allowed
  }

  predicate AllPatchTo(ops: seq<Op>, allowed: set<OrderStatus>) {
    forall i :: 0 <= i < |ops| ==> PatchesTo(ops[i], allowed)
  }

  lemma RunFirst(s: Store, zone: int, op: Op, ops: seq<Op>)
    ensures Run(s, zone, [op] + ops) == Run(Next(s, zone, op), zone, ops)
  {
    assert ([op] + ops)[1..] == ops;
  }

  function Rank(status: OrderStatus): nat {
    match status
    case PENDING => 0
    case IN_PROGRESS => 1
    case READY => 2
    case SERVED => 3
    case CANCELLED => 3
  }

  function StatusChanges(s: Store, zone: int, ops: seq<Op>, id: Id): nat
    decreases |ops|
  {
    if ops == [] then 0
    else
      var t := Next(s, zone, ops[0]);
      var changed := id in s.orders && id in t.orders && s.orders[id].status != t.orders[id].status;
      (if changed then 1 else 0) + StatusChanges(t, zone, ops[1..], id)
  }

  /** The status changes an order has left. */
  function ChangesLeft(s: Store, id: Id): nat {
    if id in s.orders then 3 - Rank(s.orders[id].status)
    else if id < s.next then 0
    else 3
  }

  lemma {:induction false} ChangesWithinBudget(s: Store, zone: int, ops: seq<Op>, id: Id, allowed: set<OrderStatus>)
    requires forall k :: k in s.orders ==> k < s.next
    requires AllPatchTo(ops, allowed) && allowed !! {PENDING, IN_PROGRESS}
    ensures StatusChanges(s, zone, ops, id) <= ChangesLeft(s, id)
    decreases |ops|
  {
    if ops != [] {
      assert PatchesTo(ops[0], allowed);
      ChangesWithinBudget(Next(s, zone, ops[0]), zone, ops[1..], id, allowed);
    }
  }

  lemma ChangesFirst(s: Store, zone: int, op: Op, ops: seq<Op>, id: Id)
    requires id in s.orders && id in Next(s, zone, op).orders
    ensures StatusChanges(s, zone, [op] + ops, id)
            == StatusChanges(Next(s, zone, op), zone, ops, id)
               + (if s.orders[id].status != Next(s, zone, op).orders[id].status then 1 else 0)
  {
    assert ([op] + ops)[1..] == ops;
  }

  function StatusPatch(status: OrderStatus): Op {
    OpUpdate(0, UpdateOrderDto(Put(status), Keep, Keep))
  }

  const NEW_ORDER := OpCreate(None, {}, "")

  /** The status method that undoes a PATCH back to `back`. */
  function Onward(back: OrderStatus): Op {
    if back == PENDING then OpStart(0) else OpReady(0)
  }

  function Loop(back: OrderStatus): seq<Op> {
    [StatusPatch(back)] + ([Onward(back)] + [StatusPatch(back)])
  }

  lemma LoopChanges(s: Store, zone: int, back: OrderStatus)
    requires 0 in s.orders && s.orders[0].status == if back == PENDING then IN_PROGRESS else READY
    requires back == PENDING || back == IN_PROGRESS
    ensures StatusChanges(s, zone, Loop(back), 0) == 3
  {
    var t := Next(s, zone, StatusPatch(back));
    var u := Next(t, zone, Onward(back));
    ChangesFirst(u, zone, StatusPatch(back), [], 0);
    ChangesFirst(t, zone, Onward(back), [StatusPatch(back)], 0);
    ChangesFirst(s, zone, StatusPatch(back), [Onward(back)] + [StatusPatch(back)], 0);
  }

  /** Between two statuses a PATCH and a status method can go round for ever. */
  lemma GoesRound(zone: int, back: OrderStatus)
    requires back == PENDING || back == IN_PROGRESS
    ensures exists ops :: AllPatchTo(ops, {back}) && StatusChanges(EMPTY_STORE, zone, ops, 0) > 3
  {
    hide GenerateOrderNumber;
    var a := Next(EMPTY_STORE, zone, NEW_ORDER);
    var b := Next(a, zone, OpStart(0));
    var rest := if back == PENDING then Loop(back) else [OpReady(0)] + Loop(back);
    if back == PENDING {
      LoopChanges(b, zone, back);
    } else {
      LoopChanges(Next(b, zone, OpReady(0)), zone, back);
      ChangesFirst(b, zone, OpReady(0), Loop(back), 0);
    }
    ChangesFirst(a, zone, OpStart(0), rest, 0);
    var ops := [NEW_ORDER] + ([OpStart(0)] + rest);
    assert ops[1..] == [OpStart(0)] + rest;
    assert AllPatchTo(ops, {back});
  }

  /** Every order changes status at most three times in every run exactly when no
      PATCH puts an order back to pending or in progress. */
  lemma ThreeChangesExactly(zone: int, allowed: set<OrderStatus>)
    ensures (forall ops, id | AllPatchTo(ops, allowed) :: StatusChanges(EMPTY_STORE, zone, ops, id) <= 3)
            <==> allowed !! {PENDING, IN_PROGRESS}
  {
    if allowed !! {PENDING, IN_PROGRESS} {
      forall ops, id | AllPatchTo(ops, allowed) ensures StatusChanges(EMPTY_STORE, zone, ops, id) <= 3 {
        ChangesWithinBudget(EMPTY_STORE, zone, ops, id, allowed);
      }
    } else {
      var back := if PENDING in allowed then PENDING else IN_PROGRESS;
      GoesRound(zone, back);
      var ops :| AllPatchTo(ops, {back}) && StatusChanges(EMPTY_STORE, zone, ops, 0) > 3;
      assert forall i :: 0 <= i < |ops| ==> PatchesTo(ops[i], {back});
      assert AllPatchTo(ops, allowed);
    }
  }

  /** The timestamps an order in this status carries, in the order of events. */
  predicate TimesInOrder(o: Order, clock: nat) {
    var started := o.startedAt.Some? && o.createdAt <= o.startedAt.value;
    var ready := started && o.readyAt.Some? && o.startedAt.value <= o.readyAt.value;
    var served := ready && o.servedAt.Some? && o.readyAt.value <= o.servedAt.value;
    && o.createdAt <= clock
    && (o.status.IN_PROGRESS? ==> started && o.startedAt.value <= clock)
    && (o.status.READY? ==> ready && o.readyAt.value <= clock)
    && (o.status.SERVED? ==> served && o.servedAt.value <= clock)
  }

  ghost predicate AllTimesInOrder(s: Store) {
    forall k :: k in s.orders ==> TimesInOrder(s.orders[k], s.clock)
  }

  lemma StepTimes(s: Store, zone: int, op: Op, allowed: set<OrderStatus>)
    requires AllTimesInOrder(s) && PatchesTo(op, allowed) && allowed !! {IN_PROGRESS, READY, SERVED}
    ensures AllTimesInOrder(Next(s, zone, op))
  {
  }

  lemma {:induction false} RunTimes(s: Store, zone: int, ops: seq<Op>, allowed: set<OrderStatus>)
    requires AllTimesInOrder(s) && AllPatchTo(ops, allowed) && allowed !! {IN_PROGRESS, READY, SERVED}
    ensures AllTimesInOrder(Run(s, zone, ops))
    decreases |ops|
  {
    if ops != [] {
      assert PatchesTo(ops[0], allowed);
      StepTimes(s, zone, ops[0], allowed);
      RunTimes(Next(s, zone, ops[0]), zone, ops[1..], allowed);
    }
  }

  /** Every served order was created, started, ready and served, in that order. */
  predicate ServedInOrder(s: Store) {
    forall id :: id in s.orders && s.orders[id].status.SERVED? ==>
      var o := s.orders[id];
      && o.startedAt.Some? && o.readyAt.Some? && o.servedAt.Some?
      && o.createdAt <= o.startedAt.value <= o.readyAt.value <= o.servedAt.value
  }

  predicate ServedUnstarted(s: Store, id: Id) {
    id in s.orders && s.orders[id].status.SERVED? && s.orders[id].startedAt.None?
  }

  /** Where a PATCH steps in for a status method, its stamp is missing: an order that
      is patched to in progress, ready or served can be served without being started. */
  lemma PatchedPastStart(zone: int, status: OrderStatus)
    requires status in {IN_PROGRESS, READY, SERVED}
    ensures exists ops :: AllPatchTo(ops, {status}) && ServedUnstarted(Run(EMPTY_STORE, zone, ops), 0)
  {
    hide GenerateOrderNumber;
    var a := Next(EMPTY_STORE, zone, NEW_ORDER);
    var b := Next(a, zone, StatusPatch(status));
    var rest := if status == SERVED then [] else (if status == READY then [] else [OpReady(0)]) + [OpServed(0)];
    assert ServedUnstarted(Run(b, zone, rest), 0) by {
      if status == READY {
        RunFirst(b, zone, OpServed(0), []);
      } else if status == IN_PROGRESS {
        RunFirst(b, zone, OpReady(0), [OpServed(0)]);
        RunFirst(Next(b, zone, OpReady(0)), zone, OpServed(0), []);
      }
    }
    var ops := [NEW_ORDER] + ([StatusPatch(status)] + rest);
    RunFirst(EMPTY_STORE, zone, NEW_ORDER, [StatusPatch(status)] + rest);
    RunFirst(a, zone, StatusPatch(status), rest);
    assert AllPatchTo(ops, {status});
  }

  /** In every run every served order was created, started, ready and served in that
      order exactly when no PATCH carries one of those three statuses. */
  lemma ServedInOrderExactly(zone: int, allowed: set<OrderStatus>)
    ensures (forall ops | AllPatchTo(ops, allowed) :: ServedInOrder(Run(EMPTY_STORE, zone, ops)))
            <==> allowed !! {IN_PROGRESS, READY, SERVED}
  {
    if allowed !! {IN_PROGRESS, READY, SERVED} {
      forall ops | AllPatchTo(ops, allowed) ensures ServedInOrder(Run(EMPTY_STORE, zone, ops)) {
        RunTimes(EMPTY_STORE, zone, ops, allowed);
      }
    } else {
      var status :| status in allowed && status in {IN_PROGRESS, READY, SERVED};
      PatchedPastStart(zone, status);
      var ops :| AllPatchTo(ops, {status}) && ServedUnstarted(Run(EMPTY_STORE, zone, ops), 0);
      assert forall i :: 0 <= i < |ops| ==> PatchesTo(ops[i], {status});
      assert AllPatchTo(ops, allowed);
    }
  }

  // ---------- what every call keeps ----------

  /** Served orders stay as they are, cancelled ones do while they exist, and unless a
      PATCH wrote a status all stamps stay in order. */
  ghost predicate Keeps(before: Store, after: Store, patched: bool) {
    (forall k :: k in before.orders ==> k < before.next) ==>
      && (forall k :: k in after.orders ==> k < after.next)
      && (forall k :: k in before.orders && before.orders[k].status.SERVED? ==>
            k in after.orders && after.orders[k] == before.orders[k])
      && (forall k :: k in before.orders && before.orders[k].status.CANCELLED? && k in after.orders ==>
            after.orders[k] == before.orders[k])
      && (AllTimesInOrder(before) && !patched ==> AllTimesInOrder(after))
  }

  lemma StepKeeps(s: Store, zone: int, op: Op)
    ensures Keeps(s, Next(s, zone, op), op.OpUpdate? && op.dto.status.Put?)
  {
    hide GenerateOrderNumber;
    if AllTimesInOrder(s) && !(op.OpUpdate? && op.dto.status.Put?) {
      StepTimes(s, zone, op, {});
    }
  }

  // ---------- the service ----------

  class OrdersService {
    var orders: map<Id, Order>
    var next: Id
    const zone: int

    constructor (zone: int)
      ensures orders == map[] && next == 0 && this.zone == zone
    {
      orders, next := map[], 0;
      this.zone := zone;
    }

    function At(now: nat): Store
      reads this
    {
      Store(orders, next, now)
    }

    method CreateOrder(now: nat, transactionId: Option<Id>, transactions: set<Id>, details: string)
      returns (r: Result<Id>)
      modifies this
      ensures var call := Create(old(At(now)), zone, transactionId, transactions, details);
              Reports(r, call) && At(now) == After(old(At(now)), call)
      ensures Keeps(old(At(now)), At(now), false)
      ensures r.Ok? ==> r.value == old(next)
      ensures r.Ok? <==> (transactionId.Some? ==> transactionId.value in transactions)
      ensures r.Err? ==> r.error == BadRequest && orders == old(orders)
      ensures r.Ok? ==>
                && r.value in orders && orders == old(orders)[r.value := orders[r.value]]
                && var o := orders[r.value];
                   && o.status == PENDING && o.transactionId == transactionId && o.details == details
                    && o.createdAt == now
                   && o.startedAt == o.readyAt == o.servedAt == o.cancelledAt == None
      ensures r.Ok? && now < 2932897 * 86400000 ==>
                && IsNumber(orders[r.value].orderNumber)
                && var (date, count) := ReadNumber(orders[r.value].orderNumber);
                   && IsDate(date) && DaysTo(date) * 86400000 <= now < (DaysTo(date) + 1) * 86400000
                   && count == |set k | k in old(orders) && old(orders)[k].createdAt >= LocalMidnight(now, zone)| + 1
    {
      hide Keeps, OrderNumber, LocalMidnight, DateOf, DaysTo, IsDate, Print, PadStart;
      StepKeeps(At(now), zone, OpCreate(transactionId, transactions, details));
      if transactionId.Some? && transactionId.value !in transactions {
        return Err(BadRequest);
      }
      var count := |CreatedSince(orders, LocalMidnight(now, zone))|;
      assert CreatedSince(orders, LocalMidnight(now, zone))
          == set k | k in orders && orders[k].createdAt >= LocalMidnight(now, zone);
      var number := OrderNumber(DayOf(now), count + 1);
      if DayOf(now) <= 2932896 {
        NumberCarriesDay(now, count + 1);
      }
      orders := orders[next := Order(PENDING, number, transactionId, details, now, None, None, None, None)];
      r := Ok(next);
      next := next + 1;
    }

    method UpdateOrder(now: nat, id: Id, dto: UpdateOrderDto) returns (r: Result<()>)
      modifies this`orders
      ensures var call := Update(old(At(now)), id, dto);
              Reports(r, call) && At(now) == After(old(At(now)), call)
      ensures Keeps(old(At(now)), At(now), dto.status.Put?)
      ensures r.Ok? <==> id in old(orders) && old(orders)[id].status != SERVED && old(orders)[id].status != CANCELLED
      ensures r.Err? ==> r.error == (if id in old(orders) then BadRequest else NotFound) && orders == old(orders)
      ensures r.Ok? ==>
                && id in orders && orders == old(orders)[id := orders[id]]
                && var (before, after) := (old(orders)[id], orders[id]);
                   && Patched(dto.status, before.status, after.status)
                   && Patched(dto.transactionId, before.transactionId, after.transactionId)
                   && Patched(dto.details, before.details, after.details)
                   && after == before.(
                         status := after.status, transactionId := after.transactionId, details := after.details)
    {
      hide Keeps;
      StepKeeps(At(now), zone, OpUpdate(id, dto));
      if id !in orders {
        return Err(NotFound);
      }
      var order := orders[id];
      if order.status.SERVED? || order.status.CANCELLED? {
        return Err(BadRequest);
      }
      orders := orders[id := PatchOrder(order, dto)];
      r := Ok(());
    }

    method Start(now: nat, id: Id) returns (r: Result<()>)
      modifies this`orders
      ensures var call := StartOrder(old(At(now)), id);
              Reports(r, call) && At(now) == After(old(At(now)), call)
      ensures Keeps(old(At(now)), At(now), false)
      ensures r.Ok? <==> id in old(orders) && old(orders)[id].status == PENDING
      ensures r.Err? ==> r.error == (if id in old(orders) then BadRequest else NotFound) && orders == old(orders)
      ensures r.Ok? ==>
                && r == Ok(())
                && orders == old(orders)[id := old(orders)[id].(status := IN_PROGRESS, startedAt := Some(now))]
    {
      hide Keeps;
      StepKeeps(At(now), zone, OpStart(id));
      if id !in orders {
        return Err(NotFound);
      }
      if !orders[id].status.PENDING? {
        return Err(BadRequest);
      }
      orders := orders[id := orders[id].(status := IN_PROGRESS, startedAt := Some(now))];
      r := Ok(());
    }

    method Ready(now: nat, id: Id) returns (r: Result<()>)
      modifies this`orders
      ensures var call := MarkReady(old(At(now)), id);
              Reports(r, call) && At(now) == After(old(At(now)), call)
      ensures Keeps(old(At(now)), At(now), false)
      ensures r.Ok? <==> id in old(orders) && old(orders)[id].status == IN_PROGRESS
      ensures r.Err? ==> r.error == (if id in old(orders) then BadRequest else NotFound) && orders == old(orders)
      ensures r.Ok? ==>
                && r == Ok(())
                && orders == old(orders)[id := old(orders)[id].(status := READY, readyAt := Some(now))]
    {
      hide Keeps;
      StepKeeps(At(now), zone, OpReady(id));
      if id !in orders {
        return Err(NotFound);
      }
      if !orders[id].status.IN_PROGRESS? {
        return Err(BadRequest);
      }
      orders := orders[id := orders[id].(status := READY, readyAt := Some(now))];
      r := Ok(());
    }

    method Serve(now: nat, id: Id) returns (r: Result<()>)
      modifies this`orders
      ensures var call := MarkServed(old(At(now)), id);
              Reports(r, call) && At(now) == After(old(At(now)), call)
      ensures Keeps(old(At(now)), At(now), false)
      ensures r.Ok? <==> id in old(orders) && old(orders)[id].status == READY
      ensures r.Err? ==> r.error == (if id in old(orders) then BadRequest else NotFound) && orders == old(orders)
      ensures r.Ok? ==>
                && r == Ok(())
                && orders == old(orders)[id := old(orders)[id].(status := SERVED, servedAt := Some(now))]
    {
      hide Keeps;
      StepKeeps(At(now), zone, OpServed(id));
      if id !in orders {
        return Err(NotFound);
      }
      if !orders[id].status.READY? {
        return Err(BadRequest);
      }
      orders := orders[id := orders[id].(status := SERVED, servedAt := Some(now))];
      r := Ok(());
    }

    method CancelOrder(now: nat, id: Id) returns (r: Result<()>)
      modifies this`orders
      ensures var call := Cancel(old(At(now)), id);
              Reports(r, call) && At(now) == After(old(At(now)), call)
      ensures Keeps(old(At(now)), At(now), false)
      ensures r.Ok? <==> id in old(orders) && old(orders)[id].status != SERVED && old(orders)[id].status != CANCELLED
      ensures r.Err? ==> r.error == (if id in old(orders) then BadRequest else NotFound) && orders == old(orders)
      ensures r.Ok? ==>
                && r == Ok(())
                && orders == old(orders)[id := old(orders)[id].(status := CANCELLED, cancelledAt := Some(now))]
    {
      hide Keeps;
      StepKeeps(At(now), zone, OpCancel(id));
      if id !in orders {
        return Err(NotFound);
      }
      var order := orders[id];
      if order.status.SERVED? {
        return Err(BadRequest);
      }
      if order.status.CANCELLED? {
        return Err(BadRequest);
      }
      orders := orders[id := order.(status := CANCELLED, cancelledAt := Some(now))];
      r := Ok(());
    }

    method RemoveOrder(now: nat, id: Id) returns (r: Result<()>)
      modifies this`orders
      ensures var call := Remove(old(At(now)), id);
              Reports(r, call) && At(now) == After(old(At(now)), call)
      ensures Keeps(old(At(now)), At(now), false)
      ensures r.Ok? <==> id in old(orders) && old(orders)[id].status != SERVED
      ensures r.Err? ==> r.error == (if id in old(orders) then BadRequest else NotFound) && orders == old(orders)
      ensures r.Ok? ==> r == Ok(()) && orders == old(orders) - {id}
    {
      hide Keeps;
      StepKeeps(At(now), zone, OpRemove(id));
      if id !in orders {
        return Err(NotFound);
      }
      if orders[id].status.SERVED? {
        return Err(BadRequest);
      }
      orders := orders - {id};
      r := Ok(());
    }
  }
}
