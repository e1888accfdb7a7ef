/** Cash shifts: opening, closing with a count, and what stays true of them. */
module Shifts {
  import opened Wrappers

  type Id = nat

  datatype ShiftStatus = OPEN | CLOSED

  /** What `close` records. */
  datatype Closing = Closing(
    closedAt: int,
    closingCash: real,
    closingCard: real,
    closingTransfers: real,
    closingOther: real,
    totalClosing: real,
    totalExpected: real,
    variance: real)

  datatype Shift = Shift(
    organizationId: Id,
    locationId: Id,
    openingCash: real,
    openedAt: int,
    status: ShiftStatus,
    closing: Option<Closing>)

  datatype CreateShiftDto = CreateShiftDto(organizationId: Id, locationId: Id, openingCash: real)
  datatype UpdateShiftDto = UpdateShiftDto(organizationId: Patch<Id>, locationId: Patch<Id>, openingCash: Patch<real>)
  datatype CloseShiftDto = CloseShiftDto(cash: real, card: real, transfers: real, other: real)

  datatype Store = Store(shifts: map<Id, Shift>, next: Id)

  const EMPTY_STORE := Store(map[], 0)

  // ---------- calls ----------

  predicate HasOpenShift(shifts: map<Id, Shift>, organizationId: Id, locationId: Id) {
    exists k :: k in shifts && shifts[k].status.OPEN?
                && shifts[k].organizationId == organizationId && shifts[k].locationId == locationId
  }

  function Create(s: Store, dto: CreateShiftDto, now: int): Result<Store> {
    if HasOpenShift(s.shifts, dto.organizationId, dto.locationId) then Err(BadRequest)
    else
      var shift := Shift(dto.organizationId, dto.locationId, dto.openingCash, now, OPEN, None);
      Ok(Store(s.shifts[s.next := shift], s.next + 1))
  }

  function PatchShift(shift: Shift, dto: UpdateShiftDto): Shift {
    shift.(organizationId := dto.organizationId.On(shift.organizationId),
           locationId := dto.locationId.On(shift.locationId),
           openingCash := dto.openingCash.On(shift.openingCash))
  }

  /** No status is looked at: a closed shift can be patched too. */
  function Update(s: Store, id: Id, dto: UpdateShiftDto): Result<Store> {
    if id !in s.shifts then Err(NotFound)
    else Ok(s.(shifts := s.shifts[id := PatchShift(s.shifts[id], dto)]))
  }

  function CountUp(shift: Shift, dto: CloseShiftDto, now: int): Closing {
    var totalClosing := dto.cash + dto.card + dto.transfers + dto.other;
    Closing(now, dto.cash, dto.card, dto.transfers, dto.other,
            totalClosing, shift.openingCash, totalClosing - shift.openingCash)
  }

  function Close(s: Store, id: Id, dto: CloseShiftDto, now: int): Result<Store> {
    if id !in s.shifts then Err(NotFound)
    else if s.shifts[id].status.CLOSED? then Err(BadRequest)
    else
      var shift := s.shifts[id];
      Ok(s.(shifts := s.shifts[id := shift.(status := CLOSED, closing := Some(CountUp(shift, dto, now)))]))
  }

  function Remove(s: Store, id: Id): Result<Store> {
    if id !in s.shifts then Err(NotFound)
    else if s.shifts[id].status.OPEN? then Err(BadRequest)
    else Ok(s.(shifts := s.shifts - {id}))
  }

  datatype Op =
    | OpCreate(created: CreateShiftDto, now: int)
    | OpUpdate(id: Id, patch: UpdateShiftDto)
    | OpClose(id: Id, count: CloseShiftDto, now: int)
    | OpRemove(id: Id)

  function Call(s: Store, op: Op): Result<Store> {
    match op
    case OpCreate(dto, now) => Create(s, dto, now)
    case OpUpdate(id, dto) => Update(s, id, dto)
    case OpClose(id, dto, now) => Close(s, id, dto, now)
    case OpRemove(id) => Remove(s, id)
  }

  function Next(s: Store, op: Op): Store {
    After(s, Call(s, op))
  }

  function Run(s: Store, ops: seq<Op>): Store
    decreases |ops|
  {
    if ops == [] then s else Run(Next(s, ops[0]), ops[1..])
  }

  // ---------- over all runs ----------

  /** What a shift records about its closing: nothing while it is open; once it
      is closed, a total that is the sum of its parts, and the variance from
      what was expected. */
  ghost predicate Reconciled(shift: Shift) {
    match shift.status
    case OPEN => shift.closing.None?
    case CLOSED =>
      && shift.closing.Some?
      && var c := shift.closing.value;
         && c.totalClosing == c.closingCash + c.closingCard + c.closingTransfers + c.closingOther
         && c.variance == c.totalClosing - c.totalExpected
  }

  ghost predicate Valid(s: Store) {
    && (forall k :: k in s.shifts ==> k < s.next)
    && (forall k :: k in s.shifts ==> Reconciled(s.shifts[k]))
  }

  lemma StepValid(s: Store, op: Op)
    requires Valid(s)
    ensures Valid(Next(s, op))
  {
  }

  lemma {:induction false} RunValid(s: Store, ops: seq<Op>)
    requires Valid(s)
    ensures Valid(Run(s, ops))
    decreases |ops|
  {
    if ops != [] {
      StepValid(s, ops[0]);
      RunValid(Next(s, ops[0]), ops[1..]);
    }
  }

  /** Every shift of every reachable state is reconciled. */
  lemma ShiftsReconciled(ops: seq<Op>, id: Id)
    requires id in Run(EMPTY_STORE, ops).shifts
    ensures Reconciled(Run(EMPTY_STORE, ops).shifts[id])
  {
    RunValid(EMPTY_STORE, ops);
  }

  /** Closed is final: over every run a closed shift keeps its status and its
      count for as long as it exists, and a deleted one never returns. */
  lemma {:induction false} ClosedIsFinal(s: Store, ops: seq<Op>, id: Id, closing: Option<Closing>)
    requires id < s.next
    requires id in s.shifts ==> s.shifts[id].status.CLOSED? && s.shifts[id].closing == closing
    ensures id in Run(s, ops).shifts ==>
              && id in s.shifts
              && Run(s, ops).shifts[id].status.CLOSED?
              && Run(s, ops).shifts[id].closing == closing
    decreases |ops|
  {
    if ops != [] {
      ClosedIsFinal(Next(s, ops[0]), ops[1..], id, closing);
    }
  }

  /** An open shift is never deleted: it is there, open, until a call closes it. */
  lemma {:induction false} OpenUntilClosed(s: Store, ops: seq<Op>, id: Id)
    requires Valid(s) && id in s.shifts && s.shifts[id].status.OPEN?
    requires forall i :: 0 <= i < |ops| && ops[i].OpClose? ==> ops[i].id != id
    ensures id in Run(s, ops).shifts && Run(s, ops).shifts[id].status.OPEN?
    decreases |ops|
  {
    if ops != [] {
      assert ops[0].OpClose? ==> ops[0].id != id;
      StepValid(s, ops[0]);
      OpenUntilClosed(Next(s, ops[0]), ops[1..], id);
    }
  }

  // ---------- one open shift per location ----------

  ghost predicate SamePlace(a: Shift, b: Shift) {
    a.organizationId == b.organizationId && a.locationId == b.locationId
  }

  ghost predicate OneOpenPerPlace(s: Store) {
    forall j, k :: j in s.shifts && k in s.shifts && j != k && s.shifts[j].status.OPEN? && s.shifts[k].status.OPEN?
                   ==> !SamePlace(s.shifts[j], s.shifts[k])
  }

  /** Another open shift where the patched shift would be. */
  ghost predicate CollidesAfterPatch(s: Store, id: Id, dto: UpdateShiftDto)
    requires id in s.shifts
  {
    s.shifts[id].status.OPEN?
    && exists k :: k in s.shifts && k != id && s.shifts[k].status.OPEN?
                   && SamePlace(s.shifts[k], PatchShift(s.shifts[id], dto))
  }

  /** A PATCH keeps one open shift per place exactly when it does not move an
      open shift onto another: the service checks that on `create` only. */
  lemma PatchKeepsOneOpenExactly(s: Store, id: Id, dto: UpdateShiftDto)
    requires OneOpenPerPlace(s) && id in s.shifts
    ensures OneOpenPerPlace(Next(s, OpUpdate(id, dto))) <==> !CollidesAfterPatch(s, id, dto)
  {
    var t := Next(s, OpUpdate(id, dto));
    if CollidesAfterPatch(s, id, dto) {
      var k :| k in s.shifts && k != id && s.shifts[k].status.OPEN?
               && SamePlace(s.shifts[k], PatchShift(s.shifts[id], dto));
      assert k in t.shifts && id in t.shifts && SamePlace(t.shifts[k], t.shifts[id]);
    }
  }

  predicate LeavesPlaceAlone(op: Op) {
    op.OpUpdate? ==> op.patch.organizationId.Keep? && op.patch.locationId.Keep?
  }

  lemma StepOneOpen(s: Store, op: Op)
    requires OneOpenPerPlace(s) && LeavesPlaceAlone(op)
    ensures OneOpenPerPlace(Next(s, op))
  {
  }

  lemma {:induction false} RunOneOpen(s: Store, ops: seq<Op>)
    requires OneOpenPerPlace(s)
    requires forall i :: 0 <= i < |ops| ==> LeavesPlaceAlone(ops[i])
    ensures OneOpenPerPlace(Run(s, ops))
    decreases |ops|
  {
    if ops != [] {
      assert LeavesPlaceAlone(ops[0]);
      StepOneOpen(s, ops[0]);
      RunOneOpen(Next(s, ops[0]), ops[1..]);
    }
  }

  /** Over every run whose PATCHes leave organization and location alone, each
      place has at most one open shift. */
  lemma AtMostOneOpenShift(ops: seq<Op>)
    requires forall i :: 0 <= i < |ops| ==> LeavesPlaceAlone(ops[i])
    ensures OneOpenPerPlace(Run(EMPTY_STORE, ops))
  {
    RunOneOpen(EMPTY_STORE, ops);
  }

  /** Two shifts are opened in different places, and one is moved onto the other. */
  const MOVED_TOGETHER := [
    OpCreate(CreateShiftDto(0, 0, 0.0), 0),
    OpCreate(CreateShiftDto(0, 1, 0.0), 0),
    OpUpdate(1, UpdateShiftDto(Keep, Put(0), Keep))]

  lemma MovedTogether()
    ensures !OneOpenPerPlace(Run(EMPTY_STORE, MOVED_TOGETHER))
  {
    var ops := MOVED_TOGETHER;
    var a := Next(EMPTY_STORE, ops[0]);
    var b := Next(a, ops[1]);
    var c := Next(b, ops[2]);
    assert ops[1..][1..] == [ops[2]] && [ops[2]][1..] == [];
    assert Run(EMPTY_STORE, ops) == Run(a, ops[1..]) == Run(b, [ops[2]]) == c;
    assert 0 in c.shifts && 1 in c.shifts && SamePlace(c.shifts[0], c.shifts[1]);
  }

  /** So every run keeps one open shift per place exactly when no PATCH may move a
      shift. */
  lemma OneOpenShiftExactly(mayMove: bool)
    ensures (forall ops |
               mayMove || (forall i :: 0 <= i < |ops| ==> LeavesPlaceAlone(ops[i])) ::
               OneOpenPerPlace(Run(EMPTY_STORE, ops)))
            <==> !mayMove
  {
    if mayMove {
      MovedTogether();
    } else {
      forall ops: seq<Op> | forall i :: 0 <= i < |ops| ==> LeavesPlaceAlone(ops[i])
        ensures OneOpenPerPlace(Run(EMPTY_STORE, ops))
      {
        AtMostOneOpenShift(ops);
      }
    }
  }

  // ---------- what every call keeps ----------

  /** Every shift stays reconciled, a closed one keeps its count while it exists, an
      open one exists, and each place keeps at most one open shift unless a PATCH may
      have moved one. */
  ghost predicate Keeps(before: Store, after: Store, moved: bool) {
    Valid(before) ==>
      && Valid(after)
      && (forall k :: k in before.shifts && before.shifts[k].status.CLOSED? && k in after.shifts ==>
            after.shifts[k].status.CLOSED? && after.shifts[k].closing == before.shifts[k].closing)
      && (forall k :: k in before.shifts && before.shifts[k].status.OPEN? ==> k in after.shifts)
      && (OneOpenPerPlace(before) && !moved ==> OneOpenPerPlace(after))
  }

  lemma StepKeeps(s: Store, op: Op)
    ensures Keeps(s, Next(s, op), !LeavesPlaceAlone(op))
  {
    if Valid(s) {
      StepValid(s, op);
      if OneOpenPerPlace(s) && LeavesPlaceAlone(op) {
        StepOneOpen(s, op);
      }
    }
  }

  // ---------- the service ----------

  class ShiftsService {
    var shifts: map<Id, Shift>
    var next: Id

    constructor ()
      ensures Snapshot() == EMPTY_STORE
    {
      shifts, next := map[], 0;
    }

    function Snapshot(): Store
      reads this
    {
      Store(shifts, next)
    }

    method CreateShift(dto: CreateShiftDto, now: int) returns (r: Result<Id>)
      modifies this
      ensures var call := Create(old(Snapshot()), dto, now);
              Reports(r, call) && Snapshot() == After(old(Snapshot()), call)
      ensures Keeps(old(Snapshot()), Snapshot(), false)
      ensures r.Ok? ==> r.value == old(next)
      ensures r.Ok? <==> forall k :: k in old(shifts) && old(shifts)[k].status == OPEN ==>
                old(shifts)[k].organizationId != dto.organizationId || old(shifts)[k].locationId != dto.locationId
      ensures r.Err? ==> r.error == BadRequest && shifts == old(shifts)
      ensures r.Ok? ==> shifts == old(shifts)[r.value :=
                Shift(dto.organizationId, dto.locationId, dto.openingCash, now, OPEN, None)]
    {
      hide Keeps;
      StepKeeps(Snapshot(), OpCreate(dto, now));
      var activeShift := HasOpenShift(shifts, dto.organizationId, dto.locationId);
      if activeShift {
        return Err(BadRequest);
      }
      shifts := shifts[next := Shift(dto.organizationId, dto.locationId, dto.openingCash, now, OPEN, None)];
      r := Ok(next);
      next := next + 1;
    }

    method UpdateShift(id: Id, dto: UpdateShiftDto) returns (r: Result<()>)
      modifies this`shifts
      ensures var call := Update(old(Snapshot()), id, dto);
              Reports(r, call) && Snapshot() == After(old(Snapshot()), call)
      ensures Keeps(old(Snapshot()), Snapshot(), !LeavesPlaceAlone(OpUpdate(id, dto)))
      ensures r.Ok? <==> id in old(shifts)
      ensures r.Err? ==> r.error == (if id in old(shifts) then BadRequest else NotFound) && shifts == old(shifts)
      ensures r.Ok? ==>
                && id in shifts && shifts == old(shifts)[id := shifts[id]]
                && var (before, after) := (old(shifts)[id], shifts[id]);
                   && Patched(dto.organizationId, before.organizationId, after.organizationId)
                   && Patched(dto.locationId, before.locationId, after.locationId)
                   && Patched(dto.openingCash, before.openingCash, after.openingCash)
                   && after.openedAt == before.openedAt && after.status == before.status
                    && after.closing == before.closing
    {
      hide Keeps;
      StepKeeps(Snapshot(), OpUpdate(id, dto));
      if id !in shifts {
        return Err(NotFound);
      }
      shifts := shifts[id := PatchShift(shifts[id], dto)];
      r := Ok(());
    }

    method CloseShift(id: Id, dto: CloseShiftDto, now: int) returns (r: Result<()>)
      modifies this`shifts
      ensures var call := Close(old(Snapshot()), id, dto, now);
              Reports(r, call) && Snapshot() == After(old(Snapshot()), call)
      ensures Keeps(old(Snapshot()), Snapshot(), false)
      ensures r.Ok? <==> id in old(shifts) && old(shifts)[id].status == OPEN
      ensures r.Err? ==> r.error == (if id in old(shifts) then BadRequest else NotFound) && shifts == old(shifts)
      ensures r.Ok? ==>
                && id in shifts && shifts == old(shifts)[id := shifts[id]]
                && shifts[id] == old(shifts)[id].(status := CLOSED, closing := shifts[id].closing)
                && shifts[id].closing.Some? && var c := shifts[id].closing.value;
                   && c.closedAt == now && c.closingCash == dto.cash && c.closingCard == dto.card
                   && c.closingTransfers == dto.transfers && c.closingOther == dto.other
                   && c.totalClosing == dto.cash + dto.card + dto.transfers + dto.other
                   && c.totalExpected == old(shifts)[id].openingCash && c.variance + c.totalExpected == c.totalClosing
    {
      hide Keeps;
      StepKeeps(Snapshot(), OpClose(id, dto, now));
      if id !in shifts {
        return Err(NotFound);
      }
      var shift := shifts[id];
      if shift.status.CLOSED? {
        return Err(BadRequest);
      }
      var totalClosing := dto.cash + dto.card + dto.transfers + dto.other;
      var totalExpected := shift.openingCash;
      var variance := totalClosing - totalExpected;
      var closing := Closing(now, dto.cash, dto.card, dto.transfers, dto.other, totalClosing, totalExpected, variance);
      shifts := shifts[id := shift.(status := CLOSED, closing := Some(closing))];
      r := Ok(());
    }

    method RemoveShift(id: Id) returns (r: Result<()>)
      modifies this`shifts
      ensures var call := Remove(old(Snapshot()), id);
              Reports(r, call) && Snapshot() == After(old(Snapshot()), call)
      ensures Keeps(old(Snapshot()), Snapshot(), false)
      ensures r.Ok? <==> id in old(shifts) && old(shifts)[id].status == CLOSED
      ensures r.Err? ==> r.error == (if id in old(shifts) then BadRequest else NotFound) && shifts == old(shifts)
      ensures r.Ok? ==> shifts == old(shifts) - {id}
    {
      hide Keeps;
      StepKeeps(Snapshot(), OpRemove(id));
      if id !in shifts {
        return Err(NotFound);
      }
      if shifts[id].status.OPEN? {
        return Err(BadRequest);
      }
      shifts := shifts - {id};
      r := Ok(());
    }
  }
}
