/** Discounts: what a discount takes off a subtotal, which discounts are on
    offer, and which rows the service lets into the table. */
module Discounts {
  import opened Wrappers

  type Id = nat

  datatype DiscountType = PERCENTAGE | FIXED_AMOUNT | BUY_X_GET_Y

  datatype Discount = Discount(
    code: string,
    kind: DiscountType,
    value: real,
    maxDiscountAmount: Option<real>,
    minPurchaseAmount: Option<real>,
    validFrom: Option<int>,
    validUntil: Option<int>,
    usageLimit: Option<int>,
    usageCount: int,
    isActive: bool)

  datatype UpdateDiscountDto = UpdateDiscountDto(
    code: Patch<string>,
    kind: Patch<DiscountType>,
    value: Patch<real>,
    maxDiscountAmount: Patch<Option<real>>,
    minPurchaseAmount: Patch<Option<real>>,
    validFrom: Patch<Option<int>>,
    validUntil: Patch<Option<int>>,
    usageLimit: Patch<Option<int>>,
    usageCount: Patch<int>,
    isActive: Patch<bool>)

  // ---------- what the service lets in ----------

  /** The checks of `create`, and of `update` on the fields the body carries. */
  predicate RefusedFields(kind: Option<DiscountType>, value: Option<real>, from: Option<int>, until: Option<int>) {
    || (kind == Some(PERCENTAGE) && value.Some? && (value.value < 0.0 || value.value > 100.0))
    || (kind == Some(FIXED_AMOUNT) && value.Some? && value.value <= 0.0)
    || (from.Some? && until.Some? && from.value > until.value)
  }

  predicate CodeTaken(discounts: map<Id, Discount>, code: string) {
    exists k :: k in discounts && discounts[k].code == code
  }

  predicate CodeTakenByOther(discounts: map<Id, Discount>, code: string, id: Id) {
    exists k :: k in discounts && k != id && discounts[k].code == code
  }

  function Create(discounts: map<Id, Discount>, id: Id, dto: Discount): Result<map<Id, Discount>> {
    if CodeTaken(discounts, dto.code) then Err(BadRequest)
    else if RefusedFields(Some(dto.kind), Some(dto.value), dto.validFrom, dto.validUntil) then Err(BadRequest)
    else Ok(discounts[id := dto])
  }

  function Carried<T>(p: Patch<T>): Option<T> {
    if p.Put? then Some(p.value) else None
  }

  /** A date the body carries; null counts as none. */
  function CarriedDate(p: Patch<Option<int>>): Option<int> {
    if p.Put? then p.value else None
  }

  function PatchDiscount(d: Discount, dto: UpdateDiscountDto): Discount {
    Discount(
      dto.code.On(d.code), dto.kind.On(d.kind), dto.value.On(d.value),
      dto.maxDiscountAmount.On(d.maxDiscountAmount), dto.minPurchaseAmount.On(d.minPurchaseAmount),
      dto.validFrom.On(d.validFrom), dto.validUntil.On(d.validUntil),
      dto.usageLimit.On(d.usageLimit), dto.usageCount.On(d.usageCount), dto.isActive.On(d.isActive))
  }

  function Update(discounts: map<Id, Discount>, id: Id, dto: UpdateDiscountDto): Result<map<Id, Discount>> {
    if id !in discounts then Err(NotFound)
    else if dto.code.Put? && CodeTakenByOther(discounts, dto.code.value, id) then Err(BadRequest)
    else if RefusedFields(Carried(dto.kind), Carried(dto.value),
                          CarriedDate(dto.validFrom), CarriedDate(dto.validUntil))
    then Err(BadRequest)
    else Ok(discounts[id := PatchDiscount(discounts[id], dto)])
  }

  /** One more use; no limit is looked at. */
  function CountUse(d: Discount): Discount {
    d.(usageCount := d.usageCount + 1)
  }

  function IncrementUse(discounts: map<Id, Discount>, id: Id): Result<map<Id, Discount>> {
    if id !in discounts then Err(NotFound) else Ok(discounts[id := CountUse(discounts[id])])
  }

  function SetActive(discounts: map<Id, Discount>, id: Id, active: bool): Result<map<Id, Discount>> {
    if id !in discounts then Err(NotFound) else Ok(discounts[id := discounts[id].(isActive := active)])
  }

  function Remove(discounts: map<Id, Discount>, id: Id): Result<map<Id, Discount>> {
    if id !in discounts then Err(NotFound) else Ok(discounts - {id})
  }

  ghost predicate CodesUnique(discounts: map<Id, Discount>) {
    forall j, k :: j in discounts && k in discounts && j != k ==> discounts[j].code != discounts[k].code
  }

  /** No accepted `create` or `update` gives two discounts one code. */
  lemma CodesStayUnique(discounts: map<Id, Discount>, id: Id, created: Discount, dto: UpdateDiscountDto)
    requires CodesUnique(discounts)
    ensures Create(discounts, id, created).Ok? && id !in discounts ==> CodesUnique(Create(discounts, id, created).value)
    ensures Update(discounts, id, dto).Ok? ==> CodesUnique(Update(discounts, id, dto).value)
  {
  }

  /** The rule `create` enforces on a whole row. */
  ghost predicate InDomain(d: Discount) {
    && (d.kind.PERCENTAGE? ==> 0.0 <= d.value <= 100.0)
    && (d.kind.FIXED_AMOUNT? ==> d.value > 0.0)
    && (d.validFrom.Some? && d.validUntil.Some? ==> d.validFrom.value <= d.validUntil.value)
  }

  /** A patch that carries one of two fields the rule relates is checked on that
      field alone.  So an accepted patch takes a good row out of the domain
      exactly when it changes type without value, value without type, or one
      date without the other, to a pair the rule forbids. */
  lemma UpdateLeavesDomainExactly(discounts: map<Id, Discount>, id: Id, dto: UpdateDiscountDto)
    requires id in discounts && InDomain(discounts[id])
    requires Update(discounts, id, dto).Ok?
    ensures var d := discounts[id];
            !InDomain(Update(discounts, id, dto).value[id])
            <==> || (dto.kind.Keep? && dto.value.Put? && d.kind.PERCENTAGE? && !(0.0 <= dto.value.value <= 100.0))
                 || (dto.kind.Keep? && dto.value.Put? && d.kind.FIXED_AMOUNT? && dto.value.value <= 0.0)
                 || (dto.kind == Put(PERCENTAGE) && dto.value.Keep? && !(0.0 <= d.value <= 100.0))
                 || (dto.kind == Put(FIXED_AMOUNT) && dto.value.Keep? && d.value <= 0.0)
                 || (dto.validFrom.Put? && dto.validFrom.value.Some? && dto.validUntil.Keep?
                     && d.validUntil.Some? && dto.validFrom.value.value > d.validUntil.value)
                 || (dto.validUntil.Put? && dto.validUntil.value.Some? && dto.validFrom.Keep?
                     && d.validFrom.Some? && d.validFrom.value > dto.validUntil.value.value)
  {
  }

  // ---------- runs ----------

  /** The table, and the next id. */
  datatype Store = Store(discounts: map<Id, Discount>, next: Id)

  const EMPTY_STORE := Store(map[], 0)

  datatype Op =
    | OpCreate(row: Discount)
    | OpUpdate(id: Id, patch: UpdateDiscountDto)
    | OpUse(id: Id)
    | OpSetActive(id: Id, active: bool)
    | OpRemove(id: Id)

  function Next(s: Store, op: Op): Store {
    match op
    case OpCreate(row) =>
      var rows := Create(s.discounts, s.next, row);
      if rows.Ok? then Store(rows.value, s.next + 1) else s
    case OpUpdate(id, dto) => s.(discounts := After(s.discounts, Update(s.discounts, id, dto)))
    case OpUse(id) => s.(discounts := After(s.discounts, IncrementUse(s.discounts, id)))
    case OpSetActive(id, active) => s.(discounts := After(s.discounts, SetActive(s.discounts, id, active)))
    case OpRemove(id) => s.(discounts := After(s.discounts, Remove(s.discounts, id)))
  }

  function Run(s: Store, ops: seq<Op>): Store
    decreases |ops|
  {
    if ops == [] then s else Run(Next(s, ops[0]), ops[1..])
  }

  ghost predicate Keyed(s: Store) {
    (forall k :: k in s.discounts ==> k < s.next) && CodesUnique(s.discounts)
  }

  lemma StepKeyed(s: Store, op: Op)
    requires Keyed(s)
    ensures Keyed(Next(s, op))
  {
    match op
    case OpCreate(row) => assert s.next !in s.discounts;
    case _ =>
  }

  lemma {:induction false} RunKeyed(s: Store, ops: seq<Op>)
    requires Keyed(s)
    ensures Keyed(Run(s, ops))
    decreases |ops|
  {
    if ops != [] {
      StepKeyed(s, ops[0]);
      RunKeyed(Next(s, ops[0]), ops[1..]);
    }
  }

  /** In every reachable table no two discounts share a code. */
  lemma ReachableCodesUnique(ops: seq<Op>)
    ensures CodesUnique(Run(EMPTY_STORE, ops).discounts)
  {
    RunKeyed(EMPTY_STORE, ops);
  }

  /** The four fields the rule relates in pairs. */
  datatype Field = KIND | VALUE | FROM | UNTIL

  /** The fields a body carries without the other of the pair. */
  function CarriedAlone(dto: UpdateDiscountDto): set<Field> {
    (if dto.kind.Put? && dto.value.Keep? then {KIND} else {})
    + (if dto.value.Put? && dto.kind.Keep? then {VALUE} else {})
    + (if dto.validFrom.Put? && dto.validUntil.Keep? then {FROM} else {})
    + (if dto.validUntil.Put? && dto.validFrom.Keep? then {UNTIL} else {})
  }

  predicate CarryAlone(ops: seq<Op>, allowed: set<Field>) {
    forall i :: 0 <= i < |ops| && ops[i].OpUpdate? ==> CarriedAlone(ops[i].patch) <= allowed
  }

  ghost predicate AllInDomain(s: Store) {
    forall k :: k in s.discounts ==> InDomain(s.discounts[k])
  }

  lemma StepInDomain(s: Store, op: Op)
    requires AllInDomain(s) && (op.OpUpdate? ==> CarriedAlone(op.patch) == {})
    ensures AllInDomain(Next(s, op))
  {
    if op.OpUpdate? && Update(s.discounts, op.id, op.patch).Ok? {
      UpdateLeavesDomainExactly(s.discounts, op.id, op.patch);
      var dto := op.patch;
      assert KIND !in CarriedAlone(dto) && VALUE !in CarriedAlone(dto);
      assert FROM !in CarriedAlone(dto) && UNTIL !in CarriedAlone(dto);
    }
  }

  lemma {:induction false} RunInDomain(s: Store, ops: seq<Op>)
    requires AllInDomain(s) && CarryAlone(ops, {})
    ensures AllInDomain(Run(s, ops))
    decreases |ops|
  {
    if ops != [] {
      assert ops[0].OpUpdate? ==> CarriedAlone(ops[0].patch) <= {};
      StepInDomain(s, ops[0]);
      RunInDomain(Next(s, ops[0]), ops[1..]);
    }
  }

  const KEEP_ALL := UpdateDiscountDto(Keep, Keep, Keep, Keep, Keep, Keep, Keep, Keep, Keep, Keep)

  function Plain(kind: DiscountType, value: real, from: Option<int>, until: Option<int>): Discount {
    Discount("", kind, value, None, None, from, until, None, 0, true)
  }

  /** A good row, and a PATCH of one field that makes it bad. */
  function BadPatch(field: Field): (Discount, UpdateDiscountDto) {
    match field
    case KIND => (Plain(FIXED_AMOUNT, 200.0, None, None), KEEP_ALL.(kind := Put(PERCENTAGE)))
    case VALUE => (Plain(PERCENTAGE, 10.0, None, None), KEEP_ALL.(value := Put(200.0)))
    case FROM => (Plain(FIXED_AMOUNT, 1.0, None, Some(0)), KEEP_ALL.(validFrom := Put(Some(1))))
    case UNTIL => (Plain(FIXED_AMOUNT, 1.0, Some(1), None), KEEP_ALL.(validUntil := Put(Some(0))))
  }

  /** Any one of the four fields carried alone can take a row out of the domain. */
  lemma PatchedOutOfDomain(field: Field)
    ensures var (row, dto) := BadPatch(field);
            var ops := [OpCreate(row), OpUpdate(0, dto)];
            CarryAlone(ops, {field}) && !AllInDomain(Run(EMPTY_STORE, ops))
  {
    var (row, dto) := BadPatch(field);
    var ops := [OpCreate(row), OpUpdate(0, dto)];
    var s := Next(EMPTY_STORE, OpCreate(row));
    assert s == Store(map[0 := row], 1);
    assert Next(s, OpUpdate(0, dto)).discounts == map[0 := PatchDiscount(row, dto)];
    assert ops[1..] == [OpUpdate(0, dto)] && [OpUpdate(0, dto)][1..] == [];
    assert Run(EMPTY_STORE, ops) == Run(s, [OpUpdate(0, dto)]) == Next(s, OpUpdate(0, dto));
    assert 0 in Run(EMPTY_STORE, ops).discounts;
  }

  /** Every row of every reachable table obeys the rule of `create` exactly when no
      PATCH carries one field of a related pair without the other. */
  lemma DomainKeptExactly(allowed: set<Field>)
    ensures (forall ops | CarryAlone(ops, allowed) :: AllInDomain(Run(EMPTY_STORE, ops))) <==> allowed == {}
  {
    if allowed == {} {
      forall ops | CarryAlone(ops, allowed) ensures AllInDomain(Run(EMPTY_STORE, ops)) {
        RunInDomain(EMPTY_STORE, ops);
      }
    } else {
      var field :| field in allowed;
      PatchedOutOfDomain(field);
      var (row, dto) := BadPatch(field);
      assert CarryAlone([OpCreate(row), OpUpdate(0, dto)], allowed);
    }
  }

  // ---------- what a discount takes off ----------

  /** Active and inside its dates at `now`. */
  predicate OnOffer(d: Discount, now: int) {
    && d.isActive
    && (d.validFrom.Some? ==> d.validFrom.value <= now)
    && (d.validUntil.Some? ==> now <= d.validUntil.value)
  }

  /** A minimum of zero is no minimum. */
  predicate MeetsMinimum(d: Discount, subtotal: real) {
    d.minPurchaseAmount.Some? && d.minPurchaseAmount.value != 0.0 ==> d.minPurchaseAmount.value <= subtotal
  }

  /** A limit of zero is no limit. */
  predicate UnderLimit(d: Discount) {
    d.usageLimit.Some? && d.usageLimit.value != 0 ==> d.usageCount < d.usageLimit.value
  }

  predicate Accepts(d: Discount, subtotal: real, now: int) {
    OnOffer(d, now) && MeetsMinimum(d, subtotal) && UnderLimit(d)
  }

  function Min(x: real, y: real): (m: real)
    ensures m <= x && m <= y && (m == x || m == y)
  {
    if x <= y then x else y
  }

  function Percentage(subtotal: real, percent: real): real {
    subtotal * percent / 100.0
  }

  function FaceValue(d: Discount, subtotal: real): real {
    match d.kind
    case PERCENTAGE => Percentage(subtotal, d.value)
    case FIXED_AMOUNT => d.value
    case BUY_X_GET_Y => 0.0
  }

  predicate HasCap(d: Discount) {
    d.maxDiscountAmount.Some? && d.maxDiscountAmount.value != 0.0
  }

  /** The face value, no more than the cap, no more than the subtotal. */
  function AmountOff(d: Discount, subtotal: real): real {
    var face := FaceValue(d, subtotal);
    Min(if HasCap(d) then Min(face, d.maxDiscountAmount.value) else face, subtotal)
  }

  function CalculateDiscount(discounts: map<Id, Discount>, id: Id, subtotal: real, now: int): Result<real> {
    if id !in discounts then Err(NotFound)
    else if !Accepts(discounts[id], subtotal, now) then Err(BadRequest)
    else Ok(AmountOff(discounts[id], subtotal))
  }

  /** What the request validation promises of the amounts of a row. */
  ghost predicate NonNegative(d: Discount) {
    d.value >= 0.0 && (d.maxDiscountAmount.Some? ==> d.maxDiscountAmount.value >= 0.0)
  }

  /** The amount taken off lies between zero and the subtotal, and under any cap. */
  lemma AmountWithinBounds(d: Discount, subtotal: real)
    requires NonNegative(d) && subtotal >= 0.0
    ensures 0.0 <= AmountOff(d, subtotal) <= subtotal
    ensures HasCap(d) ==> AmountOff(d, subtotal) <= d.maxDiscountAmount.value
  {
    assert d.kind.PERCENTAGE? ==> subtotal * d.value >= 0.0;
  }

  lemma ProductGrows(a: real, b: real, c: real)
    requires a <= b && c >= 0.0
    ensures a * c <= b * c
  {
    assert (b - a) * c >= 0.0;
  }

  lemma PercentageGrows(s1: real, s2: real, percent: real)
    requires s1 <= s2 && percent >= 0.0
    ensures Percentage(s1, percent) <= Percentage(s2, percent)
  {
    ProductGrows(s1, s2, percent);
  }

  /** Up to 100 percent, the amount grows no faster than the subtotal. */
  lemma PercentageGrowsSlowly(s1: real, s2: real, percent: real)
    requires s1 <= s2 && percent <= 100.0
    ensures Percentage(s2, percent) - Percentage(s1, percent) <= s2 - s1
  {
    ProductGrows(percent, 100.0, s2 - s1);
  }

  /** From 100 percent on, it covers the subtotal. */
  lemma PercentageCovers(s: real, percent: real)
    requires s >= 0.0 && percent >= 100.0
    ensures Percentage(s, percent) >= s
  {
    ProductGrows(100.0, percent, s);
  }

  lemma FaceValueGrows(d: Discount, s1: real, s2: real)
    requires NonNegative(d) && s1 <= s2
    ensures FaceValue(d, s1) <= FaceValue(d, s2)
    ensures d.value <= 100.0 ==> FaceValue(d, s2) - FaceValue(d, s1) <= s2 - s1
    ensures d.kind.PERCENTAGE? && d.value > 100.0 && 0.0 <= s1 ==> FaceValue(d, s1) >= s1
  {
    hide Percentage;
    PercentageGrows(s1, s2, d.value);
    if d.value <= 100.0 {
      PercentageGrowsSlowly(s1, s2, d.value);
    } else if 0.0 <= s1 {
      PercentageCovers(s1, d.value);
    }
  }

  /** Buying more never lowers the discount, and never lowers what is left to
      pay, for every type, cap and value, percentages over 100 included. */
  lemma DiscountAndRestGrow(d: Discount, s1: real, s2: real)
    requires NonNegative(d) && 0.0 <= s1 <= s2
    ensures AmountOff(d, s1) <= AmountOff(d, s2)
    ensures s1 - AmountOff(d, s1) <= s2 - AmountOff(d, s2)
  {
    FaceValueGrows(d, s1, s2);
    FaceValueGrows(d, s2, s2);
  }

  /** The rows `findActive` asks the database for: a four-way filter. */
  function FindActive(discounts: map<Id, Discount>, now: int): set<Id> {
    set k | k in discounts && discounts[k].isActive && MatchesFilter(discounts[k], now)
  }

  predicate MatchesFilter(d: Discount, now: int) {
    || ((d.validFrom.Some? && d.validFrom.value <= now) && (d.validUntil.Some? && d.validUntil.value >= now))
    || (d.validFrom.None? && d.validUntil.None?)
    || ((d.validFrom.Some? && d.validFrom.value <= now) && d.validUntil.None?)
    || (d.validFrom.None? && (d.validUntil.Some? && d.validUntil.value >= now))
  }

  /** A discount is listed exactly when it is active and inside its dates, so
      exactly when, under its usage limit, a large enough purchase at that instant
      is accepted. */
  lemma ListedExactlyWhenAccepted(discounts: map<Id, Discount>, id: Id, now: int)
    requires id in discounts
    ensures id in FindActive(discounts, now) <==> OnOffer(discounts[id], now)
    ensures UnderLimit(discounts[id]) ==>
              (id in FindActive(discounts, now)
               <==> exists subtotal :: CalculateDiscount(discounts, id, subtotal, now).Ok?)
    ensures UnderLimit(discounts[id]) ==>
              forall subtotal :: MeetsMinimum(discounts[id], subtotal)
                ==> (id in FindActive(discounts, now) <==> CalculateDiscount(discounts, id, subtotal, now).Ok?)
  {
    var enough := discounts[id].minPurchaseAmount.GetOr(0.0);
    assert MeetsMinimum(discounts[id], enough);
    if OnOffer(discounts[id], now) && UnderLimit(discounts[id]) {
      assert CalculateDiscount(discounts, id, enough, now).Ok?;
    }
  }

  // ---------- in the terms of the fields ----------

  /** A percentage lies between 0 and 100, and a fixed amount is positive. */
  predicate ValueFits(kind: DiscountType, value: real) {
    match kind
    case PERCENTAGE => 0.0 <= value <= 100.0
    case FIXED_AMOUNT => value > 0.0
    case BUY_X_GET_Y => true
  }

  predicate DatesFit(from: Option<int>, until: Option<int>) {
    from.Some? && until.Some? ==> from.value <= until.value
  }

  predicate MeetsRules(d: Discount) {
    ValueFits(d.kind, d.value) && DatesFit(d.validFrom, d.validUntil)
  }

  /** No other discount has the code. */
  ghost predicate CodeFree(discounts: map<Id, Discount>, id: Id, code: string) {
    forall k :: k in discounts && k != id ==> discounts[k].code != code
  }

  /** What the body carries of a pair, it carries whole and within the rules. */
  predicate PairsFit(dto: UpdateDiscountDto) {
    && (dto.kind.Put? && dto.value.Put? ==> ValueFits(dto.kind.value, dto.value.value))
    && (dto.validFrom.Put? && dto.validUntil.Put? ==> DatesFit(dto.validFrom.value, dto.validUntil.value))
  }

  lemma UpdateExactly(discounts: map<Id, Discount>, id: Id, dto: UpdateDiscountDto)
    requires id in discounts
    ensures Update(discounts, id, dto).Ok?
            <==> (dto.code.Put? ==> CodeFree(discounts, id, dto.code.value)) && PairsFit(dto)
  {
  }

  lemma PatchedExactly(d: Discount, dto: UpdateDiscountDto)
    ensures IsPatched(dto, d, PatchDiscount(d, dto))
  {
  }

  /** Each field is what the body says of it. */
  ghost predicate IsPatched(dto: UpdateDiscountDto, before: Discount, after: Discount) {
    && Patched(dto.code, before.code, after.code)
    && Patched(dto.kind, before.kind, after.kind)
    && Patched(dto.value, before.value, after.value)
    && Patched(dto.maxDiscountAmount, before.maxDiscountAmount, after.maxDiscountAmount)
    && Patched(dto.minPurchaseAmount, before.minPurchaseAmount, after.minPurchaseAmount)
    && Patched(dto.validFrom, before.validFrom, after.validFrom)
    && Patched(dto.validUntil, before.validUntil, after.validUntil)
    && Patched(dto.usageLimit, before.usageLimit, after.usageLimit)
    && Patched(dto.usageCount, before.usageCount, after.usageCount)
    && Patched(dto.isActive, before.isActive, after.isActive)
  }

  /** The amount is the least of the subtotal, a cap that is not zero, and what the
      discount is worth: `value` percent of the subtotal, `value` itself, or nothing. */
  ghost predicate TakesOff(d: Discount, subtotal: real, amount: real) {
    var capped := d.maxDiscountAmount.Some? && d.maxDiscountAmount.value != 0.0;
    var worth := match d.kind
                 case PERCENTAGE => subtotal * d.value
                 case FIXED_AMOUNT => 100.0 * d.value
                 case BUY_X_GET_Y => 0.0;
    && amount <= subtotal && (capped ==> amount <= d.maxDiscountAmount.value) && 100.0 * amount <= worth
    && (amount == subtotal || (capped && amount == d.maxDiscountAmount.value) || 100.0 * amount == worth)
  }

  lemma AmountTakenOff(d: Discount, subtotal: real)
    ensures TakesOff(d, subtotal, AmountOff(d, subtotal))
  {
  }

  /** The least of three, a hundredfold of the third being `worth`. */
  lemma LeastOfThree(amount: real, subtotal: real, capped: bool, cap: real, worth: real)
    requires amount <= subtotal && (capped ==> amount <= cap) && 100.0 * amount <= worth
    requires amount == subtotal || (capped && amount == cap) || 100.0 * amount == worth
    ensures worth <= 100.0 * subtotal && (capped ==> worth <= 100.0 * cap) ==> 100.0 * amount == worth
    ensures capped && 100.0 * cap < worth && cap <= subtotal ==> amount == cap
    ensures 100.0 * subtotal < worth && (capped ==> subtotal <= cap) ==> amount == subtotal
  {
  }

  /** Where neither subtotal nor cap is below it, a fixed amount is taken off as it is,
      and a percentage takes off that part of the subtotal; buy-x-get-y takes off
      nothing; above the cap it is the cap, and above the subtotal the subtotal. */
  lemma AmountExactly(d: Discount, subtotal: real, cap: real, amount: real)
    requires amount == AmountOff(d, subtotal)
    requires d.maxDiscountAmount == None || d.maxDiscountAmount == Some(cap)
    ensures var capped := d.maxDiscountAmount.Some? && cap != 0.0;
            && (d.kind.FIXED_AMOUNT? && d.value <= subtotal && (capped ==> d.value <= cap) ==> amount == d.value)
            && (d.kind.FIXED_AMOUNT? && capped && cap < d.value && cap <= subtotal ==> amount == cap)
            && (d.kind.FIXED_AMOUNT? && subtotal < d.value && (capped ==> subtotal <= cap) ==> amount == subtotal)
            && (d.kind.BUY_X_GET_Y? && 0.0 <= subtotal && (capped ==> 0.0 <= cap) ==> amount == 0.0)
    ensures var capped := d.maxDiscountAmount.Some? && cap != 0.0;
            var worth := subtotal * d.value;
            d.kind.PERCENTAGE? ==>
              && (worth <= 100.0 * subtotal && (capped ==> worth <= 100.0 * cap) ==> 100.0 * amount == worth)
              && (capped && 100.0 * cap < worth && cap <= subtotal ==> amount == cap)
              && (100.0 * subtotal < worth && (capped ==> subtotal <= cap) ==> amount == subtotal)
  {
    AmountTakenOff(d, subtotal);
    var capped := d.maxDiscountAmount.Some? && cap != 0.0;
    hide AmountOff;
    match d.kind
    case PERCENTAGE => LeastOfThree(amount, subtotal, capped, cap, subtotal * d.value);
    case FIXED_AMOUNT => LeastOfThree(amount, subtotal, capped, cap, 100.0 * d.value);
    case BUY_X_GET_Y => LeastOfThree(amount, subtotal, capped, cap, 0.0);
  }

  // ---------- the service ----------

  class DiscountsService {
    var discounts: map<Id, Discount>
    var next: Id

    constructor ()
      ensures discounts == map[] && next == 0
    {
      discounts, next := map[], 0;
    }

    method CreateDiscount(dto: Discount) returns (r: Result<Id>)
      modifies this
      ensures var spec := Create(old(discounts), old(next), dto);
              match spec
              case Ok(rows) => r == Ok(old(next)) && discounts == rows && next == old(next) + 1
              case Err(e) => r == Err(e) && discounts == old(discounts) && next == old(next)
      ensures Keyed(Store(old(discounts), old(next))) ==> Keyed(Store(discounts, next))
      ensures r.Ok? <==> (forall k :: k in old(discounts) ==> old(discounts)[k].code != dto.code) && MeetsRules(dto)
      ensures r.Ok? ==> discounts == old(discounts)[r.value := dto]
      ensures r.Err? ==> r.error == BadRequest && discounts == old(discounts)
    {
      if Keyed(Store(discounts, next)) {
        StepKeyed(Store(discounts, next), OpCreate(dto));
      }
      if CodeTaken(discounts, dto.code) {
        return Err(BadRequest);
      }
      if dto.kind.PERCENTAGE? && (dto.value < 0.0 || dto.value > 100.0) {
        return Err(BadRequest);
      }
      if dto.kind.FIXED_AMOUNT? && dto.value <= 0.0 {
        return Err(BadRequest);
      }
      if dto.validFrom.Some? && dto.validUntil.Some? && dto.validFrom.value > dto.validUntil.value {
        return Err(BadRequest);
      }
      discounts := discounts[next := dto];
      r := Ok(next);
      next := next + 1;
    }

    method UpdateDiscount(id: Id, dto: UpdateDiscountDto) returns (r: Result<()>)
      modifies this`discounts
      ensures match Update(old(discounts), id, dto)
              case Ok(rows) => r == Ok(()) && discounts == rows
              case Err(e) => r == Err(e) && discounts == old(discounts)
      ensures Keyed(Store(old(discounts), next)) ==> Keyed(Store(discounts, next))
      ensures id !in old(discounts) ==> r == Err(NotFound)
      ensures id in old(discounts) ==>
                (r.Ok? <==> (dto.code.Put? ==> CodeFree(old(discounts), id, dto.code.value)) && PairsFit(dto))
      ensures r.Err? ==> discounts == old(discounts) && (id in old(discounts) ==> r.error == BadRequest)
      ensures r.Ok? ==>
                && id in discounts && discounts == old(discounts)[id := discounts[id]]
                && IsPatched(dto, old(discounts)[id], discounts[id])
    {
      hide PairsFit, CodeFree, IsPatched;
      if Keyed(Store(discounts, next)) {
        StepKeyed(Store(discounts, next), OpUpdate(id, dto));
      }
      hide Keyed;
      if id in discounts {
        UpdateExactly(discounts, id, dto);
        PatchedExactly(discounts[id], dto);
      }
      if id !in discounts {
        return Err(NotFound);
      }
      if dto.code.Put? && CodeTakenByOther(discounts, dto.code.value, id) {
        return Err(BadRequest);
      }
      if dto.kind == Put(PERCENTAGE) && dto.value.Put? && (dto.value.value < 0.0 || dto.value.value > 100.0) {
        return Err(BadRequest);
      }
      if dto.kind == Put(FIXED_AMOUNT) && dto.value.Put? && dto.value.value <= 0.0 {
        return Err(BadRequest);
      }
      if dto.validFrom.Put? && dto.validFrom.value.Some? && dto.validUntil.Put? && dto.validUntil.value.Some? {
        if dto.validFrom.value.value > dto.validUntil.value.value {
          return Err(BadRequest);
        }
      }
      discounts := discounts[id := PatchDiscount(discounts[id], dto)];
      r := Ok(());
    }

    method Calculate(id: Id, subtotal: real, now: int) returns (r: Result<real>)
      ensures r == CalculateDiscount(discounts, id, subtotal, now)
      ensures id !in discounts <==> r == Err(NotFound)
      ensures id in discounts ==>
                var d := discounts[id];
                (r.Ok? <==>
                   && d.isActive
                   && (d.validFrom.Some? ==> d.validFrom.value <= now)
                   && (d.validUntil.Some? ==> now <= d.validUntil.value)
                   && (d.minPurchaseAmount.Some? && d.minPurchaseAmount.value != 0.0 ==>
                         subtotal >= d.minPurchaseAmount.value)
                   && (d.usageLimit.Some? && d.usageLimit.value != 0 ==> d.usageCount < d.usageLimit.value))
      ensures r.Ok? ==> TakesOff(discounts[id], subtotal, r.value)
    {
      if id !in discounts {
        return Err(NotFound);
      }
      var discount := discounts[id];
      if !discount.isActive {
        return Err(BadRequest);
      }
      if discount.validFrom.Some? && discount.validFrom.value > now {
        return Err(BadRequest);
      }
      if discount.validUntil.Some? && discount.validUntil.value < now {
        return Err(BadRequest);
      }
      if discount.minPurchaseAmount.Some? && discount.minPurchaseAmount.value != 0.0
         && subtotal < discount.minPurchaseAmount.value {
        return Err(BadRequest);
      }
      if discount.usageLimit.Some? && discount.usageLimit.value != 0
         && discount.usageCount >= discount.usageLimit.value {
        return Err(BadRequest);
      }
      hide Percentage;
      var discountAmount := 0.0;
      if discount.kind.PERCENTAGE? {
        discountAmount := Percentage(subtotal, discount.value);
      } else if discount.kind.FIXED_AMOUNT? {
        discountAmount := discount.value;
      }
      if discount.maxDiscountAmount.Some? && discount.maxDiscountAmount.value != 0.0
         && discountAmount > discount.maxDiscountAmount.value {
        discountAmount := discount.maxDiscountAmount.value;
      }
      if discountAmount > subtotal {
        discountAmount := subtotal;
      }
      AmountTakenOff(discount, subtotal);
      hide TakesOff;
      r := Ok(discountAmount);
    }

    /** Counts one use; it looks at no limit. */
    method IncrementUsage(id: Id) returns (r: Result<()>)
      modifies this`discounts
      ensures id !in old(discounts) ==> r == Err(NotFound) && discounts == old(discounts)
      ensures id in old(discounts) ==>
                r == Ok(()) && discounts == old(discounts)[id := CountUse(old(discounts)[id])]
      ensures r.Ok? ==> discounts == old(discounts)[id :=
                old(discounts)[id].(usageCount := old(discounts)[id].usageCount + 1)]
    {
      if id !in discounts {
        return Err(NotFound);
      }
      discounts := discounts[id := CountUse(discounts[id])];
      r := Ok(());
    }
  }
}
