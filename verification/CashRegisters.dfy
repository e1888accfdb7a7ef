/** Cash registers: the expense total stored on a register, written by calls of
    `recordExpense` that may overlap. */
module CashRegisters {
  import opened Wrappers
  import opened Existence

  type Id = nat
  type Client = nat

  /** A row that belongs to a register: an expense, or the total of a counted
      denomination. */
  datatype Entry = Entry(registerId: Id, amount: real)

  /** A register, with the expense total it stores: none until the first write. */
  datatype Register = Register(expectedCash: real, countedCash: Option<real>, totalExpenses: Option<real>)

  /** The sum of one register's rows in a table kept in insertion order. */
  function AmountsOf(log: seq<Entry>, id: Id): real {
    if log == [] then 0.0
    else AmountsOf(log[..|log| - 1], id) + (if log[|log| - 1].registerId == id then log[|log| - 1].amount else 0.0)
  }

  ghost predicate NonNegative(log: seq<Entry>) {
    forall i :: 0 <= i < |log| ==> log[i].amount >= 0.0
  }

  lemma {:induction false} PrefixAtMost(log: seq<Entry>, n: nat, id: Id)
    requires n <= |log| && NonNegative(log)
    ensures AmountsOf(log[..n], id) <= AmountsOf(log, id)
    decreases |log| - n
  {
    if n < |log| {
      assert log[..n + 1][..n] == log[..n];
      PrefixAtMost(log, n + 1, id);
    } else {
      assert log[..n] == log;
    }
  }

  lemma OneMore(log: seq<Entry>, row: Entry, id: Id)
    ensures AmountsOf(log + [row], id) == AmountsOf(log, id) + (if row.registerId == id then row.amount else 0.0)
  {
    assert (log + [row])[..|log|] == log;
  }

  // ---------- overlapping calls of recordExpense ----------

  /** Where a call is, after each of its awaits. */
  datatype Phase =
    /** The register was found. */
    | Found(id: Id, amount: real)
    /** The expense row is inserted. */
    | Inserted(id: Id)
    /** The rows were read and added up. */
    | AddedUp(id: Id, total: real)

  datatype State = State(registers: map<Id, Register>, log: seq<Entry>, calls: map<Client, Phase>)

  datatype Step =
    | CreateRegister(id: Id, expectedCash: real)
    | Begin(c: Client, id: Id, amount: real)
    | Insert(c: Client)
    | AddUp(c: Client)
    | Store(c: Client)

  predicate Enabled(s: State, step: Step) {
    match step
    case CreateRegister(id, _) => id !in s.registers
    case Begin(c, id, amount) => c !in s.calls && id in s.registers && amount >= 0.0
    case Insert(c) => c in s.calls && s.calls[c].Found?
    case AddUp(c) => c in s.calls && s.calls[c].Inserted?
    case Store(c) => c in s.calls && s.calls[c].AddedUp? && s.calls[c].id in s.registers
  }

  function Take(s: State, step: Step): State
    requires Enabled(s, step)
  {
    match step
    case CreateRegister(id, cash) => s.(registers := s.registers[id := Register(cash, None, None)])
    case Begin(c, id, amount) => s.(calls := s.calls[c := Found(id, amount)])
    case Insert(c) =>
      var Found(id, amount) := s.calls[c];
      s.(log := s.log + [Entry(id, amount)], calls := s.calls[c := Inserted(id)])
    case AddUp(c) =>
      var id := s.calls[c].id;
      s.(calls := s.calls[c := AddedUp(id, AmountsOf(s.log, id))])
    case Store(c) =>
      var AddedUp(id, total) := s.calls[c];
      s.(registers := s.registers[id := s.registers[id].(totalExpenses := Some(total))], calls := s.calls - {c})
  }

  ghost predicate IsRun(s: State, steps: seq<Step>)
    decreases |steps|
  {
    steps != [] ==> Enabled(s, steps[0]) && IsRun(Take(s, steps[0]), steps[1..])
  }

  ghost function After(s: State, steps: seq<Step>): State
    requires IsRun(s, steps)
    decreases |steps|
  {
    if steps == [] then s else After(Take(s, steps[0]), steps[1..])
  }

  const START := State(map[], [], map[])

  function Stored(s: State, id: Id): real
    requires id in s.registers
  {
    s.registers[id].totalExpenses.GetOr(0.0)
  }

  /** `total` was the exact expense total of `id` when the log had `n` rows. */
  ghost predicate TotalAt(log: seq<Entry>, id: Id, total: real, n: nat) {
    n <= |log| && total == AmountsOf(log[..n], id)
  }

  ghost predicate WasExact(log: seq<Entry>, id: Id, total: real) {
    exists n :: TotalAt(log, id, total, n)
  }

  lemma WasExactStays(log: seq<Entry>, row: Entry, id: Id, total: real)
    requires WasExact(log, id, total)
    ensures WasExact(log + [row], id, total)
  {
    var n: nat :| TotalAt(log, id, total, n);
    assert (log + [row])[..n] == log[..n];
    assert TotalAt(log + [row], id, total, n);
  }

  lemma IsExactNow(log: seq<Entry>, id: Id)
    ensures WasExact(log, id, AmountsOf(log, id))
  {
    assert log[..|log|] == log;
    assert TotalAt(log, id, AmountsOf(log, id), |log|);
  }

  /** An expense row names a register, and belongs to no register created later. */
  ghost predicate Inv(s: State) {
    && NonNegative(s.log)
    && (forall i :: 0 <= i < |s.log| ==> s.log[i].registerId in s.registers)
    && (forall id :: id in s.registers ==> WasExact(s.log, id, Stored(s, id)))
    && (forall c :: c in s.calls ==> s.calls[c].id in s.registers)
    && (forall c :: c in s.calls && s.calls[c].Found? ==> s.calls[c].amount >= 0.0)
    && (forall c :: c in s.calls && s.calls[c].AddedUp? ==> WasExact(s.log, s.calls[c].id, s.calls[c].total))
  }

  lemma InsertInv(s: State, c: Client)
    requires Inv(s) && Enabled(s, Insert(c))
    ensures Inv(Take(s, Insert(c)))
  {
    hide WasExact;
    var t := Take(s, Insert(c));
    var row := t.log[|s.log|];
    forall id | id in t.registers ensures WasExact(t.log, id, Stored(t, id)) {
      WasExactStays(s.log, row, id, Stored(s, id));
    }
    forall d | d in t.calls && t.calls[d].AddedUp? ensures WasExact(t.log, t.calls[d].id, t.calls[d].total) {
      WasExactStays(s.log, row, s.calls[d].id, s.calls[d].total);
    }
  }

  lemma StepInv(s: State, step: Step)
    requires Inv(s) && Enabled(s, step)
    ensures Inv(Take(s, step))
  {
    var t := Take(s, step);
    match step
    case CreateRegister(id, _) =>
      assert TotalAt(s.log, id, 0.0, 0);
    case Begin(c, id, amount) =>
    case Insert(c) => InsertInv(s, c);
    case AddUp(c) =>
      IsExactNow(s.log, s.calls[c].id);
    case Store(c) =>
  }

  lemma {:induction false} RunInv(s: State, steps: seq<Step>)
    requires Inv(s) && IsRun(s, steps)
    ensures Inv(After(s, steps))
    decreases |steps|
  {
    if steps != [] {
      StepInv(s, steps[0]);
      RunInv(Take(s, steps[0]), steps[1..]);
    }
  }

  /** Whatever the interleaving, the stored total is the sum of a prefix of the
      expense log: it may lag behind the rows, never overstate them. */
  lemma StoredTotalLagsOnly(steps: seq<Step>, id: Id)
    requires IsRun(START, steps)
    requires id in After(START, steps).registers
    ensures var s := After(START, steps);
            WasExact(s.log, id, Stored(s, id)) && Stored(s, id) <= AmountsOf(s.log, id)
  {
    RunInv(START, steps);
    var s := After(START, steps);
    var n: nat :| TotalAt(s.log, id, Stored(s, id), n);
    PrefixAtMost(s.log, n, id);
  }

  // ---------- calls that do not overlap ----------

  /** No two calls for the same register are under way together. */
  ghost predicate OneAtATime(s: State) {
    forall c, d :: c in s.calls && d in s.calls && c != d ==> s.calls[c].id != s.calls[d].id
  }

  ghost predicate Sequential(s: State, steps: seq<Step>)
    requires IsRun(s, steps)
    decreases |steps|
  {
    OneAtATime(s) && (steps != [] ==> Sequential(Take(s, steps[0]), steps[1..]))
  }

  ghost predicate Busy(s: State, id: Id) {
    exists c :: c in s.calls && s.calls[c].id == id
  }

  /** The stored total is exact, except between the insert and the store of the
      one call under way, whose own sum is exact. */
  ghost predicate ExactWhenIdle(s: State) {
    && (forall id :: id in s.registers && !Busy(s, id) ==> Stored(s, id) == AmountsOf(s.log, id))
    && (forall c :: c in s.calls && s.calls[c].Found? && s.calls[c].id in s.registers
          ==> Stored(s, s.calls[c].id) == AmountsOf(s.log, s.calls[c].id))
    && (forall c :: c in s.calls && s.calls[c].AddedUp? ==> s.calls[c].total == AmountsOf(s.log, s.calls[c].id))
  }

  lemma {:induction false} NoRows(log: seq<Entry>, id: Id)
    requires forall i :: 0 <= i < |log| ==> log[i].registerId != id
    ensures AmountsOf(log, id) == 0.0
    decreases |log|
  {
    if log != [] {
      NoRows(log[..|log| - 1], id);
    }
  }

  /** A register stays busy while its calls stay under way. */
  lemma BusyStays(s: State, t: State, id: Id)
    requires Busy(s, id)
    requires forall c :: c in s.calls && s.calls[c].id == id ==> c in t.calls && t.calls[c].id == id
    ensures Busy(t, id)
  {
  }

  lemma BeginExact(s: State, c: Client, id: Id, amount: real)
    requires ExactWhenIdle(s) && Enabled(s, Begin(c, id, amount))
    requires OneAtATime(Take(s, Begin(c, id, amount)))
    ensures ExactWhenIdle(Take(s, Begin(c, id, amount)))
  {
    var t := Take(s, Begin(c, id, amount));
    forall d | d in s.calls ensures s.calls[d].id != id {
      assert d in t.calls && c in t.calls && d != c;
    }
    assert !Busy(s, id);
    forall i | Busy(s, i) ensures Busy(t, i) {
      BusyStays(s, t, i);
    }
  }

  lemma InsertExact(s: State, c: Client)
    requires OneAtATime(s) && ExactWhenIdle(s) && Enabled(s, Insert(c))
    ensures ExactWhenIdle(Take(s, Insert(c)))
  {
    var t := Take(s, Insert(c));
    var id := s.calls[c].id;
    forall i | i != id ensures AmountsOf(t.log, i) == AmountsOf(s.log, i) {
      OneMore(s.log, Entry(id, s.calls[c].amount), i);
    }
    assert c in t.calls && t.calls[c].id == id;
    assert Busy(t, id);
    forall i | Busy(s, i) ensures Busy(t, i) {
      BusyStays(s, t, i);
    }
    assert forall d :: d in t.calls && d != c ==> t.calls[d] == s.calls[d] && s.calls[d].id != id;
  }

  lemma AddUpExact(s: State, c: Client)
    requires ExactWhenIdle(s) && Enabled(s, AddUp(c))
    ensures ExactWhenIdle(Take(s, AddUp(c)))
  {
    var t := Take(s, AddUp(c));
    forall i | Busy(s, i) ensures Busy(t, i) {
      BusyStays(s, t, i);
    }
  }

  lemma StoreExact(s: State, c: Client)
    requires OneAtATime(s) && ExactWhenIdle(s) && Enabled(s, Store(c))
    ensures ExactWhenIdle(Take(s, Store(c)))
  {
    var t := Take(s, Store(c));
    forall i | Busy(s, i) && i != s.calls[c].id ensures Busy(t, i) {
      BusyStays(s, t, i);
    }
  }

  lemma CreateExact(s: State, id: Id, cash: real)
    requires Inv(s) && ExactWhenIdle(s) && Enabled(s, CreateRegister(id, cash))
    ensures ExactWhenIdle(Take(s, CreateRegister(id, cash)))
  {
    NoRows(s.log, id);
    var t := Take(s, CreateRegister(id, cash));
    forall i | Busy(s, i) ensures Busy(t, i) {
      BusyStays(s, t, i);
    }
  }

  lemma StepExact(s: State, step: Step)
    requires Inv(s) && OneAtATime(s) && ExactWhenIdle(s) && Enabled(s, step)
    requires OneAtATime(Take(s, step))
    ensures ExactWhenIdle(Take(s, step))
  {
    match step
    case CreateRegister(id, cash) => CreateExact(s, id, cash);
    case Begin(c, id, amount) => BeginExact(s, c, id, amount);
    case Insert(c) => InsertExact(s, c);
    case AddUp(c) => AddUpExact(s, c);
    case Store(c) => StoreExact(s, c);
  }

  lemma {:induction false} SequentialExact(s: State, steps: seq<Step>)
    requires Inv(s) && ExactWhenIdle(s) && IsRun(s, steps) && Sequential(s, steps)
    ensures ExactWhenIdle(After(s, steps))
    decreases |steps|
  {
    if steps != [] {
      StepInv(s, steps[0]);
      assert OneAtATime(Take(s, steps[0]));
      StepExact(s, steps[0]);
      SequentialExact(Take(s, steps[0]), steps[1..]);
    }
  }

  /** When calls for one register never overlap, its stored total is exact
      whenever none is under way. */
  lemma ExactWithoutOverlap(steps: seq<Step>, id: Id)
    requires IsRun(START, steps) && Sequential(START, steps)
    requires id in After(START, steps).registers && !Busy(After(START, steps), id)
    ensures var s := After(START, steps); Stored(s, id) == AmountsOf(s.log, id)
  {
    SequentialExact(START, steps);
  }

  // ---------- calls that overlap ----------

  /** The calls under way for one register. */
  ghost function CallsOf(s: State, id: Id): set<Client> {
    set c | c in s.calls && s.calls[c].id == id
  }

  /** No register has more than `k` calls under way. */
  ghost predicate AtMost(s: State, k: nat) {
    forall id: Id :: |CallsOf(s, id)| <= k
  }

  /** Every state of the run has at most `k` calls per register under way. */
  ghost predicate Bounded(s: State, steps: seq<Step>, k: nat)
    requires IsRun(s, steps)
    decreases |steps|
  {
    AtMost(s, k) && (steps != [] ==> Bounded(Take(s, steps[0]), steps[1..], k))
  }

  lemma AtMostOneIsOneAtATime(s: State)
    requires AtMost(s, 1)
    ensures OneAtATime(s)
  {
    forall c, d | c in s.calls && d in s.calls && c != d ensures s.calls[c].id != s.calls[d].id {
      if s.calls[c].id == s.calls[d].id {
        SubsetSize({c, d}, CallsOf(s, s.calls[c].id));
        assert false;
      }
    }
  }

  lemma {:induction false} BoundedByOneIsSequential(s: State, steps: seq<Step>)
    requires IsRun(s, steps) && Bounded(s, steps, 1)
    ensures Sequential(s, steps)
    decreases |steps|
  {
    AtMostOneIsOneAtATime(s);
    if steps != [] {
      BoundedByOneIsSequential(Take(s, steps[0]), steps[1..]);
    }
  }

  /** Some run from `s` ends in `t`, with at most two calls per register throughout. */
  ghost predicate Reaches(s: State, t: State) {
    exists steps :: IsRun(s, steps) && Bounded(s, steps, 2) && After(s, steps) == t
  }

  lemma ReachesSelf(s: State)
    requires s.calls.Keys <= {0, 1}
    ensures Reaches(s, s)
  {
    FewCalls(s);
    assert IsRun(s, []) && Bounded(s, [], 2) && After(s, []) == s;
  }

  lemma ReachesFirst(s: State, step: Step, t: State)
    requires s.calls.Keys <= {0, 1} && Enabled(s, step) && Reaches(Take(s, step), t)
    ensures Reaches(s, t)
  {
    FewCalls(s);
    var steps :| IsRun(Take(s, step), steps) && Bounded(Take(s, step), steps, 2) && After(Take(s, step), steps) == t;
    assert ([step] + steps)[1..] == steps;
    assert IsRun(s, [step] + steps) && Bounded(s, [step] + steps, 2) && After(s, [step] + steps) == t;
  }

  lemma FewCalls(s: State)
    requires s.calls.Keys <= {0, 1}
    ensures AtMost(s, 2)
  {
    forall id: Id ensures |CallsOf(s, id)| <= 2 {
      SubsetSize(CallsOf(s, id), {0, 1});
    }
  }

  /** The first call has inserted its expense and added up. */
  lemma FirstAddsUp(id: Id, a: real, t: State) returns (s: State)
    requires a >= 0.0
    ensures s == State(map[id := Register(0.0, None, None)], [Entry(id, a)], map[0 := AddedUp(id, a)])
    ensures Reaches(s, t) ==> Reaches(START, t)
  {
    OneMore([], Entry(id, a), id);
    assert [] + [Entry(id, a)] == [Entry(id, a)];
    assert AmountsOf([Entry(id, a)], id) == a;
    hide AmountsOf, Reaches;
    var s1 := Take(START, CreateRegister(id, 0.0));
    var s2 := Take(s1, Begin(0, id, a));
    var s3 := Take(s2, Insert(0));
    assert s3.log == [Entry(id, a)];
    s := Take(s3, AddUp(0));
    if Reaches(s, t) {
      ReachesFirst(s3, AddUp(0), t);
      ReachesFirst(s2, Insert(0), t);
      ReachesFirst(s1, Begin(0, id, a), t);
      ReachesFirst(START, CreateRegister(id, 0.0), t);
    }
  }

  /** The second call runs from beginning to end, and then the first stores its total. */
  lemma SecondOvertakes(id: Id, a: real, b: real, s: State, t: State)
    requires b >= 0.0
    requires s == State(map[id := Register(0.0, None, None)], [Entry(id, a)], map[0 := AddedUp(id, a)])
    requires t == State(map[id := Register(0.0, None, Some(a))], [Entry(id, a)] + [Entry(id, b)], map[])
    ensures Reaches(s, t)
  {
    hide AmountsOf, Reaches;
    var s1 := Take(s, Begin(1, id, b));
    var s2 := Take(s1, Insert(1));
    var s3 := Take(s2, AddUp(1));
    var s4 := Take(s3, Store(1));
    assert s4 == State(s4.registers, t.log, map[0 := AddedUp(id, a)]);
    assert Take(s4, Store(0)) == t;
    ReachesSelf(t);
    ReachesFirst(s4, Store(0), t);
    ReachesFirst(s3, Store(1), t);
    ReachesFirst(s2, AddUp(1), t);
    ReachesFirst(s1, Insert(1), t);
    ReachesFirst(s, Begin(1, id, b), t);
  }

  /** Two overlapping calls can leave the total short for good: both insert, the
      first has added up before the second inserts, and it stores last. */
  lemma OverlapLeavesTotalShort(id: Id, a: real, b: real) returns (s: State)
    requires a >= 0.0 && b > 0.0
    ensures Reaches(START, s)
    ensures s.calls == map[] && id in s.registers && Stored(s, id) == a && AmountsOf(s.log, id) == a + b
  {
    OneMore([], Entry(id, a), id);
    OneMore([Entry(id, a)], Entry(id, b), id);
    assert [] + [Entry(id, a)] == [Entry(id, a)];
    hide AmountsOf, Reaches;
    s := State(map[id := Register(0.0, None, Some(a))], [Entry(id, a)] + [Entry(id, b)], map[]);
    var first := FirstAddsUp(id, a, s);
    SecondOvertakes(id, a, b, first, s);
  }

  /** Every register without a call under way stores its exact total. */
  ghost predicate IdleAreExact(s: State) {
    forall id :: id in s.registers && !Busy(s, id) ==> Stored(s, id) == AmountsOf(s.log, id)
  }

  lemma {:induction false} BoundGrows(s: State, steps: seq<Step>, k: nat, m: nat)
    requires IsRun(s, steps) && Bounded(s, steps, k) && k <= m
    ensures Bounded(s, steps, m)
    decreases |steps|
  {
    if steps != [] {
      BoundGrows(Take(s, steps[0]), steps[1..], k, m);
    }
  }

  /** If the run has at most `k` calls per register under way, it ends with exact
      totals. */
  ghost predicate EndsExact(steps: seq<Step>, k: nat) {
    IsRun(START, steps) && Bounded(START, steps, k) ==> IdleAreExact(After(START, steps))
  }

  /** So every run with at most `k` calls per register under way ends with exact
      totals exactly when calls go one at a time. */
  lemma ExactExactlyOneAtATime(k: nat)
    requires k >= 1
    ensures (forall steps :: EndsExact(steps, k)) <==> k == 1
  {
    if k == 1 {
      forall steps ensures EndsExact(steps, k) {
        if IsRun(START, steps) && Bounded(START, steps, k) {
          BoundedByOneIsSequential(START, steps);
          SequentialExact(START, steps);
        }
      }
    } else {
      var s := OverlapLeavesTotalShort(0, 1.0, 1.0);
      var steps :| IsRun(START, steps) && Bounded(START, steps, 2) && After(START, steps) == s;
      BoundGrows(START, steps, 2, k);
      assert !Busy(s, 0);
      assert !EndsExact(steps, k);
    }
  }

  // ---------- the service ----------

  /** The rows of the other registers. */
  function Without(log: seq<Entry>, id: Id): seq<Entry> {
    if log == [] then []
    else
      var last := log[|log| - 1];
      Without(log[..|log| - 1], id) + (if last.registerId == id then [] else [last])
  }

  /** Deleting a register's rows takes its sum to zero and moves no other sum. */
  lemma {:induction false} WithoutSums(log: seq<Entry>, id: Id, other: Id)
    ensures AmountsOf(Without(log, id), other) == if other == id then 0.0 else AmountsOf(log, other)
    decreases |log|
  {
    if log != [] {
      var init, last := log[..|log| - 1], log[|log| - 1];
      WithoutSums(init, id, other);
      if last.registerId != id {
        OneMore(Without(init, id), last, other);
      } else {
        assert Without(init, id) + [] == Without(init, id);
      }
    }
  }

  /** Exactly the register's rows go; all others stay, as often as they were there. */
  lemma {:induction false} WithoutExactly(log: seq<Entry>, id: Id, row: Entry)
    ensures multiset(Without(log, id))[row] == if row.registerId == id then 0 else multiset(log)[row]
    decreases |log|
  {
    if log != [] {
      var init, last := log[..|log| - 1], log[|log| - 1];
      assert log == init + [last];
      WithoutExactly(init, id, row);
    }
  }

  datatype Summary = Summary(
    expectedCash: real,
    countedCash: real,
    variance: real,
    totalExpenses: real,
    netCash: real)

  /** One call from beginning to end, with no other step between its own. */
  function Alone(s: State, c: Client, id: Id, amount: real): State
    requires Enabled(s, Begin(c, id, amount))
  {
    Take(Take(Take(Take(s, Begin(c, id, amount)), Insert(c)), AddUp(c)), Store(c))
  }

  class CashRegistersService {
    var registers: map<Id, Register>
    var expenses: seq<Entry>
    var denominations: seq<Entry>

    constructor ()
      ensures registers == map[] && expenses == [] && denominations == []
    {
      registers, expenses, denominations := map[], [], [];
    }

    static method AddUpRows(log: seq<Entry>, id: Id) returns (total: real)
      ensures total == AmountsOf(log, id)
    {
      total := 0.0;
      var i := 0;
      while i < |log|
        invariant 0 <= i <= |log|
        invariant total == AmountsOf(log[..i], id)
      {
        OneMore(log[..i], log[i], id);
        assert log[..i + 1] == log[..i] + [log[i]];
        if log[i].registerId == id {
          total := total + log[i].amount;
        }
        i := i + 1;
      }
      assert log[..|log|] == log;
    }

    /** One call on its own does what its four steps do without interruption. */
    method RecordExpense(id: Id, amount: real) returns (r: Result<Register>)
      modifies this`registers, this`expenses
      ensures id !in old(registers) ==> r == Err(NotFound) && registers == old(registers) && expenses == old(expenses)
      ensures id in old(registers) ==>
                && expenses == old(expenses) + [Entry(id, amount)]
                && registers == old(registers)[id :=
                     old(registers)[id].(totalExpenses := Some(AmountsOf(old(expenses), id) + amount))]
                && r == Ok(registers[id])
      ensures forall calls: map<Client, Phase>, c: Client ::
                var before := State(old(registers), old(expenses), calls);
                Enabled(before, Begin(c, id, amount)) ==>
                  State(registers, expenses, calls) == Alone(before, c, id, amount)
    {
      if id !in registers {
        return Err(NotFound);
      }
      expenses := expenses + [Entry(id, amount)];
      OneMore(old(expenses), Entry(id, amount), id);
      var totalExpenses := AddUpRows(expenses, id);
      registers := registers[id := registers[id].(totalExpenses := Some(totalExpenses))];
      r := Ok(registers[id]);
    }

    /** The summary never reads the stored total: its expenses are always the
        full sum of the rows. */
    method GetSummary(id: Id) returns (r: Result<Summary>)
      ensures r.Ok? <==> id in registers
      ensures r.Err? ==> r.error == NotFound
      ensures r.Ok? ==>
                && r.value.totalExpenses == AmountsOf(expenses, id)
                && r.value.expectedCash == registers[id].expectedCash
                && r.value.countedCash == (if registers[id].countedCash.GetOr(0.0) != 0.0
                                           then registers[id].countedCash.value else AmountsOf(denominations, id))
                && r.value.variance + r.value.expectedCash == r.value.countedCash
                && r.value.netCash + r.value.totalExpenses == r.value.countedCash
    {
      if id !in registers {
        return Err(NotFound);
      }
      var register := registers[id];
      var denominationsTotal := AddUpRows(denominations, id);
      var expensesTotal := AddUpRows(expenses, id);
      var countedCash := denominationsTotal;
      if register.countedCash.Some? && register.countedCash.value != 0.0 {
        countedCash := register.countedCash.value;
      }
      var variance := countedCash - register.expectedCash;
      r := Ok(Summary(register.expectedCash, countedCash, variance, expensesTotal, countedCash - expensesTotal));
    }

    method Remove(id: Id) returns (r: Result<()>)
      modifies this
      ensures id !in old(registers) ==> r == Err(NotFound) && registers == old(registers)
                                        && expenses == old(expenses) && denominations == old(denominations)
      ensures id in old(registers) ==>
                && r == Ok(())
                && registers == old(registers) - {id}
                && expenses == Without(old(expenses), id)
                && denominations == Without(old(denominations), id)
    {
      if id !in registers {
        return Err(NotFound);
      }
      denominations := Without(denominations, id);
      expenses := Without(expenses, id);
      registers := registers - {id};
      r := Ok(());
    }
  }
}
