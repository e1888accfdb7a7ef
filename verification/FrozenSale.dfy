/** A completed sale is final, a settled payment is final, and the money settled
    on a sale moves only when a payment is captured or refunded. */
module FrozenSale {
  import opened Wrappers
  import opened Sums
  import opened Sales
  import opened SalesIntegrity

  // ---------- completion ----------

  /** A helper: what the guard of `complete` decides, and what completing leaves alone. */
  lemma CompleteExactlyWhenPaid(db: Db, t: Id, now: int)
    ensures var r := CompleteTransaction(db, t, now);
            && (r.Ok? <==> t in db.transactions && Due(db, t) <= Paid(db, t))
            && (r.Ok? ==>
                  && t in r.value.transactions
                  && r.value.transactions[t].status.COMPLETED?
                  && r.value.transactions.Keys == db.transactions.Keys
                  && (forall u :: u in db.transactions && u != t ==> r.value.transactions[u] == db.transactions[u])
                  && Due(r.value, t) == Due(db, t)
                  && Paid(r.value, t) == Paid(db, t))
  {
  }

  // ---------- the frozen sale ----------

  /** `t` is a completed sale with this tax, this discount and these lines. */
  ghost predicate Frozen(db: Db, t: Id, tax: Option<real>, discount: Option<real>, lines: map<Id, LineItem>) {
    && t in db.transactions
    && db.transactions[t].status.COMPLETED?
    && db.transactions[t].taxAmount == tax
    && db.transactions[t].discountAmount == discount
    && LinesOf(db.lineItems, t) == lines
  }

  lemma LinesAfterCreate(db: Db, dto: CreateTransactionDto, t: Id)
    requires Valid(db) && t in db.transactions
    ensures LinesOf(After(db, CreateTransaction(db, dto)).lineItems, t) == LinesOf(db.lineItems, t)
  {
  }

  lemma LinesAfterUpdate(db: Db, u: Id, dto: UpdateTransactionDto, t: Id)
    requires Valid(db) && u != t
    ensures LinesOf(After(db, UpdateTransaction(db, u, dto)).lineItems, t) == LinesOf(db.lineItems, t)
  {
  }

  lemma LinesAfterRemove(db: Db, u: Id, t: Id)
    requires u != t
    ensures LinesOf(After(db, RemoveTransaction(db, u)).lineItems, t) == LinesOf(db.lineItems, t)
  {
  }

  lemma StepFrozen(db: Db, op: Op, t: Id, tax: Option<real>, discount: Option<real>, lines: map<Id, LineItem>)
    requires Valid(db)
    requires Frozen(db, t, tax, discount, lines)
    ensures Frozen(Next(db, op), t, tax, discount, lines)
  {
    match op
    case OpCreateTransaction(dto) => LinesAfterCreate(db, dto, t);
    case OpUpdateTransaction(u, dto) =>
      if u != t {
        LinesAfterUpdate(db, u, dto, t);
      }
    case OpRemoveTransaction(u) =>
      if u != t {
        LinesAfterRemove(db, u, t);
      }
    case _ =>
  }

  /** Once completed, a sale stays completed, is never deleted, and keeps its
      tax, discount, lines and total through every sequence of calls, whatever
      happens to product prices. */
  lemma {:induction false} CompletedSaleIsFrozen(db: Db, ops: seq<Op>, t: Id)
    requires Valid(db)
    requires t in db.transactions && db.transactions[t].status.COMPLETED?
    ensures var final := Run(db, ops);
            && t in final.transactions
            && final.transactions[t].status.COMPLETED?
            && final.transactions[t].taxAmount == db.transactions[t].taxAmount
            && final.transactions[t].discountAmount == db.transactions[t].discountAmount
            && LinesOf(final.lineItems, t) == LinesOf(db.lineItems, t)
            && Due(final, t) == Due(db, t)
    decreases |ops|
  {
    if ops != [] {
      var tx := db.transactions[t];
      StepFrozen(db, ops[0], t, tx.taxAmount, tx.discountAmount, LinesOf(db.lineItems, t));
      StepValid(db, ops[0]);
      CompletedSaleIsFrozen(Next(db, ops[0]), ops[1..], t);
    }
  }

  // ---------- the settled payment ----------

  ghost predicate IsSettled(p: Payment) {
    p.status.COMPLETED? || p.status.REFUNDED?
  }

  /** `p` was settled with these terms; if it still exists it has them still. */
  ghost predicate SettledAs(db: Db, p: Id, terms: Payment) {
    && p < db.next
    && (p in db.payments ==>
          && IsSettled(db.payments[p])
          && db.payments[p].amount == terms.amount
          && db.payments[p].payMethod == terms.payMethod
          && db.payments[p].transactionId == terms.transactionId)
  }

  lemma StepSettledAs(db: Db, op: Op, p: Id, terms: Payment)
    requires SettledAs(db, p, terms)
    ensures SettledAs(Next(db, op), p, terms)
    ensures p !in db.payments ==> p !in Next(db, op).payments
  {
  }

  /** A settled payment never changes amount, method or transaction and never
      leaves COMPLETED and REFUNDED; once deleted it never comes back. */
  lemma {:induction false} SettledPaymentIsFinal(db: Db, ops: seq<Op>, p: Id, terms: Payment)
    requires SettledAs(db, p, terms)
    ensures SettledAs(Run(db, ops), p, terms)
    ensures p !in db.payments ==> p !in Run(db, ops).payments
    decreases |ops|
  {
    if ops != [] {
      StepSettledAs(db, ops[0], p, terms);
      SettledPaymentIsFinal(Next(db, ops[0]), ops[1..], p, terms);
    }
  }

  /** A settled payment vanishes in two ways only: it is removed after a refund,
      or the transaction it belongs to, not completed, is removed. */
  lemma SettledPaymentVanishes(db: Db, op: Op, p: Id)
    requires p in db.payments && IsSettled(db.payments[p])
    requires p !in Next(db, op).payments
    ensures || (op == OpRemovePayment(p) && db.payments[p].status.REFUNDED?)
            || (op == OpRemoveTransaction(db.payments[p].transactionId)
                && db.payments[p].transactionId in db.transactions
                && !db.transactions[db.payments[p].transactionId].status.COMPLETED?)
  {
  }

  /** A captured payment of a completed sale. */
  ghost predicate Captured(db: Db, p: Id) {
    && p in db.payments
    && db.payments[p].status.COMPLETED?
    && db.payments[p].transactionId in db.transactions
    && db.transactions[db.payments[p].transactionId].status.COMPLETED?
  }

  lemma StepCaptured(db: Db, op: Op, p: Id)
    requires Valid(db) && Captured(db, p)
    requires op.OpRefundPayment? ==> op.p != p
    ensures Captured(Next(db, op), p) && Next(db, op).payments[p] == db.payments[p]
  {
  }

  /** The row of a COMPLETED payment of a completed sale is untouched by every
      run that does not refund it. */
  lemma {:induction false} CapturedPaymentStays(db: Db, ops: seq<Op>, p: Id)
    requires Valid(db) && Captured(db, p)
    requires forall i :: 0 <= i < |ops| && ops[i].OpRefundPayment? ==> ops[i].p != p
    ensures Captured(Run(db, ops), p) && Run(db, ops).payments[p] == db.payments[p]
    decreases |ops|
  {
    if ops != [] {
      StepCaptured(db, ops[0], p);
      StepValid(db, ops[0]);
      CapturedPaymentStays(Next(db, ops[0]), ops[1..], p);
    }
  }

  // ---------- what every call keeps ----------

  /** The tables stay valid, completed sales stay as they are, and settled payments
      keep their terms. */
  ghost predicate Keeps(before: Db, after: Db) {
    Valid(before) ==>
      && Valid(after)
      && (forall t :: t in before.transactions && before.transactions[t].status.COMPLETED? ==>
            Frozen(after, t, before.transactions[t].taxAmount, before.transactions[t].discountAmount,
                   LinesOf(before.lineItems, t)))
      && (forall p :: p in before.payments && IsSettled(before.payments[p]) ==>
            SettledAs(after, p, before.payments[p]))
  }

  lemma StepKeeps(db: Db, op: Op)
    ensures Keeps(db, Next(db, op))
  {
    hide Next;
    if Valid(db) {
      StepValid(db, op);
      forall t | t in db.transactions && db.transactions[t].status.COMPLETED?
        ensures Frozen(Next(db, op), t, db.transactions[t].taxAmount, db.transactions[t].discountAmount,
                       LinesOf(db.lineItems, t))
      {
        var tx := db.transactions[t];
        StepFrozen(db, op, t, tx.taxAmount, tx.discountAmount, LinesOf(db.lineItems, t));
      }
      forall p | p in db.payments && IsSettled(db.payments[p]) ensures SettledAs(Next(db, op), p, db.payments[p]) {
        StepSettledAs(db, op, p, db.payments[p]);
      }
    }
  }

  // ---------- settled money ----------

  function SettledPart(payments: map<Id, Payment>, t: Id): map<Id, real> {
    map k | k in payments && payments[k].transactionId == t && payments[k].status.COMPLETED? :: payments[k].amount
  }

  function UnsettledPart(payments: map<Id, Payment>, t: Id): map<Id, real> {
    map k | k in payments && payments[k].transactionId == t && !payments[k].status.COMPLETED? :: payments[k].amount
  }

  /** The sum of the COMPLETED payments of `t`. */
  ghost function Settled(db: Db, t: Id): real {
    Total(SettledPart(db.payments, t))
  }

  /** The sum of its payments in any other status, which `calculateTotal` counts too. */
  ghost function Unsettled(db: Db, t: Id): real {
    Total(UnsettledPart(db.payments, t))
  }

  ghost predicate Counts(payments: map<Id, Payment>, p: Id, t: Id) {
    p in payments && payments[p].transactionId == t && payments[p].status.COMPLETED?
  }

  /** How writing one payment row moves the settled sum. */
  lemma SettledAfterWrite(payments: map<Id, Payment>, p: Id, row: Payment, t: Id)
    ensures var after := payments[p := row];
            Total(SettledPart(after, t)) == Total(SettledPart(payments, t))
              + (if Counts(after, p, t) then row.amount else 0.0)
              - (if Counts(payments, p, t) then payments[p].amount else 0.0)
  {
    var before, after := SettledPart(payments, t), SettledPart(payments[p := row], t);
    if p in before {
      TotalTakeOut(before, p);
    }
    if p in after {
      TotalTakeOut(after, p);
    }
    assert before - {p} == after - {p};
    assert p !in before ==> before - {p} == before;
    assert p !in after ==> after - {p} == after;
  }

  /** What one call adds to the settled money of `t`: the amount of a payment it
      captures, minus the amount of one it refunds, minus everything when it
      deletes `t`; every other call adds nothing. */
  ghost function SettledBy(db: Db, op: Op, t: Id): real {
    if Call(db, op).Err? then 0.0
    else
      match op
      case OpUpdatePayment(p, dto) =>
        if Counts(Next(db, op).payments, p, t) then Next(db, op).payments[p].amount else 0.0
      case OpRefundPayment(p, _) => if db.payments[p].transactionId == t then -db.payments[p].amount else 0.0
      case OpRemoveTransaction(u) => if u == t then -Settled(db, t) else 0.0
      case _ => 0.0
  }

  lemma StepSettled(db: Db, op: Op, t: Id)
    requires Valid(db)
    ensures Settled(Next(db, op), t) == Settled(db, t) + SettledBy(db, op, t)
  {
    if Call(db, op).Ok? {
      var after := Next(db, op);
      match op
      case OpCreatePayment(dto) => SettledAfterWrite(db.payments, db.next, after.payments[db.next], t);
      case OpUpdatePayment(p, dto) => SettledAfterWrite(db.payments, p, after.payments[p], t);
      case OpRefundPayment(p, now) => SettledAfterWrite(db.payments, p, after.payments[p], t);
      case OpRemovePayment(p) => assert SettledPart(after.payments, t) == SettledPart(db.payments, t);
      case OpRemoveTransaction(u) =>
        if u == t {
          assert SettledPart(after.payments, t) == map[];
        } else {
          assert SettledPart(after.payments, t) == SettledPart(db.payments, t);
        }
      case _ =>
    }
  }

  /** On a completed sale only two calls move settled money, each by exactly
      the amount of the payment it captures or refunds. */
  lemma SettledMoneyIsConserved(db: Db, op: Op, t: Id)
    requires Valid(db)
    requires t in db.transactions && db.transactions[t].status.COMPLETED?
    ensures var before, after := db.payments, Next(db, op).payments;
            var moved := Settled(Next(db, op), t) - Settled(db, t);
            || moved == 0.0
            || (op.OpUpdatePayment? && !Counts(before, op.p, t) && Counts(after, op.p, t)
                && moved == after[op.p].amount)
            || (op.OpRefundPayment? && Counts(before, op.p, t) && !Counts(after, op.p, t)
                && moved == -before[op.p].amount)
  {
    StepSettled(db, op, t);
  }

  ghost function SettledByRun(db: Db, ops: seq<Op>, t: Id): real
    decreases |ops|
  {
    if ops == [] then 0.0 else SettledBy(db, ops[0], t) + SettledByRun(Next(db, ops[0]), ops[1..], t)
  }

  /** Over a whole run the settled money of a transaction is what the run
      captured for it, less what it refunded: nothing is created or lost. */
  lemma {:induction false} SettledMoneyOverRun(db: Db, ops: seq<Op>, t: Id)
    requires Valid(db)
    ensures Settled(Run(db, ops), t) == Settled(db, t) + SettledByRun(db, ops, t)
    decreases |ops|
  {
    if ops != [] {
      StepSettled(db, ops[0], t);
      StepValid(db, ops[0]);
      SettledMoneyOverRun(Next(db, ops[0]), ops[1..], t);
    }
  }

  // ---------- is a completed sale covered by settled money? ----------

  lemma PaidIsSettledPlusUnsettled(db: Db, t: Id)
    ensures Paid(db, t) == Settled(db, t) + Unsettled(db, t)
  {
    TotalDisjoint(SettledPart(db.payments, t), UnsettledPart(db.payments, t));
    assert Amounts(PaymentsOf(db.payments, t)) == SettledPart(db.payments, t) + UnsettledPart(db.payments, t);
  }

  /** `complete` lets a sale through that its settled payments do not cover,
      exactly when payments that never settled make up the difference. */
  lemma CompletedUncoveredExactly(db: Db, t: Id, now: int)
    ensures (CompleteTransaction(db, t, now).Ok? && Settled(db, t) < Due(db, t))
            <==> (t in db.transactions && 0.0 < Due(db, t) - Settled(db, t) <= Unsettled(db, t))
  {
    PaidIsSettledPlusUnsettled(db, t);
  }

  /** One product, one sale of it at 10, one payment that failed. */
  const SAMPLE_LINES := [LineItemDto(0, 1.0, 10.0)]

  const SAMPLE_CALLS: seq<Op> := [
    OpCreateProduct(10.0),
    OpCreateTransaction(CreateTransactionDto(None, None, Some(SAMPLE_LINES))),
    OpCreatePayment(CreatePaymentDto(1, 10.0, CARD)),
    OpUpdatePayment(3, UpdatePaymentDto(Keep, Keep, Keep, Put(PaymentStatus.FAILED)))]

  const SAMPLE_DB := Db(
    map[0 := 10.0],
    map[1 := Transaction(TransactionStatus.PENDING, None, None, None)],
    map[2 := LineItem(1, 0, 1.0, 10.0)],
    map[3 := Payment(1, 10.0, CARD, PaymentStatus.FAILED, None)],
    4)

  lemma {:induction false} RunOneMore(db: Db, ops: seq<Op>, op: Op)
    ensures Run(db, ops + [op]) == Next(Run(db, ops), op)
    decreases |ops|
  {
    if ops == [] {
      assert [op][1..] == [];
    } else {
      assert (ops + [op])[1..] == ops[1..] + [op];
      RunOneMore(Next(db, ops[0]), ops[1..], op);
    }
  }

  lemma SampleCreated(db: Db)
    requires db == EMPTY_DB.(products := map[0 := 10.0], next := 1)
    ensures Next(db, SAMPLE_CALLS[1]) == SAMPLE_DB.(payments := map[], next := 3)
  {
    Existence.AllFoundExactly(db.products.Keys, ProductIds(SAMPLE_LINES));
    assert NewLines(1, 2, SAMPLE_LINES) == map[2 := LineItem(1, 0, 1.0, 10.0)] by {
      assert NewLine(1, 2, SAMPLE_LINES, 2) == LineItem(1, 0, 1.0, 10.0);
    }
  }

  lemma SampleReachable()
    ensures Run(EMPTY_DB, SAMPLE_CALLS) == SAMPLE_DB
  {
    var a, b, c, d := SAMPLE_CALLS[0], SAMPLE_CALLS[1], SAMPLE_CALLS[2], SAMPLE_CALLS[3];
    assert SAMPLE_CALLS == [a] + [b] + [c] + [d];
    assert [] + [a] == [a];
    RunOneMore(EMPTY_DB, [], a);
    RunOneMore(EMPTY_DB, [a], b);
    RunOneMore(EMPTY_DB, [a] + [b], c);
    RunOneMore(EMPTY_DB, [a] + [b] + [c], d);
    SampleCreated(Next(EMPTY_DB, a));
  }

  lemma SingleRow(k: Id, v: real)
    ensures Total(map[k := v]) == v
  {
    TotalPutIn(map[], k, v);
    assert map[][k := v] == map[k := v];
  }

  lemma SampleTotals()
    ensures Due(SAMPLE_DB, 1) == 10.0 && Paid(SAMPLE_DB, 1) == 10.0 && Settled(SAMPLE_DB, 1) == 0.0
  {
    var lines, payments := SAMPLE_DB.lineItems, SAMPLE_DB.payments;
    SingleRow(2, 10.0);
    SingleRow(3, 10.0);
    assert LinesOf(lines, 1) == lines;
    assert LineAmounts(lines) == map[2 := 10.0];
    assert PaymentsOf(payments, 1) == payments;
    assert Amounts(payments) == map[3 := 10.0];
    assert SettledPart(payments, 1) == map[];
  }

  /** A sale of 10 completes, in a reachable state, with no settled money at all:
      its one payment failed, and is counted all the same. */
  lemma CompletedWithoutMoney(now: int)
    ensures var final := Run(EMPTY_DB, SAMPLE_CALLS + [OpCompleteTransaction(1, now)]);
            1 in final.transactions && final.transactions[1].status.COMPLETED?
            && Due(final, 1) == 10.0 && Settled(final, 1) == 0.0
  {
    SampleReachable();
    RunOneMore(EMPTY_DB, SAMPLE_CALLS, OpCompleteTransaction(1, now));
    SampleTotals();
    CompleteExactlyWhenPaid(SAMPLE_DB, 1, now);
  }

  /** The request bodies pass validation: a payment's amount is positive. */
  ghost predicate PositiveAmounts(op: Op) {
    match op
    case OpCreatePayment(dto) => dto.amount > 0.0
    case OpUpdatePayment(_, dto) => dto.amount.Put? ==> dto.amount.value > 0.0
    case _ => true
  }

  ghost predicate AllPositive(db: Db) {
    forall k :: k in db.payments ==> db.payments[k].amount > 0.0
  }

  /** No call of the run refunds a payment of `t`. */
  ghost predicate NoRefundOf(db: Db, ops: seq<Op>, t: Id)
    decreases |ops|
  {
    ops != [] ==>
      && (ops[0].OpRefundPayment? ==> !Counts(db.payments, ops[0].p, t))
      && NoRefundOf(Next(db, ops[0]), ops[1..], t)
  }

  lemma StepAllPositive(db: Db, op: Op)
    requires AllPositive(db) && PositiveAmounts(op)
    ensures AllPositive(Next(db, op))
  {
  }

  lemma CoveredStep(db: Db, op: Op, t: Id)
    requires Valid(db) && AllPositive(db) && PositiveAmounts(op)
    requires t in db.transactions && db.transactions[t].status.COMPLETED?
    requires op.OpRefundPayment? ==> !Counts(db.payments, op.p, t)
    ensures SettledBy(db, op, t) >= 0.0
  {
  }

  /** A completed sale that its settled payments cover stays covered, with a
      balance of zero or less, for as long as none of its payments is refunded:
      removing or patching the others cannot reopen it. */
  lemma {:induction false} CoveredUntilRefund(db: Db, ops: seq<Op>, t: Id)
    requires Valid(db) && AllPositive(db)
    requires t in db.transactions && db.transactions[t].status.COMPLETED?
    requires Due(db, t) <= Settled(db, t)
    requires forall i :: 0 <= i < |ops| ==> PositiveAmounts(ops[i])
    requires NoRefundOf(db, ops, t)
    ensures var final := Run(db, ops);
            t in final.transactions && Due(final, t) <= Settled(final, t) && Due(final, t) - Paid(final, t) <= 0.0
    decreases |ops|
  {
    if ops == [] {
      PaidIsSettledPlusUnsettled(db, t);
      TotalNonNegative(UnsettledPart(db.payments, t));
    } else {
      var after := Next(db, ops[0]);
      StepValid(db, ops[0]);
      StepAllPositive(db, ops[0]);
      StepSettled(db, ops[0], t);
      CoveredStep(db, ops[0], t);
      CompletedSaleIsFrozen(db, [ops[0]], t);
      assert Run(db, [ops[0]]) == after;
      CoveredUntilRefund(after, ops[1..], t);
    }
  }
}
