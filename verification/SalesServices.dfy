/** The transactions and payments services, working step by step on the tables
    of one database client.  Each method is tied to the call it implements. */
module SalesServices {
  import opened Wrappers
  import opened Sums
  import opened Existence
  import opened Sales
  import opened SalesIntegrity
  import opened FrozenSale

  lemma OneMoreLine(t: Id, first: Id, items: seq<LineItemDto>, i: nat)
    requires i < |items|
    ensures NewLines(t, first, items[..i + 1])
            == NewLines(t, first, items[..i])[first + i := NewLine(t, first, items, first + i)]
  {
  }

  lemma NoLines(t: Id, first: Id)
    ensures NewLines(t, first, []) == map[]
  {
  }

  /** The database client: the tables, updated in place. */
  class PrismaService {
    var products: map<Id, real>
    var transactions: map<Id, Transaction>
    var lineItems: map<Id, LineItem>
    var payments: map<Id, Payment>
    var next: Id

    constructor ()
      ensures Snapshot() == EMPTY_DB
    {
      products, transactions, lineItems, payments, next := map[], map[], map[], map[], 0;
    }

    function Snapshot(): Db
      reads this
    {
      Db(products, transactions, lineItems, payments, next)
    }

    /** Inserts one row per item, for transaction `t`. */
    method CreateLineItems(t: Id, items: seq<LineItemDto>)
      modifies this
      ensures Snapshot() == old(Snapshot()).(
                lineItems := old(lineItems) + NewLines(t, old(next), items),
                next := old(next) + |items|)
      ensures Writes(old(lineItems), lineItems, t, old(next), items)
    {
      hide NewLines, Writes;
      NoLines(t, next);
      assert items[..0] == [];
      NewLinesWrite(lineItems, t, next, items);
      var i := 0;
      while i < |items|
        invariant 0 <= i <= |items|
        invariant next == old(next) + i
        invariant products == old(products) && transactions == old(transactions) && payments == old(payments)
        invariant lineItems == old(lineItems) + NewLines(t, old(next), items[..i])
      {
        var item := items[i];
        OneMoreLine(t, old(next), items, i);
        lineItems := lineItems[next := LineItem(t, item.productId, item.quantity, item.unitPrice)];
        next := next + 1;
        i := i + 1;
      }
      assert items[..|items|] == items;
    }
  }

  /** Line items that may be written: each names an existing product, and no two the
      same. */
  ghost predicate Accepted(products: map<Id, real>, dtos: seq<LineItemDto>) {
    && (forall i :: 0 <= i < |dtos| ==> dtos[i].productId in products)
    && (forall i, j :: 0 <= i < j < |dtos| ==> dtos[i].productId != dtos[j].productId)
  }

  lemma AcceptedExactly(products: map<Id, real>, items: Option<seq<LineItemDto>>)
    ensures Accepted(products, items.GetOr([])) <==> !RefusedLines(products, items)
  {
    if items.Some? {
      var ids := ProductIds(items.value);
      AcceptedIds(products.Keys, ids);
      assert forall i :: 0 <= i < |ids| ==> ids[i] == items.value[i].productId;
    }
  }

  /** The rows are those there were, and one for each item, under ids from `first` on. */
  ghost predicate Writes(before: map<Id, LineItem>, after: map<Id, LineItem>, t: Id, first: Id,
                         dtos: seq<LineItemDto>)
  {
    && (forall k :: k in after <==> k in before || first <= k < first + |dtos|)
    && (forall k :: k in before && !(first <= k < first + |dtos|) ==> after[k] == before[k])
    && (forall i :: 0 <= i < |dtos| ==>
          after[first + i] == LineItem(t, dtos[i].productId, dtos[i].quantity, dtos[i].unitPrice))
  }

  lemma NewLinesWrite(before: map<Id, LineItem>, t: Id, first: Id, dtos: seq<LineItemDto>)
    ensures Writes(before, before + NewLines(t, first, dtos), t, first, dtos)
  {
  }

  ghost predicate PatchedTransaction(dto: UpdateTransactionDto, before: Transaction, after: Transaction) {
    && Patched(dto.status, before.status, after.status)
    && Patched(dto.taxAmount, before.taxAmount, after.taxAmount)
    && Patched(dto.discountAmount, before.discountAmount, after.discountAmount)
    && after.completedAt == before.completedAt
  }

  /** What creating a transaction comes to: a pending row and a row for each line item,
      or a refusal of the line items. */
  ghost predicate Creates(before: Db, dto: CreateTransactionDto, r: Result<Id>, after: Db) {
    && (r.Ok? <==> Accepted(before.products, dto.lineItems.GetOr([])))
    && (r.Err? ==> r.error == BadRequest && after == before)
    && (r.Ok? ==>
          && after == before.(
               transactions := before.transactions[r.value :=
                 Transaction(TransactionStatus.PENDING, dto.taxAmount, dto.discountAmount, None)],
               lineItems := after.lineItems, next := after.next)
          && Writes(before.lineItems, after.lineItems, r.value, r.value + 1, dto.lineItems.GetOr([])))
  }

  lemma CreateTransactionCreates(db: Db, dto: CreateTransactionDto)
    ensures match CreateTransaction(db, dto)
            case Ok(after) => Creates(db, dto, Ok(db.next), after)
            case Err(e) => Creates(db, dto, Err(e), db)
  {
    hide RefusedLines, Accepted, Writes, NewLines;
    AcceptedExactly(db.products, dto.lineItems);
    NewLinesWrite(db.lineItems, db.next, db.next + 1, dto.lineItems.GetOr([]));
  }

  /** What updating one comes to: the fields of the body, and, when it has line items,
      rows for these in place of the sale's own. */
  ghost predicate Updates(before: Db, t: Id, dto: UpdateTransactionDto, r: Result<()>, after: Db) {
    var items := dto.lineItems.GetOr([]);
    && (r.Ok? <==> && t in before.transactions && before.transactions[t].status != TransactionStatus.COMPLETED
                   && Accepted(before.products, items))
    && (r.Err? ==> r.error == (if t in before.transactions then BadRequest else NotFound) && after == before)
    && (r.Ok? ==>
          && t in after.transactions
          && after == before.(
               transactions := before.transactions[t := after.transactions[t]],
               lineItems := after.lineItems, next := after.next)
          && PatchedTransaction(dto, before.transactions[t], after.transactions[t])
          && var others := map k | k in before.lineItems && before.lineItems[k].transactionId != t
                             :: before.lineItems[k];
             Writes(if items == [] then before.lineItems else others, after.lineItems, t, before.next, items))
  }

  lemma UpdateTransactionUpdates(db: Db, t: Id, dto: UpdateTransactionDto)
    ensures match UpdateTransaction(db, t, dto)
            case Ok(after) => Updates(db, t, dto, Ok(()), after)
            case Err(e) => Updates(db, t, dto, Err(e), db)
  {
    hide RefusedLines, Accepted, Writes, NewLines;
    AcceptedExactly(db.products, dto.lineItems);
    var items := dto.lineItems.GetOr([]);
    var others := map k | k in db.lineItems && db.lineItems[k].transactionId != t :: db.lineItems[k];
    NewLinesWrite(if items == [] then db.lineItems else others, t, db.next, items);
    assert others == LinesOfOthers(db.lineItems, t);
  }

  ghost predicate PatchedPayment(dto: UpdatePaymentDto, before: Payment, after: Payment) {
    && Patched(dto.transactionId, before.transactionId, after.transactionId)
    && Patched(dto.amount, before.amount, after.amount)
    && Patched(dto.payMethod, before.payMethod, after.payMethod)
    && Patched(dto.status, before.status, after.status)
    && after.refundedAt == before.refundedAt
  }

  datatype Totals = Totals(
    status: TransactionStatus,
    subtotal: real,
    tax: real,
    discount: real,
    total: real,
    totalPaid: real,
    balance: real)

  class TransactionsService {
    const prisma: PrismaService

    constructor (prisma: PrismaService)
      ensures this.prisma == prisma
    {
      this.prisma := prisma;
    }

    method Create(dto: CreateTransactionDto) returns (r: Result<Id>)
      modifies prisma
      ensures var call := CreateTransaction(old(prisma.Snapshot()), dto);
              Reports(r, call) && prisma.Snapshot() == After(old(prisma.Snapshot()), call)
      ensures Keeps(old(prisma.Snapshot()), prisma.Snapshot())
      ensures r.Ok? ==> r.value == old(prisma.next)
      ensures Creates(old(prisma.Snapshot()), dto, r, prisma.Snapshot())
    {
      hide Keeps, Creates, FindMany, Writes, Accepted, NewLines;
      StepKeeps(prisma.Snapshot(), OpCreateTransaction(dto));
      CreateTransactionCreates(prisma.Snapshot(), dto);
      NoLines(prisma.next, prisma.next + 1);
      if dto.lineItems.Some? && |dto.lineItems.value| > 0 {
        var productIds := ProductIds(dto.lineItems.value);
        var products := FindMany(prisma.products.Keys, productIds);
        if |products| != |productIds| {
          return Err(BadRequest);
        }
      }
      var t := prisma.next;
      var tx := Transaction(TransactionStatus.PENDING, dto.taxAmount, dto.discountAmount, None);
      prisma.transactions := prisma.transactions[t := tx];
      prisma.next := t + 1;
      if dto.lineItems.Some? {
        prisma.CreateLineItems(t, dto.lineItems.value);
      }
      r := Ok(t);
    }

    /** Adds up the line rows in whatever order the database returns them. */
    static method AddUpLines(rows: map<Id, LineItem>) returns (subtotal: real)
      ensures subtotal == Total(LineAmounts(rows))
    {
      var lines := rows;
      subtotal := 0.0;
      while lines != map[]
        invariant subtotal + Total(LineAmounts(lines)) == Total(LineAmounts(rows))
        decreases |lines|
      {
        var k :| k in lines;
        TotalTakeOut(LineAmounts(lines), k);
        assert LineAmounts(lines - {k}) == LineAmounts(lines) - {k};
        var itemTotal := lines[k].quantity * lines[k].unitPrice;
        subtotal := subtotal + itemTotal;
        lines := lines - {k};
      }
    }

    static method AddUpPayments(rows: map<Id, Payment>) returns (totalPaid: real)
      ensures totalPaid == Total(Amounts(rows))
    {
      var payments := rows;
      totalPaid := 0.0;
      while payments != map[]
        invariant totalPaid + Total(Amounts(payments)) == Total(Amounts(rows))
        decreases |payments|
      {
        var k :| k in payments;
        TotalTakeOut(Amounts(payments), k);
        assert Amounts(payments - {k}) == Amounts(payments) - {k};
        totalPaid := totalPaid + payments[k].amount;
        payments := payments - {k};
      }
    }

    /** What a transaction costs, what is paid, and the balance between them. */
    method CalculateTotal(t: Id) returns (r: Result<Totals>)
      ensures r.Ok? <==> t in prisma.transactions
      ensures r.Err? ==> r.error == NotFound
      ensures r.Ok? ==>
                && r.value.status == prisma.transactions[t].status
                && r.value.subtotal == Total(LineAmounts(LinesOf(prisma.lineItems, t)))
                && r.value.total == Due(prisma.Snapshot(), t)
                && r.value.totalPaid == Paid(prisma.Snapshot(), t)
                && r.value.balance == Due(prisma.Snapshot(), t) - Paid(prisma.Snapshot(), t)
      ensures r.Ok? ==>
                && var (tx, v) := (prisma.transactions[t], r.value);
                   && v.tax == (if tx.taxAmount.Some? then tx.taxAmount.value else 0.0)
                   && v.discount == (if tx.discountAmount.Some? then tx.discountAmount.value else 0.0)
                   && v.total + v.discount == v.subtotal + v.tax
                   && v.balance + v.totalPaid == v.total
    {
      if t !in prisma.transactions {
        return Err(NotFound);
      }
      var transaction := prisma.transactions[t];

      var subtotal := AddUpLines(LinesOf(prisma.lineItems, t));
      var tax := transaction.taxAmount.GetOr(0.0);
      var discount := transaction.discountAmount.GetOr(0.0);
      var total := subtotal + tax - discount;

      var totalPaid := AddUpPayments(PaymentsOf(prisma.payments, t));
      r := Ok(Totals(transaction.status, subtotal, tax, discount, total, totalPaid, total - totalPaid));
    }

    method Update(t: Id, dto: UpdateTransactionDto) returns (r: Result<()>)
      modifies prisma
      ensures var call := UpdateTransaction(old(prisma.Snapshot()), t, dto);
              Reports(r, call) && prisma.Snapshot() == After(old(prisma.Snapshot()), call)
      ensures Keeps(old(prisma.Snapshot()), prisma.Snapshot())
      ensures Updates(old(prisma.Snapshot()), t, dto, r, prisma.Snapshot())
    {
      hide Keeps, Updates, FindMany, Writes, Accepted, NewLines;
      StepKeeps(prisma.Snapshot(), OpUpdateTransaction(t, dto));
      UpdateTransactionUpdates(prisma.Snapshot(), t, dto);
      NoLines(t, prisma.next);
      if t !in prisma.transactions {
        return Err(NotFound);
      }
      if prisma.transactions[t].status.COMPLETED? {
        return Err(BadRequest);
      }
      if dto.lineItems.Some? && |dto.lineItems.value| > 0 {
        var productIds := ProductIds(dto.lineItems.value);
        var products := FindMany(prisma.products.Keys, productIds);
        if |products| != |productIds| {
          return Err(BadRequest);
        }
        prisma.lineItems := LinesOfOthers(prisma.lineItems, t);
      }
      prisma.transactions := prisma.transactions[t := PatchTransaction(prisma.transactions[t], dto)];
      if dto.lineItems.Some? {
        prisma.CreateLineItems(t, dto.lineItems.value);
      }
      r := Ok(());
    }

    method Cancel(t: Id) returns (r: Result<()>)
      modifies prisma
      ensures var call := CancelTransaction(old(prisma.Snapshot()), t);
              Reports(r, call) && prisma.Snapshot() == After(old(prisma.Snapshot()), call)
      ensures Keeps(old(prisma.Snapshot()), prisma.Snapshot())
      ensures var (before, after) := (old(prisma.Snapshot()), prisma.Snapshot());
              && (r.Ok? <==> t in before.transactions && before.transactions[t].status != TransactionStatus.COMPLETED)
              && (r.Err? ==> r.error == (if t in before.transactions then BadRequest else NotFound) && after == before)
              && (r.Ok? ==> after == before.(
                    transactions := before.transactions[t :=
                       before.transactions[t].(status := TransactionStatus.CANCELLED)]))
    {
      hide Keeps;
      StepKeeps(prisma.Snapshot(), OpCancelTransaction(t));
      if t !in prisma.transactions {
        return Err(NotFound);
      }
      if prisma.transactions[t].status.COMPLETED? {
        return Err(BadRequest);
      }
      var tx := prisma.transactions[t].(status := TransactionStatus.CANCELLED);
      prisma.transactions := prisma.transactions[t := tx];
      r := Ok(());
    }

    method Complete(t: Id, now: int) returns (r: Result<()>)
      modifies prisma
      ensures var call := CompleteTransaction(old(prisma.Snapshot()), t, now);
              Reports(r, call) && prisma.Snapshot() == After(old(prisma.Snapshot()), call)
      ensures Keeps(old(prisma.Snapshot()), prisma.Snapshot())
      ensures r.Ok? <==> old(t in prisma.transactions && Due(prisma.Snapshot(), t) <= Paid(prisma.Snapshot(), t))
      ensures r.Ok? ==>
                && t in prisma.transactions && prisma.transactions[t].status.COMPLETED?
                && Due(prisma.Snapshot(), t) == old(Due(prisma.Snapshot(), t))
                && Paid(prisma.Snapshot(), t) == old(Paid(prisma.Snapshot(), t))
      ensures var (before, after) := (old(prisma.Snapshot()), prisma.Snapshot());
              && (r.Ok? <==> t in before.transactions && Due(before, t) <= Paid(before, t))
              && (r.Err? ==> r.error == (if t in before.transactions then BadRequest else NotFound) && after == before)
              && (r.Ok? ==> after == before.(
                    transactions := before.transactions[t :=
                      before.transactions[t].(status := TransactionStatus.COMPLETED, completedAt := Some(now))]))
    {
      hide Keeps;
      StepKeeps(prisma.Snapshot(), OpCompleteTransaction(t, now));
      var totals := CalculateTotal(t);
      if totals.Err? {
        return Err(totals.error);
      }
      if totals.value.balance > 0.0 {
        return Err(BadRequest);
      }
      var tx := prisma.transactions[t].(status := TransactionStatus.COMPLETED, completedAt := Some(now));
      prisma.transactions := prisma.transactions[t := tx];
      r := Ok(());
    }

    method Remove(t: Id) returns (r: Result<()>)
      modifies prisma
      ensures var call := RemoveTransaction(old(prisma.Snapshot()), t);
              Reports(r, call) && prisma.Snapshot() == After(old(prisma.Snapshot()), call)
      ensures Keeps(old(prisma.Snapshot()), prisma.Snapshot())
      ensures var (before, after) := (old(prisma.Snapshot()), prisma.Snapshot());
              && (r.Ok? <==> t in before.transactions && before.transactions[t].status != TransactionStatus.COMPLETED)
              && (r.Err? ==> r.error == (if t in before.transactions then BadRequest else NotFound) && after == before)
              && (r.Ok? ==> after == before.(
                    transactions := before.transactions - {t},
                    lineItems := map k | k in before.lineItems && before.lineItems[k].transactionId != t
                                    :: before.lineItems[k],
                    payments := map k | k in before.payments && before.payments[k].transactionId != t
                                   :: before.payments[k]))
    {
      hide Keeps;
      StepKeeps(prisma.Snapshot(), OpRemoveTransaction(t));
      if t !in prisma.transactions {
        return Err(NotFound);
      }
      if prisma.transactions[t].status.COMPLETED? {
        return Err(BadRequest);
      }
      prisma.lineItems := LinesOfOthers(prisma.lineItems, t);
      prisma.payments := PaymentsOfOthers(prisma.payments, t);
      prisma.transactions := prisma.transactions - {t};
      r := Ok(());
    }
  }

  class PaymentsService {
    const prisma: PrismaService

    constructor (prisma: PrismaService)
      ensures this.prisma == prisma
    {
      this.prisma := prisma;
    }

    method Create(dto: CreatePaymentDto) returns (r: Result<Id>)
      modifies prisma
      ensures var call := CreatePayment(old(prisma.Snapshot()), dto);
              Reports(r, call) && prisma.Snapshot() == After(old(prisma.Snapshot()), call)
      ensures Keeps(old(prisma.Snapshot()), prisma.Snapshot())
      ensures r.Ok? ==> r.value == old(prisma.next)
      ensures var (before, after) := (old(prisma.Snapshot()), prisma.Snapshot());
              && (r.Ok? <==> dto.transactionId in before.transactions)
              && (r.Err? ==> r.error == BadRequest && after == before)
              && (r.Ok? ==> after == before.(
                    payments := before.payments[r.value :=
                      Payment(dto.transactionId, dto.amount, dto.payMethod, PaymentStatus.PENDING, None)],
                    next := after.next))
    {
      hide Keeps;
      StepKeeps(prisma.Snapshot(), OpCreatePayment(dto));
      if dto.transactionId !in prisma.transactions {
        return Err(BadRequest);
      }
      var p := prisma.next;
      var row := Payment(dto.transactionId, dto.amount, dto.payMethod, PaymentStatus.PENDING, None);
      prisma.payments := prisma.payments[p := row];
      prisma.next := p + 1;
      r := Ok(p);
    }

    method Update(p: Id, dto: UpdatePaymentDto) returns (r: Result<()>)
      modifies prisma
      ensures var call := UpdatePayment(old(prisma.Snapshot()), p, dto);
              Reports(r, call) && prisma.Snapshot() == After(old(prisma.Snapshot()), call)
      ensures Keeps(old(prisma.Snapshot()), prisma.Snapshot())
      ensures var (before, after) := (old(prisma.Snapshot()), prisma.Snapshot());
              && (p !in before.payments ==> r == Err(NotFound))
              && (p in before.payments ==>
                    var refused := before.payments[p].status in {PaymentStatus.COMPLETED, PaymentStatus.REFUNDED};
                    var lost := dto.transactionId.Put? && dto.transactionId.value !in before.transactions;
                    && (refused ==> r == Err(BadRequest))
                    && (!refused && ReferencesExist(before) ==> r == if lost then Err(ForeignKey) else Ok(())))
              && (r.Err? ==> after == before)
              && (r.Ok? ==>
                    && p in after.payments && after == before.(payments := before.payments[p := after.payments[p]])
                    && PatchedPayment(dto, before.payments[p], after.payments[p]))
    {
      hide Keeps;
      StepKeeps(prisma.Snapshot(), OpUpdatePayment(p, dto));
      if p !in prisma.payments {
        return Err(NotFound);
      }
      var payment := prisma.payments[p];
      if payment.status.COMPLETED? {
        return Err(BadRequest);
      }
      if payment.status.REFUNDED? {
        return Err(BadRequest);
      }
      var updated := PatchPayment(payment, dto);
      if updated.transactionId !in prisma.transactions {
        return Err(ForeignKey);
      }
      prisma.payments := prisma.payments[p := updated];
      r := Ok(());
    }

    method Refund(p: Id, now: int) returns (r: Result<()>)
      modifies prisma
      ensures var call := RefundPayment(old(prisma.Snapshot()), p, now);
              Reports(r, call) && prisma.Snapshot() == After(old(prisma.Snapshot()), call)
      ensures Keeps(old(prisma.Snapshot()), prisma.Snapshot())
      ensures var (before, after) := (old(prisma.Snapshot()), prisma.Snapshot());
              && (r.Ok? <==> p in before.payments && before.payments[p].status == PaymentStatus.COMPLETED)
              && (r.Err? ==> r.error == (if p in before.payments then BadRequest else NotFound) && after == before)
              && (r.Ok? ==> after == before.(
                    payments := before.payments[p :=
                       before.payments[p].(status := PaymentStatus.REFUNDED, refundedAt := Some(now))]))
    {
      hide Keeps;
      StepKeeps(prisma.Snapshot(), OpRefundPayment(p, now));
      if p !in prisma.payments {
        return Err(NotFound);
      }
      var payment := prisma.payments[p];
      if !payment.status.COMPLETED? {
        return Err(BadRequest);
      }
      var refunded := payment.(status := PaymentStatus.REFUNDED, refundedAt := Some(now));
      prisma.payments := prisma.payments[p := refunded];
      r := Ok(());
    }

    method Remove(p: Id) returns (r: Result<()>)
      modifies prisma
      ensures var call := RemovePayment(old(prisma.Snapshot()), p);
              Reports(r, call) && prisma.Snapshot() == After(old(prisma.Snapshot()), call)
      ensures Keeps(old(prisma.Snapshot()), prisma.Snapshot())
      ensures var (before, after) := (old(prisma.Snapshot()), prisma.Snapshot());
              && (r.Ok? <==> p in before.payments && before.payments[p].status != PaymentStatus.COMPLETED)
              && (r.Err? ==> r.error == (if p in before.payments then BadRequest else NotFound) && after == before)
              && (r.Ok? ==> after == before.(
                    payments := before.payments - {p}))
    {
      hide Keeps;
      StepKeeps(prisma.Snapshot(), OpRemovePayment(p));
      if p !in prisma.payments {
        return Err(NotFound);
      }
      if prisma.payments[p].status.COMPLETED? {
        return Err(BadRequest);
      }
      prisma.payments := prisma.payments - {p};
      r := Ok(());
    }
  }
}
