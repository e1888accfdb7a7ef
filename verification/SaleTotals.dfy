/** How the total, the payments and the balance of a sale depend on its rows. */
module SaleTotals {
  import opened Wrappers
  import opened Sums
  import opened Sales

  /** The balance `calculateTotal` returns. */
  ghost function Balance(db: Db, t: Id): real
    requires t in db.transactions
  {
    Due(db, t) - Paid(db, t)
  }

  function WithLine(db: Db, k: Id, line: LineItem): Db {
    db.(lineItems := db.lineItems[k := line])
  }

  function WithPayment(db: Db, k: Id, payment: Payment): Db {
    db.(payments := db.payments[k := payment])
  }

  function WithTerms(db: Db, t: Id, tax: Option<real>, discount: Option<real>): Db
    requires t in db.transactions
  {
    db.(transactions := db.transactions[t := db.transactions[t].(taxAmount := tax, discountAmount := discount)])
  }

  /** A sale without lines, tax and discount is free, and one without payments unpaid. */
  lemma NothingIsFree(db: Db, t: Id)
    requires t in db.transactions && db.transactions[t].taxAmount.None? && db.transactions[t].discountAmount.None?
    requires forall k :: k in db.lineItems ==> db.lineItems[k].transactionId != t
    ensures Due(db, t) == 0.0
    ensures (forall k :: k in db.payments ==> db.payments[k].transactionId != t) ==> Paid(db, t) == 0.0
  {
    assert LinesOf(db.lineItems, t) == map[];
    if forall k :: k in db.payments ==> db.payments[k].transactionId != t {
      assert PaymentsOf(db.payments, t) == map[];
    }
  }

  /** One more line of `q` at price `p` raises the total of its sale by `q * p`, and of
      no other. */
  lemma LineRaisesTotal(db: Db, t: Id, k: Id, line: LineItem)
    requires t in db.transactions && k !in db.lineItems
    ensures Due(WithLine(db, k, line), t)
            == Due(db, t) + (if line.transactionId == t then line.quantity * line.unitPrice else 0.0)
  {
    var lines := LinesOf(db.lineItems, t);
    if line.transactionId == t {
      assert LinesOf(db.lineItems[k := line], t) == lines[k := line];
      assert LineAmounts(lines[k := line]) == LineAmounts(lines)[k := LineAmount(line)];
      TotalPutIn(LineAmounts(lines), k, LineAmount(line));
    } else {
      assert LinesOf(db.lineItems[k := line], t) == lines;
    }
  }

  /** Tax raises the total by as much, and a discount lowers it by as much; neither is
      the same as zero. */
  lemma TermsMoveTotal(db: Db, t: Id, tax: Option<real>, discount: Option<real>)
    requires t in db.transactions
    ensures Due(WithTerms(db, t, tax, discount), t)
            == Due(WithTerms(db, t, None, None), t)
               + (if tax.Some? then tax.value else 0.0) - (if discount.Some? then discount.value else 0.0)
  {
  }

  /** A payment lowers the balance of its sale by its amount, whatever its status, and
      of no other. */
  lemma PaymentLowersBalance(db: Db, t: Id, k: Id, payment: Payment)
    requires t in db.transactions && k !in db.payments
    ensures Balance(WithPayment(db, k, payment), t)
            == Balance(db, t) - (if payment.transactionId == t then payment.amount else 0.0)
  {
    var rows := PaymentsOf(db.payments, t);
    if payment.transactionId == t {
      assert PaymentsOf(db.payments[k := payment], t) == rows[k := payment];
      assert Amounts(rows[k := payment]) == Amounts(rows)[k := payment.amount];
      TotalPutIn(Amounts(rows), k, payment.amount);
    } else {
      assert PaymentsOf(db.payments[k := payment], t) == rows;
    }
  }
}
