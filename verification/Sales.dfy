/** The sales tables and what one call of the transactions or payments service
    does to them: transactions, their line items, their payments, and the part
    of the products table they depend on.  Money is exact. */
module Sales {
  import opened Wrappers
  import opened Sums
  import opened Existence

  type Id = nat

  datatype TransactionStatus = PENDING | COMPLETED | CANCELLED | REFUNDED
  datatype PaymentStatus = PENDING | COMPLETED | FAILED | REFUNDED
  datatype PaymentMethod = CASH | CARD | TRANSFER | MOBILE

  datatype Transaction = Transaction(
    status: TransactionStatus,
    taxAmount: Option<real>,
    discountAmount: Option<real>,
    completedAt: Option<int>)

  datatype LineItem = LineItem(transactionId: Id, productId: Id, quantity: real, unitPrice: real)

  datatype Payment = Payment(
    transactionId: Id,
    amount: real,
    payMethod: PaymentMethod,
    status: PaymentStatus,
    refundedAt: Option<int>)

  /** The tables, and the next id: an id is given out once and never again. */
  datatype Db = Db(
    products: map<Id, real>,
    transactions: map<Id, Transaction>,
    lineItems: map<Id, LineItem>,
    payments: map<Id, Payment>,
    next: Id)

  const EMPTY_DB := Db(map[], map[], map[], map[], 0)

  // ---------- request bodies ----------

  datatype LineItemDto = LineItemDto(productId: Id, quantity: real, unitPrice: real)

  datatype CreateTransactionDto = CreateTransactionDto(
    taxAmount: Option<real>,
    discountAmount: Option<real>,
    lineItems: Option<seq<LineItemDto>>)

  datatype UpdateTransactionDto = UpdateTransactionDto(
    status: Patch<TransactionStatus>,
    taxAmount: Patch<Option<real>>,
    discountAmount: Patch<Option<real>>,
    lineItems: Option<seq<LineItemDto>>)

  datatype CreatePaymentDto = CreatePaymentDto(transactionId: Id, amount: real, payMethod: PaymentMethod)

  datatype UpdatePaymentDto = UpdatePaymentDto(
    transactionId: Patch<Id>,
    amount: Patch<real>,
    payMethod: Patch<PaymentMethod>,
    status: Patch<PaymentStatus>)

  // ---------- views of the tables ----------

  function LinesOf(lineItems: map<Id, LineItem>, t: Id): map<Id, LineItem> {
    map k | k in lineItems && lineItems[k].transactionId == t :: lineItems[k]
  }

  function LinesOfOthers(lineItems: map<Id, LineItem>, t: Id): map<Id, LineItem> {
    map k | k in lineItems && lineItems[k].transactionId != t :: lineItems[k]
  }

  function PaymentsOf(payments: map<Id, Payment>, t: Id): map<Id, Payment> {
    map k | k in payments && payments[k].transactionId == t :: payments[k]
  }

  function PaymentsOfOthers(payments: map<Id, Payment>, t: Id): map<Id, Payment> {
    map k | k in payments && payments[k].transactionId != t :: payments[k]
  }

  function LineAmount(line: LineItem): real {
    line.quantity * line.unitPrice
  }

  function LineAmounts(lines: map<Id, LineItem>): map<Id, real> {
    map k | k in lines :: LineAmount(lines[k])
  }

  function Amounts(payments: map<Id, Payment>): map<Id, real> {
    map k | k in payments :: payments[k].amount
  }

  /** What a transaction with these lines costs. */
  ghost function TotalDue(tx: Transaction, lines: map<Id, LineItem>): real {
    Total(LineAmounts(lines)) + tx.taxAmount.GetOr(0.0) - tx.discountAmount.GetOr(0.0)
  }

  /** What `calculateTotal` computes as the total of transaction `t`. */
  ghost function Due(db: Db, t: Id): real
    requires t in db.transactions
  {
    TotalDue(db.transactions[t], LinesOf(db.lineItems, t))
  }

  /** What `calculateTotal` computes as paid: payments of every status count. */
  ghost function Paid(db: Db, t: Id): real {
    Total(Amounts(PaymentsOf(db.payments, t)))
  }

  // ---------- transactions ----------

  function ProductIds(items: seq<LineItemDto>): (ids: seq<Id>)
    ensures |ids| == |items|
  {
    seq(|items|, i requires 0 <= i < |items| => items[i].productId)
  }

  /** The line items the request may not write. */
  predicate RefusedLines(products: map<Id, real>, items: Option<seq<LineItemDto>>) {
    items.Some? && |items.value| > 0 && !AllFound(products.Keys, ProductIds(items.value))
  }

  /** The row inserted under id `k` when the first item gets id `first`. */
  function NewLine(t: Id, first: Id, items: seq<LineItemDto>, k: Id): LineItem
    requires first <= k < first + |items|
  {
    var item := items[k - first];
    LineItem(t, item.productId, item.quantity, item.unitPrice)
  }

  /** The rows a nested create inserts, under consecutive fresh ids. */
  function NewLines(t: Id, first: Id, items: seq<LineItemDto>): map<Id, LineItem> {
    map k: Id | first <= k < first + |items| :: NewLine(t, first, items, k)
  }

  function CreateTransaction(db: Db, dto: CreateTransactionDto): Result<Db> {
    if RefusedLines(db.products, dto.lineItems) then Err(BadRequest)
    else
      var items := dto.lineItems.GetOr([]);
      var tx := Transaction(TransactionStatus.PENDING, dto.taxAmount, dto.discountAmount, None);
      Ok(db.(
        transactions := db.transactions[db.next := tx],
        lineItems := db.lineItems + NewLines(db.next, db.next + 1, items),
        next := db.next + 1 + |items|))
  }

  function PatchTransaction(tx: Transaction, dto: UpdateTransactionDto): Transaction {
    tx.(status := dto.status.On(tx.status),
        taxAmount := dto.taxAmount.On(tx.taxAmount),
        discountAmount := dto.discountAmount.On(tx.discountAmount))
  }

  function UpdateTransaction(db: Db, t: Id, dto: UpdateTransactionDto): Result<Db> {
    if t !in db.transactions then Err(NotFound)
    else if db.transactions[t].status.COMPLETED? then Err(BadRequest)
    else if RefusedLines(db.products, dto.lineItems) then Err(BadRequest)
    else
      var items := dto.lineItems.GetOr([]);
      var kept := if |items| > 0 then LinesOfOthers(db.lineItems, t) else db.lineItems;
      Ok(db.(
        transactions := db.transactions[t := PatchTransaction(db.transactions[t], dto)],
        lineItems := kept + NewLines(t, db.next, items),
        next := db.next + |items|))
  }

  function CancelTransaction(db: Db, t: Id): Result<Db> {
    if t !in db.transactions then Err(NotFound)
    else if db.transactions[t].status.COMPLETED? then Err(BadRequest)
    else
      var tx := db.transactions[t].(status := TransactionStatus.CANCELLED);
      Ok(db.(transactions := db.transactions[t := tx]))
  }

  /** The status before the call does not matter, only the balance does. */
  ghost function CompleteTransaction(db: Db, t: Id, now: int): Result<Db> {
    if t !in db.transactions then Err(NotFound)
    else if Due(db, t) - Paid(db, t) > 0.0 then Err(BadRequest)
    else
      var tx := db.transactions[t].(status := TransactionStatus.COMPLETED, completedAt := Some(now));
      Ok(db.(transactions := db.transactions[t := tx]))
  }

  function RemoveTransaction(db: Db, t: Id): Result<Db> {
    if t !in db.transactions then Err(NotFound)
    else if db.transactions[t].status.COMPLETED? then Err(BadRequest)
    else
      Ok(db.(
        lineItems := LinesOfOthers(db.lineItems, t),
        payments := PaymentsOfOthers(db.payments, t),
        transactions := db.transactions - {t}))
  }

  // ---------- payments ----------

  function CreatePayment(db: Db, dto: CreatePaymentDto): Result<Db> {
    if dto.transactionId !in db.transactions then Err(BadRequest)
    else
      var p := Payment(dto.transactionId, dto.amount, dto.payMethod, PaymentStatus.PENDING, None);
      Ok(db.(payments := db.payments[db.next := p], next := db.next + 1))
  }

  function PatchPayment(p: Payment, dto: UpdatePaymentDto): Payment {
    p.(transactionId := dto.transactionId.On(p.transactionId),
       amount := dto.amount.On(p.amount),
       payMethod := dto.payMethod.On(p.payMethod),
       status := dto.status.On(p.status))
  }

  /** A patch may move the payment to another transaction; the service does not
      look that transaction up, the foreign key of the database does. */
  function UpdatePayment(db: Db, p: Id, dto: UpdatePaymentDto): Result<Db> {
    if p !in db.payments then Err(NotFound)
    else if db.payments[p].status.COMPLETED? then Err(BadRequest)
    else if db.payments[p].status.REFUNDED? then Err(BadRequest)
    else
      var updated := PatchPayment(db.payments[p], dto);
      if updated.transactionId !in db.transactions then Err(ForeignKey)
      else Ok(db.(payments := db.payments[p := updated]))
  }

  function RefundPayment(db: Db, p: Id, now: int): Result<Db> {
    if p !in db.payments then Err(NotFound)
    else if !db.payments[p].status.COMPLETED? then Err(BadRequest)
    else
      var refunded := db.payments[p].(status := PaymentStatus.REFUNDED, refundedAt := Some(now));
      Ok(db.(payments := db.payments[p := refunded]))
  }

  function RemovePayment(db: Db, p: Id): Result<Db> {
    if p !in db.payments then Err(NotFound)
    else if db.payments[p].status.COMPLETED? then Err(BadRequest)
    else Ok(db.(payments := db.payments - {p}))
  }

  // ---------- products, as far as sales can see them ----------

  function CreateProduct(db: Db, price: real): Result<Db> {
    Ok(db.(products := db.products[db.next := price], next := db.next + 1))
  }

  function RepriceProduct(db: Db, id: Id, price: real): Result<Db> {
    if id !in db.products then Err(NotFound)
    else Ok(db.(products := db.products[id := price]))
  }

  /** A hard delete; the database refuses it while a line item names the product. */
  function DeleteProduct(db: Db, id: Id): Result<Db> {
    if id !in db.products then Err(NotFound)
    else if exists k :: k in db.lineItems && db.lineItems[k].productId == id then Err(ForeignKey)
    else Ok(db.(products := db.products - {id}))
  }

  // ---------- runs ----------

  datatype Op =
    | OpCreateTransaction(newTransaction: CreateTransactionDto)
    | OpUpdateTransaction(t: Id, txPatch: UpdateTransactionDto)
    | OpCancelTransaction(t: Id)
    | OpCompleteTransaction(t: Id, now: int)
    | OpRemoveTransaction(t: Id)
    | OpCreatePayment(newPayment: CreatePaymentDto)
    | OpUpdatePayment(p: Id, payPatch: UpdatePaymentDto)
    | OpRefundPayment(p: Id, now: int)
    | OpRemovePayment(p: Id)
    | OpCreateProduct(price: real)
    | OpRepriceProduct(product: Id, price: real)
    | OpDeleteProduct(product: Id)

  ghost function Call(db: Db, op: Op): Result<Db> {
    match op
    case OpCreateTransaction(dto) => CreateTransaction(db, dto)
    case OpUpdateTransaction(t, dto) => UpdateTransaction(db, t, dto)
    case OpCancelTransaction(t) => CancelTransaction(db, t)
    case OpCompleteTransaction(t, now) => CompleteTransaction(db, t, now)
    case OpRemoveTransaction(t) => RemoveTransaction(db, t)
    case OpCreatePayment(dto) => CreatePayment(db, dto)
    case OpUpdatePayment(p, dto) => UpdatePayment(db, p, dto)
    case OpRefundPayment(p, now) => RefundPayment(db, p, now)
    case OpRemovePayment(p) => RemovePayment(db, p)
    case OpCreateProduct(price) => CreateProduct(db, price)
    case OpRepriceProduct(id, price) => RepriceProduct(db, id, price)
    case OpDeleteProduct(id) => DeleteProduct(db, id)
  }

  ghost function Next(db: Db, op: Op): Db {
    After(db, Call(db, op))
  }

  ghost function Run(db: Db, ops: seq<Op>): Db
    decreases |ops|
  {
    if ops == [] then db else Run(Next(db, ops[0]), ops[1..])
  }
}
