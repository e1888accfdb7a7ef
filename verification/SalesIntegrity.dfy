/** What every sequence of calls keeps true of the sales tables. */
module SalesIntegrity {
  import opened Wrappers
  import opened Existence
  import opened Sales

  /** Ids in use were given out earlier. */
  ghost predicate IdsGivenOut(db: Db) {
    && (forall k :: k in db.products ==> k < db.next)
    && (forall k :: k in db.transactions ==> k < db.next)
    && (forall k :: k in db.lineItems ==> k < db.next)
    && (forall k :: k in db.payments ==> k < db.next)
  }

  /** No line item and no payment names a row that does not exist. */
  ghost predicate ReferencesExist(db: Db) {
    && (forall k :: k in db.lineItems ==>
          db.lineItems[k].transactionId in db.transactions && db.lineItems[k].productId in db.products)
    && (forall k :: k in db.payments ==> db.payments[k].transactionId in db.transactions)
  }

  /** The lines of one transaction name pairwise distinct products. */
  ghost predicate DistinctProducts(lineItems: map<Id, LineItem>) {
    forall j, k :: j in lineItems && k in lineItems && j != k
                   && lineItems[j].transactionId == lineItems[k].transactionId
                   ==> lineItems[j].productId != lineItems[k].productId
  }

  ghost predicate Valid(db: Db) {
    IdsGivenOut(db) && ReferencesExist(db) && DistinctProducts(db.lineItems)
  }

  /** Accepted line items name existing products, each once. */
  lemma AcceptedLines(products: map<Id, real>, items: Option<seq<LineItemDto>>)
    requires !RefusedLines(products, items)
    ensures var dtos := items.GetOr([]);
            && (forall i :: 0 <= i < |dtos| ==> dtos[i].productId in products)
            && (forall i, j :: 0 <= i < j < |dtos| ==> dtos[i].productId != dtos[j].productId)
  {
    var dtos := items.GetOr([]);
    if |dtos| > 0 {
      AcceptedIds(products.Keys, ProductIds(dtos));
      assert forall i :: 0 <= i < |dtos| ==> ProductIds(dtos)[i] == dtos[i].productId;
    }
  }

  lemma CreateTransactionValid(db: Db, dto: CreateTransactionDto)
    requires Valid(db)
    ensures Valid(After(db, CreateTransaction(db, dto)))
  {
    if !RefusedLines(db.products, dto.lineItems) {
      AcceptedLines(db.products, dto.lineItems);
    }
  }

  lemma UpdateTransactionValid(db: Db, t: Id, dto: UpdateTransactionDto)
    requires Valid(db)
    ensures Valid(After(db, UpdateTransaction(db, t, dto)))
  {
    if !RefusedLines(db.products, dto.lineItems) {
      AcceptedLines(db.products, dto.lineItems);
    }
  }

  lemma RemoveTransactionValid(db: Db, t: Id)
    requires Valid(db)
    ensures Valid(After(db, RemoveTransaction(db, t)))
  {
  }

  lemma StatusValid(db: Db, op: Op)
    requires Valid(db) && (op.OpCancelTransaction? || op.OpCompleteTransaction?)
    ensures Valid(Next(db, op))
  {
    hide DistinctProducts;
  }

  lemma PaymentsValid(db: Db, op: Op)
    requires Valid(db)
    requires op.OpCreatePayment? || op.OpUpdatePayment? || op.OpRefundPayment? || op.OpRemovePayment?
    ensures Valid(Next(db, op))
  {
    hide DistinctProducts;
  }

  lemma ProductsValid(db: Db, op: Op)
    requires Valid(db) && (op.OpCreateProduct? || op.OpRepriceProduct? || op.OpDeleteProduct?)
    ensures Valid(Next(db, op))
  {
    hide DistinctProducts;
  }

  lemma StepValid(db: Db, op: Op)
    requires Valid(db)
    ensures Valid(Next(db, op))
    ensures db.next <= Next(db, op).next
  {
    hide Valid;
    match op
    case OpCreateTransaction(dto) => CreateTransactionValid(db, dto);
    case OpUpdateTransaction(t, dto) => UpdateTransactionValid(db, t, dto);
    case OpRemoveTransaction(t) => RemoveTransactionValid(db, t);
    case OpCancelTransaction(_) => StatusValid(db, op);
    case OpCompleteTransaction(_, _) => StatusValid(db, op);
    case OpCreateProduct(_) => ProductsValid(db, op);
    case OpRepriceProduct(_, _) => ProductsValid(db, op);
    case OpDeleteProduct(_) => ProductsValid(db, op);
    case _ => PaymentsValid(db, op);
  }

  /** In every reachable state: fresh ids stay fresh, no reference dangles, and
      each transaction's lines name distinct products. */
  lemma {:induction false} RunValid(db: Db, ops: seq<Op>)
    requires Valid(db)
    ensures Valid(Run(db, ops))
    decreases |ops|
  {
    if ops != [] {
      StepValid(db, ops[0]);
      RunValid(Next(db, ops[0]), ops[1..]);
    }
  }

  lemma ReachableValid(ops: seq<Op>)
    ensures ReferencesExist(Run(EMPTY_DB, ops))
    ensures DistinctProducts(Run(EMPTY_DB, ops).lineItems)
  {
    RunValid(EMPTY_DB, ops);
  }
}
