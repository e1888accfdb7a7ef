/** Taxes on a subtotal, one at a time and in a batch. */
module Taxes {
  import opened Wrappers
  import opened Sums

  type Id = nat

  datatype Tax = Tax(rate: real, isActive: bool)

  /** One line of the breakdown that `calculateMultipleTaxes` returns. */
  datatype Share = Share(taxId: Id, amount: real)

  function TaxOn(tax: Tax, subtotal: real): real {
    subtotal * tax.rate / 100.0
  }

  function CalculateTax(taxes: map<Id, Tax>, id: Id, subtotal: real): Result<real> {
    if id !in taxes then Err(NotFound)
    else if !taxes[id].isActive then Ok(0.0)
    else Ok(TaxOn(taxes[id], subtotal))
  }

  /** The rows the batch query selects. */
  function ActiveAmong(taxes: map<Id, Tax>, ids: seq<Id>): map<Id, Tax> {
    map k | k in taxes && k in ids && taxes[k].isActive :: taxes[k]
  }

  function Shares(rows: map<Id, Tax>, subtotal: real): map<Id, real> {
    map k | k in rows :: TaxOn(rows[k], subtotal)
  }

  /** The sum of the amounts of the batch. */
  ghost function BatchTotal(taxes: map<Id, Tax>, ids: seq<Id>, subtotal: real): real {
    Total(Shares(ActiveAmong(taxes, ids), subtotal))
  }

  /** The ids of the list that exist, each once, with the tax on each computed
      on its own. */
  function OneByOne(taxes: map<Id, Tax>, ids: seq<Id>, subtotal: real): map<Id, real> {
    map k | k in taxes && k in ids :: CalculateTax(taxes, k, subtotal).value
  }

  lemma ZeroRows(m: map<Id, real>)
    requires forall k :: k in m ==> m[k] == 0.0
    ensures Total(m) == 0.0
    decreases |m|
  {
  }

  /** The batch is the sum of the single taxes over the distinct ids that exist. */
  lemma BatchIsOneByOne(taxes: map<Id, Tax>, ids: seq<Id>, subtotal: real)
    ensures BatchTotal(taxes, ids, subtotal) == Total(OneByOne(taxes, ids, subtotal))
  {
    var active := Shares(ActiveAmong(taxes, ids), subtotal);
    var inactive := map k | k in taxes && k in ids && !taxes[k].isActive :: 0.0;
    assert OneByOne(taxes, ids, subtotal) == active + inactive;
    TotalDisjoint(active, inactive);
    ZeroRows(inactive);
  }

  /** Order, repetitions, and ids that are unknown or inactive make no difference. */
  lemma OnlyActiveIdsMatter(taxes: map<Id, Tax>, ids: seq<Id>, others: seq<Id>, subtotal: real)
    requires forall k :: k in taxes && taxes[k].isActive ==> (k in ids <==> k in others)
    ensures BatchTotal(taxes, ids, subtotal) == BatchTotal(taxes, others, subtotal)
  {
    assert ActiveAmong(taxes, ids) == ActiveAmong(taxes, others);
  }

  lemma TaxOnAdds(tax: Tax, s1: real, s2: real)
    ensures TaxOn(tax, s1 + s2) == TaxOn(tax, s1) + TaxOn(tax, s2)
  {
  }

  /** Taxing two subtotals together or apart comes to the same. */
  lemma BatchAdds(taxes: map<Id, Tax>, ids: seq<Id>, s1: real, s2: real)
    ensures BatchTotal(taxes, ids, s1 + s2) == BatchTotal(taxes, ids, s1) + BatchTotal(taxes, ids, s2)
  {
    var rows := ActiveAmong(taxes, ids);
    forall k | k in rows ensures Shares(rows, s1 + s2)[k] == Shares(rows, s1)[k] + Shares(rows, s2)[k] {
      TaxOnAdds(rows[k], s1, s2);
    }
    TotalPointwise(Shares(rows, s1), Shares(rows, s2), Shares(rows, s1 + s2));
  }

  /** Splitting the list of ids splits the batch, provided no active tax is in
      both parts. */
  lemma BatchSplits(taxes: map<Id, Tax>, ids: seq<Id>, more: seq<Id>, subtotal: real)
    requires forall k :: k in ids && k in more && k in taxes ==> !taxes[k].isActive
    ensures BatchTotal(taxes, ids + more, subtotal)
            == BatchTotal(taxes, ids, subtotal) + BatchTotal(taxes, more, subtotal)
  {
    var first, second := Shares(ActiveAmong(taxes, ids), subtotal), Shares(ActiveAmong(taxes, more), subtotal);
    TotalDisjoint(first, second);
    assert Shares(ActiveAmong(taxes, ids + more), subtotal) == first + second;
  }

  function SumOf(breakdown: seq<Share>): real {
    if breakdown == [] then 0.0 else SumOf(breakdown[..|breakdown| - 1]) + breakdown[|breakdown| - 1].amount
  }

  class TaxesService {
    var taxes: map<Id, Tax>

    constructor (taxes: map<Id, Tax>)
      ensures this.taxes == taxes
    {
      this.taxes := taxes;
    }

    /** One tax: its rate in percent of the subtotal, or nothing when it is inactive. */
    method CalculateOneTax(taxId: Id, subtotal: real) returns (r: Result<real>)
      ensures r == CalculateTax(taxes, taxId, subtotal)
      ensures taxId !in taxes ==> r == Err(NotFound)
      ensures taxId in taxes ==>
                r.Ok? && 100.0 * r.value == if taxes[taxId].isActive then subtotal * taxes[taxId].rate else 0.0
    {
      if taxId !in taxes {
        return Err(NotFound);
      }
      var tax := taxes[taxId];
      if !tax.isActive {
        return Ok(0.0);
      }
      r := Ok(subtotal * tax.rate / 100.0);
    }

    method CalculateMultipleTaxes(taxIds: seq<Id>, subtotal: real) returns (total: real, breakdown: seq<Share>)
      ensures total == BatchTotal(taxes, taxIds, subtotal)
      ensures ListsTaxes(taxes, taxIds, subtotal, breakdown)
      ensures total == SumOf(breakdown)
    {
      assert SumOf([]) == 0.0;
      hide TaxOn, IsBreakdown, ActiveAmong, Shares, Total, SumOf, ListsTaxes;
      var rows := ActiveAmong(taxes, taxIds);
      NoBreakdown(rows, subtotal);
      NoShares(subtotal);
      var rest := rows;
      total, breakdown := 0.0, [];
      while rest != map[]
        invariant rest.Keys <= rows.Keys && forall k :: k in rest ==> rest[k] == rows[k]
        invariant total + Total(Shares(rest, subtotal)) == Total(Shares(rows, subtotal))
        invariant IsBreakdown(rows, rest, subtotal, breakdown)
        invariant total == SumOf(breakdown)
        decreases |rest|
      {
        var k :| k in rest;
        ShareTaken(rest, k, subtotal);
        var amount := TaxOn(rest[k], subtotal);
        ShareAdded(rows, rest, subtotal, breakdown, k);
        SumOneMore(breakdown, Share(k, amount));
        breakdown := breakdown + [Share(k, amount)];
        total := total + amount;
        rest := rest - {k};
      }
      BreakdownExactly(taxes, taxIds, subtotal, breakdown);
    }
  }

  /** One share for each row already taken out of `rest`. */
  ghost predicate IsBreakdown(rows: map<Id, Tax>, rest: map<Id, Tax>, subtotal: real, breakdown: seq<Share>) {
    && (forall i :: 0 <= i < |breakdown| ==>
          && breakdown[i].taxId in rows && breakdown[i].taxId !in rest
          && breakdown[i].amount == TaxOn(rows[breakdown[i].taxId], subtotal))
    && (forall k :: k in rows && k !in rest ==> Share(k, TaxOn(rows[k], subtotal)) in breakdown)
    && (forall i, j :: 0 <= i < j < |breakdown| ==> breakdown[i].taxId != breakdown[j].taxId)
  }

  /** Each active requested tax is listed once, with its rate in percent of the subtotal,
      and nothing else is. */
  ghost predicate ListsTaxes(taxes: map<Id, Tax>, ids: seq<Id>, subtotal: real, breakdown: seq<Share>) {
    && (forall i :: 0 <= i < |breakdown| ==>
          && breakdown[i].taxId in taxes && breakdown[i].taxId in ids && taxes[breakdown[i].taxId].isActive
          && 100.0 * breakdown[i].amount == subtotal * taxes[breakdown[i].taxId].rate)
    && (forall i, j :: 0 <= i < j < |breakdown| ==> breakdown[i].taxId != breakdown[j].taxId)
    && (forall k, a :: Share(k, a) in breakdown <==> k in ActiveAmong(taxes, ids) && a == TaxOn(taxes[k], subtotal))
    && (forall k :: k in taxes && k in ids && taxes[k].isActive ==>
          exists i :: 0 <= i < |breakdown| && breakdown[i].taxId == k)
  }

  /** A finished breakdown lists the active requested taxes, each with its rate in
      percent of the subtotal. */
  lemma BreakdownExactly(taxes: map<Id, Tax>, ids: seq<Id>, subtotal: real, breakdown: seq<Share>)
    requires IsBreakdown(ActiveAmong(taxes, ids), map[], subtotal, breakdown)
    ensures ListsTaxes(taxes, ids, subtotal, breakdown)
  {
    forall i | 0 <= i < |breakdown|
      ensures 100.0 * breakdown[i].amount == subtotal * taxes[breakdown[i].taxId].rate
    {
      TaxOnExactly(taxes[breakdown[i].taxId], subtotal);
    }
    hide TaxOn;
    forall k | k in taxes && k in ids && taxes[k].isActive
      ensures exists i :: 0 <= i < |breakdown| && breakdown[i].taxId == k
    {
      var rows := ActiveAmong(taxes, ids);
      assert k in rows && rows[k] == taxes[k];
      assert Share(k, TaxOn(rows[k], subtotal)) in breakdown;
    }
  }

  lemma NoShares(subtotal: real)
    ensures Total(Shares(map[], subtotal)) == 0.0
  {
    assert Shares(map[], subtotal) == map[];
  }

  lemma ShareTaken(rows: map<Id, Tax>, k: Id, subtotal: real)
    requires k in rows
    ensures Total(Shares(rows, subtotal)) == TaxOn(rows[k], subtotal) + Total(Shares(rows - {k}, subtotal))
  {
    TotalTakeOut(Shares(rows, subtotal), k);
    assert Shares(rows - {k}, subtotal) == Shares(rows, subtotal) - {k};
  }

  lemma SumOneMore(breakdown: seq<Share>, share: Share)
    ensures SumOf(breakdown + [share]) == SumOf(breakdown) + share.amount
  {
    assert (breakdown + [share])[..|breakdown|] == breakdown;
  }

  lemma NoBreakdown(rows: map<Id, Tax>, subtotal: real)
    ensures IsBreakdown(rows, rows, subtotal, [])
  {
  }

  lemma TaxOnExactly(tax: Tax, subtotal: real)
    ensures 100.0 * TaxOn(tax, subtotal) == subtotal * tax.rate
  {
  }

  lemma ShareAdded(rows: map<Id, Tax>, rest: map<Id, Tax>, subtotal: real, breakdown: seq<Share>, k: Id)
    requires IsBreakdown(rows, rest, subtotal, breakdown) && k in rest && k in rows && rest[k] == rows[k]
    ensures IsBreakdown(rows, rest - {k}, subtotal, breakdown + [Share(k, TaxOn(rest[k], subtotal))])
  {
  }
}
