/**
  The sales ledger: the records `processSale` appends, today's slice of them and the
  sums the dashboard shows over it.
 */
module Ledger {
  import opened Wrappers
  import opened Seqs
  import opened Clock

  /** The three payment methods of the sale form. */
  datatype Payment = Cash | MPesa | Card

  /** The option value the form stores for a payment method. */
  function PaymentLabel(p: Payment): string
  {
    match p
    case Cash => "Cash"
    case MPesa => "M-Pesa"
    case Card => "Card"
  }

  function ParsePayment(s: string): Option<Payment>
  {
    if s == "Cash" then Some(Cash)
    else if s == "M-Pesa" then Some(MPesa)
    else if s == "Card" then Some(Card)
    else None
  }

  lemma PaymentLabelRoundTrip(p: Payment)
    ensures ParsePayment(PaymentLabel(p)) == Some(p)
  {
  }

  /** A sale record. Name, unit price and total are copied at the time of the sale, so they
      do not follow later changes to the product. Amounts are integer cents. */
  datatype Sale = Sale(
    id: int,
    product: string,
    size: string,
    quantity: int,
    unitPrice: int,
    total: int,
    payment: Payment,
    timestamp: Timestamp)

  function SaleTotal(s: Sale): int
  {
    s.total
  }

  function SaleQuantity(s: Sale): int
  {
    s.quantity
  }

  /** `getTodaysSales`: the sales stamped on the calendar day `today`, in ledger order. */
  function TodaysSales(sales: seq<Sale>, today: int): (r: seq<Sale>)
    ensures forall k :: 0 <= k < |r| ==> r[k] in sales && r[k].timestamp.day == today
    ensures forall k :: 0 <= k < |sales| && sales[k].timestamp.day == today ==> sales[k] in r
    ensures IsSubsequence(r, sales)
    ensures forall s :: multiset(r)[s] == (if s.timestamp.day == today then multiset(sales)[s] else 0)
  {
    FilterSpec(sales, (s: Sale) => s.timestamp.day == today);
    Filter(sales, (s: Sale) => s.timestamp.day == today)
  }

  /** Appending a sale appends it to today's slice exactly when it is stamped today. */
  lemma TodaysSalesAppend(sales: seq<Sale>, s: Sale, today: int)
    ensures TodaysSales(sales + [s], today)
            == TodaysSales(sales, today) + (if s.timestamp.day == today then [s] else [])
  {
    FilterAppend(sales, [s], (x: Sale) => x.timestamp.day == today);
  }

  /** `todaysTotal`: the revenue of today's sales. */
  function TodaysTotal(sales: seq<Sale>, today: int): int
  {
    SumOf(TodaysSales(sales, today), SaleTotal)
  }

  /** Appending a sale adds its total to today's revenue when it is stamped today, and
      nothing otherwise. */
  lemma TodaysTotalAppend(sales: seq<Sale>, s: Sale, today: int)
    ensures TodaysTotal(sales + [s], today)
            == TodaysTotal(sales, today) + (if s.timestamp.day == today then s.total else 0)
  {
    TodaysSalesAppend(sales, s, today);
    var extra := if s.timestamp.day == today then [s] else [];
    SumOfAppend(TodaysSales(sales, today), extra, SaleTotal);
  }

  /** The pairs sold over a list of sales. */
  function UnitsSold(sales: seq<Sale>): int
  {
    SumOf(sales, SaleQuantity)
  }

  lemma UnitsSoldAppend(sales: seq<Sale>, s: Sale)
    ensures UnitsSold(sales + [s]) == UnitsSold(sales) + s.quantity
  {
    SumOfAppend(sales, [s], SaleQuantity);
  }
}
