/**
  The text of the "Export CSV" button: a header line and one line per sale of the day,
  joined by line feeds. Fields are written as they are, without quoting.
 */
module Csv {
  import opened Wrappers
  import opened Seqs
  import opened Text
  import opened Ledger

  /** The column names; the header line is `Time,Product,Size,Quantity,Unit Price,Total,Payment Method`. */
  const CSV_COLUMNS: seq<string> :=
    ["Time", "Product", "Size", "Quantity", "Unit Price", "Total", "Payment Method"]

  const CSV_HEADER: string := Join(CSV_COLUMNS, ',')

  /** The header splits at commas into the seven column names and holds no line break. */
  lemma HeaderColumns()
    ensures Split(CSV_HEADER, ',') == CSV_COLUMNS
    ensures '\n' !in CSV_HEADER
  {
    assert forall k :: 0 <= k < |CSV_COLUMNS| ==> ',' !in CSV_COLUMNS[k] && '\n' !in CSV_COLUMNS[k];
    SplitJoin(CSV_COLUMNS, ',');
    NoSeparatorJoin(CSV_COLUMNS, ',', '\n');
  }

  /** The seven fields of a sale's line, in header order. */
  function CsvFields(s: Sale): (r: seq<string>)
    ensures |r| == 7
  {
    [s.timestamp.timeOfDay, s.product, s.size, IntString(s.quantity),
     CentsString(s.unitPrice), CentsString(s.total), PaymentLabel(s.payment)]
  }

  function CsvLine(s: Sale): string
  {
    Join(CsvFields(s), ',')
  }

  function CsvLines(sales: seq<Sale>): (r: seq<string>)
    ensures |r| == |sales|
    ensures forall k :: 0 <= k < |sales| ==> r[k] == CsvLine(sales[k])
  {
    seq(|sales|, k requires 0 <= k < |sales| => CsvLine(sales[k]))
  }

  function CsvText(sales: seq<Sale>): string
  {
    Join([CSV_HEADER] + CsvLines(sales), '\n')
  }

  /** `exportTodayCSV`: nothing when there is no sale today, otherwise the CSV text of
      today's sales. */
  function ExportTodayCsv(sales: seq<Sale>, today: int): (r: Option<string>)
    ensures r.None? <==> TodaysSales(sales, today) == []
    ensures r.Some? ==> r.value == CsvText(TodaysSales(sales, today))
  {
    var todays := TodaysSales(sales, today);
    if |todays| == 0 then None else Some(CsvText(todays))
  }

  /** The free-text fields of a sale hold no comma and no line break. */
  predicate PlainFields(s: Sale)
  {
    ',' !in s.timestamp.timeOfDay && ',' !in s.product && ',' !in s.size
    && '\n' !in s.timestamp.timeOfDay && '\n' !in s.product && '\n' !in s.size
  }

  lemma PaymentLabelPlain(p: Payment)
    ensures ',' !in PaymentLabel(p) && '\n' !in PaymentLabel(p)
  {
  }

  /** No field of a plain sale holds a comma or a line break, and neither does its line. */
  lemma PlainLine(s: Sale)
    requires PlainFields(s)
    ensures forall k :: 0 <= k < 7 ==> ',' !in CsvFields(s)[k] && '\n' !in CsvFields(s)[k]
    ensures '\n' !in CsvLine(s)
  {
    NumberTextHasNoSeparators(s.quantity, s.unitPrice);
    NumberTextHasNoSeparators(s.quantity, s.total);
    PaymentLabelPlain(s.payment);
    var f := CsvFields(s);
    NoSeparatorJoin(f, ',', '\n');
  }

  lemma {:induction false} NoSeparatorJoin(parts: seq<string>, sep: char, c: char)
    requires c != sep
    requires forall k :: 0 <= k < |parts| ==> c !in parts[k]
    ensures c !in Join(parts, sep)
  {
    if |parts| > 1 {
      NoSeparatorJoin(parts[1..], sep, c);
      assert Join(parts, sep) == parts[0] + [sep] + Join(parts[1..], sep);
    }
  }

  /** A spreadsheet that splits a plain sale's line at commas reads back the seven fields
      and, from them, the recorded quantity, amounts and payment method. */
  lemma CsvLineReadBack(s: Sale)
    requires PlainFields(s) && s.quantity >= 0
    ensures Split(CsvLine(s), ',') == CsvFields(s)
    ensures var f := Split(CsvLine(s), ',');
            f[0] == s.timestamp.timeOfDay && f[1] == s.product && f[2] == s.size
            && IsDigits(f[3]) && ParseNat(f[3]) == s.quantity
            && ParseCents(f[4]) == s.unitPrice && ParseCents(f[5]) == s.total
            && ParsePayment(f[6]) == Some(s.payment)
  {
    PlainLine(s);
    SplitJoin(CsvFields(s), ',');
    NatStringRoundTrip(s.quantity);
    CentsRoundTrip(s.unitPrice);
    CentsRoundTrip(s.total);
    PaymentLabelRoundTrip(s.payment);
  }

  /** Without quoting, a comma in a product name splits its field: the line no longer reads
      back as the sale's seven fields. */
  lemma CommaInNameBreaksLine(s: Sale)
    requires ',' in s.product
    ensures Split(CsvLine(s), ',') != CsvFields(s)
  {
    var f := Split(CsvLine(s), ',');
    if |f| >= 2 {
      assert ',' !in f[1];
    }
  }

  /** The CSV text of plain sales splits into the header and one line per sale, in order. */
  lemma CsvTextLines(sales: seq<Sale>)
    requires forall k :: 0 <= k < |sales| ==> PlainFields(sales[k])
    ensures Split(CsvText(sales), '\n') == [CSV_HEADER] + CsvLines(sales)
    ensures |Split(CsvText(sales), '\n')| == |sales| + 1
  {
    var body := CsvLines(sales);
    forall k | 0 <= k < |body|
      ensures '\n' !in body[k]
    {
      PlainLine(sales[k]);
    }
    HeaderColumns();
    SplitJoinCons(CSV_HEADER, body, '\n');
  }

  /** The exported file has the header followed by exactly one line per sale of the day. */
  lemma ExportedLines(sales: seq<Sale>, today: int)
    requires forall k :: 0 <= k < |sales| && sales[k].timestamp.day == today ==> PlainFields(sales[k])
    requires exists k :: 0 <= k < |sales| && sales[k].timestamp.day == today
    ensures ExportTodayCsv(sales, today).Some?
    ensures Split(ExportTodayCsv(sales, today).value, '\n')
            == [CSV_HEADER] + CsvLines(TodaysSales(sales, today))
  {
    var day := TodaysSales(sales, today);
    var i :| 0 <= i < |sales| && sales[i].timestamp.day == today;
    assert sales[i] in day;
    forall k | 0 <= k < |day| ensures PlainFields(day[k]) {
      var j :| 0 <= j < |sales| && sales[j] == day[k];
    }
    CsvTextLines(day);
  }

}
