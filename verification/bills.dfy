/** The bill record the scraper produces and the mapping from a table row to it. */
module Bills {

  /** One table row: the stripped text of each of its `td` cells, in order. */
  type Row = seq<string>

  /** A row needs this many cells before it is turned into a bill. */
  const MinCells: nat := 10

  /** Number of fields of a bill; cells past this position are ignored. */
  const FieldCount: nat := 13

  /** The dictionary keys the scraper uses, in column order. */
  const Keys: seq<string> := [
    "Bill No", "Issue Date", "Bill Month", "Water Bill", "Sewer Bill", "VAT",
    "Bill Amt", "Surcharge", "Total Bill", "Paid Date", "Paid Amt", "Status",
    "Balance"
  ]

  /** One billing period. Every value is kept as the page's text; nothing is
      interpreted as a number. */
  datatype Bill = Bill(
    billNo: string,
    issueDate: string,
    billMonth: string,
    waterBill: string,
    sewerBill: string,
    vat: string,
    billAmt: string,
    surcharge: string,
    totalBill: string,
    paidDate: string,
    paidAmt: string,
    status: string,
    balance: string)

  /** The fields of a bill in column order (the order of `Keys`). */
  function Fields(b: Bill): (fs: seq<string>)
    ensures |fs| == FieldCount
  {
    [b.billNo, b.issueDate, b.billMonth, b.waterBill, b.sewerBill, b.vat,
     b.billAmt, b.surcharge, b.totalBill, b.paidDate, b.paidAmt, b.status,
     b.balance]
  }

  /** Cell `i` of a row, or the empty string when the row is too short. */
  function Cell(cols: Row, i: nat): (c: string)
    ensures i < |cols| ==> c == cols[i]
    ensures c != "" ==> i < |cols|
  {
    if i < |cols| then cols[i] else ""
  }

  /** The filter the scraper applies to every data row. */
  predicate IsBillRow(cols: Row)
    ensures IsBillRow(cols) ==> forall i :: 0 <= i < MinCells ==> i < |cols| && Cell(cols, i) == cols[i]
    ensures !IsBillRow(cols) ==> |cols| < MinCells && Cell(cols, MinCells - 1) == ""
  {
    |cols| >= MinCells
  }

  /** Builds the bill of a row that passed the filter: the first ten cells map
      to the ten mandatory fields by position; cells 10 to 12 map to the three
      optional fields and fall back to "" when missing. */
  function RowToBill(cols: Row): (b: Bill)
    requires IsBillRow(cols)
    ensures forall i :: 0 <= i < FieldCount ==> Fields(b)[i] == Cell(cols, i)
    ensures forall i :: 0 <= i < MinCells ==> Fields(b)[i] == cols[i]
  {
    Bill(
      billNo := cols[0],
      issueDate := cols[1],
      billMonth := cols[2],
      waterBill := cols[3],
      sewerBill := cols[4],
      vat := cols[5],
      billAmt := cols[6],
      surcharge := cols[7],
      totalBill := cols[8],
      paidDate := cols[9],
      paidAmt := if |cols| > 10 then cols[10] else "",
      status := if |cols| > 11 then cols[11] else "",
      balance := if |cols| > 12 then cols[12] else "")
  }

  /** Each of the three optional fields is "" when its cell is missing and
      is that cell when it is present. */
  lemma OptionalFieldsDefault(cols: Row)
    requires IsBillRow(cols)
    ensures |cols| <= 10 ==> RowToBill(cols).paidAmt == ""
    ensures |cols| <= 11 ==> RowToBill(cols).status == ""
    ensures |cols| <= 12 ==> RowToBill(cols).balance == ""
    ensures |cols| > 10 ==> RowToBill(cols).paidAmt == cols[10]
    ensures |cols| > 11 ==> RowToBill(cols).status == cols[11]
    ensures |cols| > 12 ==> RowToBill(cols).balance == cols[12]
  {
  }

  /** Cells after the thirteenth never influence the bill. */
  lemma {:induction false} ExtraCellsIgnored(cols: Row, extra: Row)
    requires IsBillRow(cols)
    requires |cols| >= FieldCount
    ensures RowToBill(cols + extra) == RowToBill(cols)
  {
    var a, b := RowToBill(cols + extra), RowToBill(cols);
    forall i | 0 <= i < FieldCount
      ensures Fields(a)[i] == Fields(b)[i]
    {
      assert (cols + extra)[i] == cols[i];
    }
    FieldsInjective(a, b);
  }

  /** A bill is determined by its fields. */
  lemma {:induction false} FieldsInjective(a: Bill, b: Bill)
    requires forall i :: 0 <= i < FieldCount ==> Fields(a)[i] == Fields(b)[i]
    ensures a == b
  {
    assert Fields(a)[0] == Fields(b)[0];
    assert Fields(a)[1] == Fields(b)[1];
    assert Fields(a)[2] == Fields(b)[2];
    assert Fields(a)[3] == Fields(b)[3];
    assert Fields(a)[4] == Fields(b)[4];
    assert Fields(a)[5] == Fields(b)[5];
    assert Fields(a)[6] == Fields(b)[6];
    assert Fields(a)[7] == Fields(b)[7];
    assert Fields(a)[8] == Fields(b)[8];
    assert Fields(a)[9] == Fields(b)[9];
    assert Fields(a)[10] == Fields(b)[10];
    assert Fields(a)[11] == Fields(b)[11];
    assert Fields(a)[12] == Fields(b)[12];
  }

  /** Round trip: laying a bill's fields out as a row and reading it back gives
      the same bill, and a thirteen-cell row survives the opposite trip. */
  lemma {:induction false} RowRoundTrip(b: Bill, cols: Row)
    requires |cols| == FieldCount
    ensures RowToBill(Fields(b)) == b
    ensures Fields(RowToBill(cols)) == cols
  {
    var b' := RowToBill(Fields(b));
    FieldsInjective(b', b);
    var fs := Fields(RowToBill(cols));
    assert forall i :: 0 <= i < FieldCount ==> fs[i] == cols[i];
  }

  /** The dictionary the scraper builds for a bill: key `Keys[i]` holds field `i`. */
  function ToDict(b: Bill): (d: map<string, string>)
    ensures forall k :: k in d <==> k in Keys
    ensures forall i :: 0 <= i < FieldCount ==> Keys[i] in d && d[Keys[i]] == Fields(b)[i]
  {
    map[
      "Bill No" := b.billNo, "Issue Date" := b.issueDate,
      "Bill Month" := b.billMonth, "Water Bill" := b.waterBill,
      "Sewer Bill" := b.sewerBill, "VAT" := b.vat, "Bill Amt" := b.billAmt,
      "Surcharge" := b.surcharge, "Total Bill" := b.totalBill,
      "Paid Date" := b.paidDate, "Paid Amt" := b.paidAmt,
      "Status" := b.status, "Balance" := b.balance]
  }

  /** The dictionary built for a qualifying row holds, under key `Keys[i]`,
      cell i of the row, or "" for a missing optional cell. */
  lemma {:induction false} RowDict(cols: Row)
    requires IsBillRow(cols)
    ensures forall i :: 0 <= i < FieldCount ==>
              Keys[i] in ToDict(RowToBill(cols)) && ToDict(RowToBill(cols))[Keys[i]] == Cell(cols, i)
  {
    var b := RowToBill(cols);
    var d := ToDict(b);
    forall i | 0 <= i < FieldCount
      ensures Keys[i] in d && d[Keys[i]] == Cell(cols, i)
    {
      assert d[Keys[i]] == Fields(b)[i];
    }
  }
}
