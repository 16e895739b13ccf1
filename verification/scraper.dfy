/** The bill-extraction step of the scraper: what happens to the portal's
    response once it has been fetched and its HTML has been parsed. */
module Scraper {
  import opened Wrappers
  import opened Text
  import opened Bills

  /** A table: its `tr` rows in document order. */
  type Table = seq<Row>

  /** The portal's response as the extraction sees it: the raw response text
      and the tables of the parsed document, in document order. */
  datatype Page = Page(text: string, tables: seq<Table>)

  /** The text whose absence marks a failed login or an unexpected page. */
  const Marker: string := "Bill No"

  /** The message the form shows when there is nothing to display. */
  const ErrorText: string := "No bill found or invalid credentials."

  /** The rows after the header row; like Python's `rows[1:]`, empty for an
      empty table. */
  function DataRows(t: Table): (rows: seq<Row>)
    ensures |t| > 0 ==> |rows| == |t| - 1 && forall i :: 0 <= i < |rows| ==> rows[i] == t[i + 1]
    ensures |t| == 0 ==> rows == []
  {
    if |t| == 0 then [] else t[1..]
  }

  /** The bills of the rows that pass the filter, in row order. Defined from
      the last row back, which is how the scraper's loop grows its list. */
  function ExtractBills(rows: seq<Row>): (bills: seq<Bill>)
    ensures |bills| <= |rows|
    ensures forall b :: b in bills ==> exists row :: row in rows && IsBillRow(row) && b == RowToBill(row)
  {
    if |rows| == 0 then []
    else
      var init := ExtractBills(rows[..|rows| - 1]);
      var last := rows[|rows| - 1];
      if IsBillRow(last) then init + [RowToBill(last)] else init
  }

  /** The positions of the rows that pass the filter, in increasing order. */
  function BillRowIndices(rows: seq<Row>): (idx: seq<nat>)
    ensures |idx| <= |rows|
    ensures forall k :: 0 <= k < |idx| ==> idx[k] < |rows| && IsBillRow(rows[idx[k]])
  {
    if |rows| == 0 then []
    else
      var init := BillRowIndices(rows[..|rows| - 1]);
      if IsBillRow(rows[|rows| - 1]) then init + [|rows| - 1] else init
  }

  /** `idx` lists, in strictly increasing order, exactly the positions of the
      rows of `rows` that pass the filter. */
  ghost predicate EnumeratesBillRows(rows: seq<Row>, idx: seq<nat>)
  {
    && (forall k :: 0 <= k < |idx| ==> idx[k] < |rows| && IsBillRow(rows[idx[k]]))
    && (forall k, l :: 0 <= k < l < |idx| ==> idx[k] < idx[l])
    && (forall i :: 0 <= i < |rows| && IsBillRow(rows[i]) ==> i in idx)
  }

  /** `bills` holds, in order, the bill of each row that `idx` names. */
  ghost predicate BillsOfRows(rows: seq<Row>, idx: seq<nat>, bills: seq<Bill>)
  {
    && |bills| == |idx|
    && forall k :: 0 <= k < |idx| ==>
         idx[k] < |rows| && IsBillRow(rows[idx[k]]) && bills[k] == RowToBill(rows[idx[k]])
  }

  /** Reference characterisation of the filter-and-map: the k-th bill is the
      bill of the k-th row that passes the filter, and there are no others. */
  lemma {:induction false} ExtractBillsCharacterised(rows: seq<Row>)
    ensures EnumeratesBillRows(rows, BillRowIndices(rows))
    ensures BillsOfRows(rows, BillRowIndices(rows), ExtractBills(rows))
  {
    if |rows| > 0 {
      var init, last := rows[..|rows| - 1], rows[|rows| - 1];
      assert rows == init + [last];
      ExtractBillsCharacterised(init);
      IndicesStep(init, last);
      BillsStep(init, last);
    }
  }

  /** One step of the enumeration: appending a row keeps the indices an
      enumeration of the qualifying rows. */
  lemma IndicesStep(init: seq<Row>, last: Row)
    requires EnumeratesBillRows(init, BillRowIndices(init))
    ensures EnumeratesBillRows(init + [last], BillRowIndices(init + [last]))
  {
    IndicesOrderedStep(init, last);
    IndicesCompleteStep(init, last);
  }

  /** Appending a row keeps the indices strictly increasing. */
  lemma IndicesOrderedStep(init: seq<Row>, last: Row)
    requires forall k, l :: 0 <= k < l < |BillRowIndices(init)| ==>
               BillRowIndices(init)[k] < BillRowIndices(init)[l]
    ensures forall k, l :: 0 <= k < l < |BillRowIndices(init + [last])| ==>
              BillRowIndices(init + [last])[k] < BillRowIndices(init + [last])[l]
  {
    var rows := init + [last];
    assert rows[..|rows| - 1] == init;
    var idx0 := BillRowIndices(init);
    var idx := BillRowIndices(rows);
    assert idx == if IsBillRow(last) then idx0 + [|init|] else idx0;
    forall k, l | 0 <= k < l < |idx|
      ensures idx[k] < idx[l]
    {
      if l < |idx0| {
        assert idx[k] == idx0[k] && idx[l] == idx0[l];
      } else {
        assert idx[k] == idx0[k] < |init|;
      }
    }
  }

  /** Appending a row keeps every qualifying row listed. */
  lemma IndicesCompleteStep(init: seq<Row>, last: Row)
    requires forall i :: 0 <= i < |init| && IsBillRow(init[i]) ==> i in BillRowIndices(init)
    ensures forall i :: 0 <= i < |init + [last]| && IsBillRow((init + [last])[i]) ==>
              i in BillRowIndices(init + [last])
  {
    var rows := init + [last];
    assert rows[..|rows| - 1] == init;
    var idx0 := BillRowIndices(init);
    var idx := BillRowIndices(rows);
    assert idx == if IsBillRow(last) then idx0 + [|init|] else idx0;
    forall i | 0 <= i < |rows| && IsBillRow(rows[i])
      ensures i in idx
    {
      if i < |init| {
        assert rows[i] == init[i];
        assert i in idx0;
      } else {
        assert idx[|idx| - 1] == i;
      }
    }
  }

  /** One step of the correspondence: appending a row keeps bill k equal to
      the bill of the row at index k. */
  lemma BillsStep(init: seq<Row>, last: Row)
    requires BillsOfRows(init, BillRowIndices(init), ExtractBills(init))
    ensures BillsOfRows(init + [last], BillRowIndices(init + [last]), ExtractBills(init + [last]))
  {
    var rows := init + [last];
    assert rows[..|rows| - 1] == init;
    var idx0, idx := BillRowIndices(init), BillRowIndices(rows);
    var bills0, bills := ExtractBills(init), ExtractBills(rows);
    if IsBillRow(last) {
      assert bills == bills0 + [RowToBill(last)];
      assert idx == idx0 + [|init|];
    } else {
      assert bills == bills0 && idx == idx0;
    }
    forall k | 0 <= k < |idx|
      ensures idx[k] < |rows| && IsBillRow(rows[idx[k]]) && bills[k] == RowToBill(rows[idx[k]])
    {
      if k < |bills0| {
        assert bills[k] == bills0[k] && idx[k] == idx0[k];
        assert rows[idx0[k]] == init[idx0[k]];
      }
    }
  }

  /** A row yields a bill exactly when it passes the filter: the number of
      bills is positive iff some row has at least `MinCells` cells. */
  lemma {:induction false} ExtractBillsNonEmptyIff(rows: seq<Row>)
    ensures |ExtractBills(rows)| > 0 <==> exists i :: 0 <= i < |rows| && IsBillRow(rows[i])
  {
    if |rows| > 0 {
      var init := rows[..|rows| - 1];
      ExtractBillsNonEmptyIff(init);
      assert forall i :: 0 <= i < |init| ==> init[i] == rows[i];
      if !IsBillRow(rows[|rows| - 1]) && |ExtractBills(init)| == 0 {
        forall i | 0 <= i < |rows| ensures !IsBillRow(rows[i]) {
          if i < |init| { assert init[i] == rows[i]; }
        }
      }
    }
  }

  /** Filtering distributes over concatenation: splitting the rows anywhere
      and extracting each part gives the same bills in the same order. */
  lemma {:induction false} ExtractBillsAppend(a: seq<Row>, b: seq<Row>)
    ensures ExtractBills(a + b) == ExtractBills(a) + ExtractBills(b)
    decreases |b|
  {
    if |b| == 0 {
      assert a + b == a;
    } else {
      var b0, last := b[..|b| - 1], b[|b| - 1];
      var tail := if IsBillRow(last) then [RowToBill(last)] else [];
      ExtractBillsAppend(a, b0);
      assert (a + b)[..|a + b| - 1] == a + b0;
      assert (a + b)[|a + b| - 1] == last;
      assert ExtractBills(b) == ExtractBills(b0) + tail;
      assert ExtractBills(a + b) == ExtractBills(a) + ExtractBills(b0) + tail;
    }
  }

  /** The characterisation restated element by element: bill k is the bill
      of the row at the k-th qualifying index. */
  lemma ExtractedBillsMatchRows(rows: seq<Row>)
    ensures |ExtractBills(rows)| == |BillRowIndices(rows)|
    ensures forall k :: 0 <= k < |ExtractBills(rows)| ==>
              ExtractBills(rows)[k] == RowToBill(rows[BillRowIndices(rows)[k]])
  {
    ExtractBillsCharacterised(rows);
    assert BillsOfRows(rows, BillRowIndices(rows), ExtractBills(rows));
  }

  /** Extending a prefix of the rows by one row adds that row's bill when it
      passes the filter, and nothing otherwise. */
  lemma ExtractBillsStep(rows: seq<Row>, i: nat)
    requires i < |rows|
    ensures IsBillRow(rows[i]) ==> ExtractBills(rows[..i + 1]) == ExtractBills(rows[..i]) + [RowToBill(rows[i])]
    ensures !IsBillRow(rows[i]) ==> ExtractBills(rows[..i + 1]) == ExtractBills(rows[..i])
  {
    assert rows[..i + 1][..i] == rows[..i];
  }

  /** The scraper's loop over the data rows: appends the bill of every row with
      at least `MinCells` cells, in order, so that the k-th bill collected is
      the bill of the k-th qualifying row. */
  method CollectBills(rows: seq<Row>) returns (collected: seq<Bill>)
    ensures |collected| <= |rows|
    ensures |collected| == |BillRowIndices(rows)|
    ensures forall k :: 0 <= k < |collected| ==>
              collected[k] == RowToBill(rows[BillRowIndices(rows)[k]])
  {
    collected := [];
    var i := 0;
    while i < |rows|
      invariant 0 <= i <= |rows|
      invariant collected == ExtractBills(rows[..i])
    {
      var cols := rows[i];
      ExtractBillsStep(rows, i);
      if |cols| >= MinCells {
        collected := collected + [RowToBill(cols)];
      }
      i := i + 1;
    }
    assert rows[..|rows|] == rows;
    ExtractedBillsMatchRows(rows);
  }

  /** The extraction: reject a response without the marker, reject a page
      without tables, otherwise drop the first row of the first table and
      turn every remaining row with enough cells into a bill. */
  function GetDwasaBill(page: Page): (r: Option<seq<Bill>>)
    ensures r.Some? <==> Contains(page.text, Marker) && |page.tables| > 0
    ensures r.Some? ==> |r.value| < |page.tables[0]| || r.value == []
  {
    if !Contains(page.text, Marker) then None
    else if |page.tables| == 0 then None
    else Some(ExtractBills(DataRows(page.tables[0])))
  }

  /** Without the marker anywhere in the response text the result is `None`,
      whatever the tables hold. */
  lemma MissingMarkerRejected(page: Page)
    requires forall i :: !OccursAt(page.text, Marker, i)
    ensures GetDwasaBill(page) == None
  {
    ContainsIffOccurs(page.text, Marker);
  }

  /** Only the first table is consulted: changing or removing every later
      table leaves the result unchanged. */
  lemma LaterTablesIgnored(text: string, first: Table, rest: seq<Table>, rest': seq<Table>)
    ensures GetDwasaBill(Page(text, [first] + rest)) == GetDwasaBill(Page(text, [first] + rest'))
  {
  }

  /** The header row is never turned into a bill, even when it is long enough:
      replacing it leaves the result unchanged. */
  lemma HeaderRowIgnored(text: string, header: Row, header': Row, body: seq<Row>, rest: seq<Table>)
    ensures GetDwasaBill(Page(text, [[header] + body] + rest))
         == GetDwasaBill(Page(text, [[header'] + body] + rest))
  {
    assert ([header] + body)[1..] == body;
    assert ([header'] + body)[1..] == body;
  }

  /** On success, the bills are exactly the bills of the rows after the first
      that pass the filter, in their order: bill k comes from row
      `1 + BillRowIndices(DataRows(t))[k]` of the first table `t`, and every
      qualifying row from position 1 on is used. */
  lemma {:induction false} BillsFromDataRows(page: Page)
    requires GetDwasaBill(page).Some?
    ensures var t := page.tables[0];
            var bills := GetDwasaBill(page).value;
            var idx := BillRowIndices(DataRows(t));
            && |bills| == |idx|
            && (forall k :: 0 <= k < |idx| ==>
                  1 <= 1 + idx[k] < |t| && IsBillRow(t[1 + idx[k]])
                  && bills[k] == RowToBill(t[1 + idx[k]]))
            && (forall k, l :: 0 <= k < l < |idx| ==> idx[k] < idx[l])
            && (forall i :: 1 <= i < |t| && IsBillRow(t[i]) ==> i - 1 in idx)
  {
    var t := page.tables[0];
    var rows := DataRows(t);
    ExtractBillsCharacterised(rows);
    forall i | 1 <= i < |t| && IsBillRow(t[i])
      ensures i - 1 in BillRowIndices(rows)
    {
      assert rows[i - 1] == t[i];
    }
  }

  /** The route handler's check `if not bills`: an error is shown for `None`
      and for an empty list, and for nothing else. */
  function ErrorFor(result: Option<seq<Bill>>): (e: Option<string>)
    ensures e.Some? <==> (result == None || result == Some([]))
    ensures e.Some? ==> e.value == ErrorText
  {
    match result
    case None => Some(ErrorText)
    case Some(bills) => if |bills| == 0 then Some(ErrorText) else None
  }

  /** End to end: no error is shown exactly when the marker is present, there
      is a table, and some row after its first has at least `MinCells` cells. */
  lemma {:induction false} NoErrorIff(page: Page)
    ensures ErrorFor(GetDwasaBill(page)).None?
        <==> && Contains(page.text, Marker)
             && |page.tables| > 0
             && exists i :: 1 <= i < |page.tables[0]| && IsBillRow(page.tables[0][i])
  {
    if Contains(page.text, Marker) && |page.tables| > 0 {
      var t := page.tables[0];
      var rows := DataRows(t);
      ExtractBillsNonEmptyIff(rows);
      if exists i :: 1 <= i < |t| && IsBillRow(t[i]) {
        var i :| 1 <= i < |t| && IsBillRow(t[i]);
        assert rows[i - 1] == t[i];
      }
      if exists j :: 0 <= j < |rows| && IsBillRow(rows[j]) {
        var j :| 0 <= j < |rows| && IsBillRow(rows[j]);
        assert t[j + 1] == rows[j];
      }
    }
  }

  /** A worked page: a header row of `th` cells (so no `td` cell), one
      thirteen-cell bill row, and a short spacer row give exactly one bill
      carrying the row's cells. The text and the tables are independent
      inputs here: the text only has to contain the marker. */
  lemma SingleBillExample()
    ensures var row := ["12345", "01/01/2024", "JAN-2024", "100", "20", "6",
                        "126", "0", "126", "", "", "UNPAID", "126"];
            var page := Page("<th>Bill No</th>", [[[], row, ["Total"]]]);
            GetDwasaBill(page) == Some([Bill("12345", "01/01/2024", "JAN-2024", "100", "20",
                                             "6", "126", "0", "126", "", "", "UNPAID", "126")])
            && ErrorFor(GetDwasaBill(page)) == None
  {
    var row := ["12345", "01/01/2024", "JAN-2024", "100", "20", "6",
                "126", "0", "126", "", "", "UNPAID", "126"];
    var page := Page("<th>Bill No</th>", [[[], row, ["Total"]]]);
    assert OccursAt(page.text, Marker, 4);
    ContainsIffOccurs(page.text, Marker);
    assert Contains(page.text, Marker);
    var rows := DataRows(page.tables[0]);
    assert rows == [row, ["Total"]];
    assert rows[..1] == [row];
    assert ExtractBills([row]) == [RowToBill(row)] by {
      assert [row][..0] == [];
    }
    assert ExtractBills(rows) == [RowToBill(row)];
  }

  /** With no check on the first cell, a summary row that is long enough is
      turned into a bill like any other row. */
  lemma SummaryRowKept()
    ensures var total := ["Total", "", "", "", "", "", "", "", "500", "", "", "", ""];
            ExtractBills([total]) == [Bill("Total", "", "", "", "", "", "", "", "500", "", "", "", "")]
  {
    var total := ["Total", "", "", "", "", "", "", "", "500", "", "", "", ""];
    assert [total][..0] == [];
  }
}
