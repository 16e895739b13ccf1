# DWASA bill scraper: the bill-extraction step

This project models `get_dwasa_bill` in `app.py`. The function logs into the
Dhaka WASA customer portal and turns the returned page into a list of bill
records. The model covers what happens after the HTTP response arrives and
BeautifulSoup has parsed it:

1. **Marker check.** If the response text does not contain `"Bill No"`, the
   result is `None`. This is how a failed login shows up.
2. **Table choice.** The first table in document order is used. If the page
   has no table, the result is `None`.
3. **Header skip.** The table's first row is always dropped.
4. **Filter and map.** Every remaining row with at least 10 cells becomes a
   bill. Cells 0–9 fill ten fields by position. Cells 10–12 fill Paid Amt,
   Status and Balance, or `""` when the row is shorter.

The model also covers the route handler's check `if not bills`. That check
shows an error message when the result is `None` or an empty list.

The parsed page is abstracted as a `Page`. A `Page` holds the raw response
text and a sequence of tables. Each table is a sequence of rows. Each row is a
sequence of cell strings, already stripped by `get_text(strip=True)`.

Files:
- `wrappers.dfy`: `Option` (Python's `None` versus a value).
- `text.dfy`: Python's `substring in string`, with a proof that it matches the
  declarative "occurs at some position".
- `bills.dfy`: the 13-field `Bill` record, its dictionary keys, and the mapping
  from a row to a bill.
- `scraper.dfy`: the extraction, the loop that collects bills, the error
  predicate, and the lemmas relating them.

## Behaviour worth knowing

- The filter looks only at the cell count. There is no digits check on the
  first cell, so a "Total" row with 10 or more cells becomes a bill
  (`Scraper.SummaryRowKept`).
- The table is always the first one. No header keyword is looked for.
- Every qualifying row is returned. No single bill is selected and no
  account details are read.
- Only cells 10–12 have defaults. A row with fewer than 10 cells is skipped,
  not padded.

BeautifulSoup's `Tag` is always truthy, so `if not table` only rejects a
missing table. An empty `<table>` gives `Some([])`, and the model agrees.

## Model

| member | source | states |
|---|---|---|
| Text.Contains | app.py:16 | `"Bill No" in response.text` as substring search; a hit implies the marker fits in the text, and the empty string is always found |
| Text.ContainsIffOccurs | app.py:16 | the search succeeds exactly when the marker occurs at some position of the text (both directions) |
| Scraper.MissingMarkerRejected | app.py:16-17 | if the marker occurs nowhere in the response text, the result is `None`, whatever the tables hold |
| Scraper.GetDwasaBill | app.py:16-45 | the result is a list exactly when the marker is present and the page has a table; a list has fewer bills than the first table has rows (or is empty) |
| Scraper.LaterTablesIgnored | app.py:20 | only the first table is consulted: the rows of a table nested in it belong to its own row sequence, and tables outside it never change the result |
| Scraper.DataRows | app.py:24 | `rows[1:]`: the rows after the header, row i+1 becoming row i; an empty table gives no rows |
| Scraper.HeaderRowIgnored | app.py:24 | the first row never becomes a bill, even with 10 or more cells: replacing it leaves the result unchanged |
| Scraper.ExtractBills | app.py:25-45 | no more bills than rows, and every bill is the bill of some row with at least 10 cells |
| Scraper.ExtractBillsCharacterised | app.py:27-30 | the k-th bill is the bill of the k-th row with at least 10 cells: the indices are strictly increasing, each names a qualifying row, and every qualifying row is listed |
| Scraper.ExtractBillsNonEmptyIff | app.py:27-30 | at least one bill comes out exactly when some row has at least 10 cells |
| Scraper.ExtractBillsAppend | app.py:27-30 | the filter keeps order and distributes over concatenation: the bills of `a + b` are the bills of `a` followed by those of `b` |
| Scraper.ExtractBillsStep | app.py:27-44 | one more row adds its bill at the end when it has at least 10 cells, and adds nothing otherwise |
| Scraper.CollectBills | app.py:25-45 | the scraper's `for` loop gives at most one bill per row, and its k-th bill is the bill of the k-th row with at least 10 cells |
| Scraper.BillsFromDataRows | app.py:24-44 | on success, bill k comes from row `1 + idx[k]` of the first table, which has at least 10 cells; the rows keep their order, and every qualifying row from position 1 on is used |
| Scraper.ErrorFor | app.py:56-57 | the error message is shown exactly for `None` and for an empty list, and the message is the fixed text |
| Scraper.NoErrorIff | app.py:55-57 | end to end, no error is shown exactly when the marker is present, a table exists, and a row after its first has at least 10 cells |
| Scraper.SingleBillExample | app.py:16-45 | a page with a header, one 13-cell row and a short "Total" row gives exactly that row's bill and no error |
| Scraper.SummaryRowKept | app.py:27-30 | a 13-cell "Total" summary row becomes a bill whose Bill No is "Total", because the filter looks only at the cell count |
| Bills.IsBillRow | app.py:29 | a row qualifies exactly when it has at least 10 cells: then cells 0–9 are all present and read directly; otherwise the row has fewer than 10 cells and cell 9 is missing |
| Bills.Cell | app.py:41-43 | cell i when the row has one, and `""` only when the row has no cell i or the cell is itself empty |
| Bills.RowToBill | app.py:30-44 | field i of the bill equals cell i of the row for i < 13, or `""` when that cell is missing; fields 0–9 equal cells 0–9 exactly |
| Bills.OptionalFieldsDefault | app.py:41-43 | Paid Amt, Status and Balance are `""` when the row has no cell 10, 11 or 12 respectively, and equal that cell when it is present |
| Bills.ExtraCellsIgnored | app.py:41-43 | cells after index 12 never influence the bill |
| Bills.RowRoundTrip | app.py:31-43 | a bill laid out as a 13-cell row reads back as the same bill, and a 13-cell row survives the trip row → bill → row unchanged |
| Bills.ToDict | app.py:30-44 | the dictionary has exactly the thirteen keys, and key i holds field i |
| Bills.RowDict | app.py:30-44 | the dictionary built for a qualifying row holds, under the i-th key, cell i of the row, or `""` for a missing optional cell |

## Left out

- The HTTP POST to the portal, with its URL, form payload and headers
  (app.py:7-15). This is network I/O. The response text is an input to the model.
- HTML parsing by BeautifulSoup: `find("table")`, `find_all("tr")`,
  `find_all("td")` and `get_text(strip=True)`. This is a foreign library. Its
  output is the `Page` input. `find_all("tr")` is recursive, so the rows of a
  table nested in the first one are part of the first table's row sequence
  in the input; the model does not derive that sequence from HTML. A row's
  cells are its `td` cells only: `th` cells are not counted, so a header of
  `th` cells is an empty row.
- The Flask app, form access, template rendering and `app.run`. These are web
  plumbing. The GET branch of the route, which shows neither bills nor an
  error, is part of this.
- Bills.ToDict: a Dafny `map` has no order, so the dictionary's insertion
  order (which the template may iterate) is carried by the `Keys` sequence
  rather than by the map itself.
- Numeric meaning of charges and amounts. The code treats every cell as
  opaque text, and so does the model.
