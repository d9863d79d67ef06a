/** `ChatbotView` (chatbot_app/views.py): the result summary of
    `_format_summary` and the way `post` turns the outcomes of its stages
    into a status code and a JSON envelope. */
module ChatbotView {
  import opened Text
  import opened Records
  import opened Errors
  import opened Report
  import opened Validation
  import opened Generation

  // ---------------------------------------------------------------------
  // _format_summary (views.py lines 96-133)
  // ---------------------------------------------------------------------

  /** The price columns, in the order they are tried. */
  const PriceFields: seq<string> := ["ListPrice", "StandardCost", "UnitPrice"]

  /** Columns that never appear as "column: value" items. */
  const ResultSkip: seq<string> := ["Name", "ListPrice", "StandardCost", "UnitPrice"]

  /** The message of the `IndexError` that `row[i]` raises on a short row. */
  const IndexErrorText: string := "tuple index out of range"

  /** A price column that is absent, or present with `None`, gives no price. */
  predicate Unpriced(d: Record, k: string) {
    match Get(d, k)
    case None => true
    case Some(v) => v == Null
  }

  /** `p` is the value of the first of `fields` that is present and not
      `None`, and `None` when there is no such field. */
  predicate FirstUsable(d: Record, fields: seq<string>, p: Option<Value>) {
    && (p.None? <==> forall k :: 0 <= k < |fields| ==> Unpriced(d, fields[k]))
    && (p.Some? ==>
          exists k :: 0 <= k < |fields| && !Unpriced(d, fields[k]) && Get(d, fields[k]) == Some(p.value) &&
            forall j :: 0 <= j < k ==> Unpriced(d, fields[j]))
  }

  /** The price-field loop as a recursion over the fields still to try. */
  function FirstPriceFrom(d: Record, fields: seq<string>): (p: Option<Value>)
    ensures FirstUsable(d, fields, p)
    decreases |fields|
  {
    if fields == [] then None
    else if !Unpriced(d, fields[0]) then Some(Get(d, fields[0]).value)
    else
      var rest := FirstPriceFrom(d, fields[1..]);
      FirstPriceShift(d, fields, rest);
      rest
  }

  /** Skipping an unusable first field keeps the description. */
  lemma FirstPriceShift(d: Record, fields: seq<string>, rest: Option<Value>)
    requires fields != [] && Unpriced(d, fields[0])
    requires FirstUsable(d, fields[1..], rest)
    ensures FirstUsable(d, fields, rest)
  {
    var tail := fields[1..];
    assert forall k :: 0 < k < |fields| ==> fields[k] == tail[k - 1];
    if rest.Some? {
      var k :| 0 <= k < |tail| && !Unpriced(d, tail[k]) &&
        Get(d, tail[k]) == Some(rest.value) && forall j :: 0 <= j < k ==> Unpriced(d, tail[j]);
      assert fields[k + 1] == tail[k];
      forall j | 0 <= j < k + 1 ensures Unpriced(d, fields[j]) {
        if j > 0 { assert fields[j] == tail[j - 1]; }
      }
    } else {
      forall k | 0 < k < |fields| ensures Unpriced(d, fields[k]) {
        assert fields[k] == tail[k - 1];
      }
    }
  }

  function FirstPrice(d: Record): Option<Value> {
    FirstPriceFrom(d, PriceFields)
  }

  /** The items of one row line: the name whenever the column is present,
      at most one price, then the remaining fields. */
  function ResultItems(d: Record): seq<Item> {
    (if "Name" in Keys(d) then [NameItem(Get(d, "Name").value)] else []) +
    (match FirstPrice(d) case Some(p) => [PriceItem(p)] case None => []) +
    FieldItems(d, ResultSkip)
  }

  /** A row line starts with the name when the `Name` column is present,
      holds the first usable price and no other, and otherwise only fields
      outside the skip list with a non-null value. */
  lemma ResultItemsShape(d: Record)
    ensures "Name" in Keys(d) ==> ResultItems(d)[0] == NameItem(Get(d, "Name").value)
    ensures forall it :: it in ResultItems(d) && it.NameItem? ==> Get(d, "Name") == Some(it.v)
    ensures FirstPrice(d).Some? ==> PriceItem(FirstPrice(d).value) in ResultItems(d)
    ensures forall it :: it in ResultItems(d) && it.PriceItem? ==> FirstPrice(d) == Some(it.v)
    ensures forall i, j :: 0 <= i < j < |ResultItems(d)| && ResultItems(d)[i].PriceItem? ==>
      !ResultItems(d)[j].PriceItem?
    ensures forall it :: it in ResultItems(d) && it.FieldItem? ==>
      it.column !in ResultSkip && it.v != Null && (it.column, it.v) in d
  {
    var a := if "Name" in Keys(d) then [NameItem(Get(d, "Name").value)] else [];
    var b := match FirstPrice(d) case Some(p) => [PriceItem(p)] case None => [];
    var fields := FieldItems(d, ResultSkip);
    assert ResultItems(d) == a + b + fields;
    ItemsByKind(a, b, fields);
    ResultItemsOnePrice(d);
  }

  /** In names, then prices, then fields, each kind of item comes from its own part. */
  lemma ItemsByKind(a: seq<Item>, b: seq<Item>, fields: seq<Item>)
    requires forall it :: it in a ==> it.NameItem?
    requires forall it :: it in b ==> it.PriceItem?
    requires forall it :: it in fields ==> it.FieldItem?
    ensures forall it :: it in a + b + fields && it.NameItem? ==> it in a
    ensures forall it :: it in a + b + fields && it.PriceItem? ==> it in b
    ensures forall it :: it in a + b + fields && it.FieldItem? ==> it in fields
  {
  }

  /** The price comes right after the name, before every field, as the
      price loop runs before the field loop. */
  lemma ResultPriceAfterName(d: Record)
    requires FirstPrice(d).Some?
    ensures ResultItems(d)[if "Name" in Keys(d) then 1 else 0] == PriceItem(FirstPrice(d).value)
  {
    var a := if "Name" in Keys(d) then [NameItem(Get(d, "Name").value)] else [];
    var b := [PriceItem(FirstPrice(d).value)];
    assert ResultItems(d) == a + b + FieldItems(d, ResultSkip);
    assert |a| == if "Name" in Keys(d) then 1 else 0;
    assert (a + b + FieldItems(d, ResultSkip))[|a|] == b[0];
  }

  /** Every non-null column outside the skip list is shown on its row's line. */
  lemma ResultItemsComplete(d: Record, i: nat)
    requires i < |d| && d[i].0 !in ResultSkip && d[i].1 != Null
    ensures FieldItem(d[i].0, d[i].1) in ResultItems(d)
  {
    FieldItemsComplete(d, ResultSkip, i);
    var a := if "Name" in Keys(d) then [NameItem(Get(d, "Name").value)] else [];
    var b := match FirstPrice(d) case Some(p) => [PriceItem(p)] case None => [];
    assert ResultItems(d) == a + b + FieldItems(d, ResultSkip);
  }

  lemma ResultItemsOnePrice(d: Record)
    ensures forall i, j :: 0 <= i < j < |ResultItems(d)| && ResultItems(d)[i].PriceItem? ==>
      !ResultItems(d)[j].PriceItem?
  {
    var a := if "Name" in Keys(d) then [NameItem(Get(d, "Name").value)] else [];
    var b := match FirstPrice(d) case Some(p) => [PriceItem(p)] case None => [];
    var fields := FieldItems(d, ResultSkip);
    var items := ResultItems(d);
    assert items == a + b + fields;
    AtMostOnePrice(a, b, fields);
  }

  /** Names, then at most one price, then fields: no price follows a price. */
  lemma AtMostOnePrice(a: seq<Item>, b: seq<Item>, fields: seq<Item>)
    requires forall it :: it in a ==> it.NameItem?
    requires |b| <= 1
    requires forall it :: it in fields ==> it.FieldItem?
    ensures forall i, j :: 0 <= i < j < |a + b + fields| && (a + b + fields)[i].PriceItem? ==>
      !(a + b + fields)[j].PriceItem?
  {
    var items := a + b + fields;
    forall k | 0 <= k < |a| ensures !items[k].PriceItem? {
      assert items[k] == a[k] && a[k] in a;
    }
    forall k | |a| + |b| <= k < |items| ensures !items[k].PriceItem? {
      var m := k - |a| - |b|;
      assert items[k] == fields[m] && fields[m] in fields;
    }
  }

  /** The price a line shows is the first of `ListPrice`, `StandardCost`,
      `UnitPrice` that is present and not `None`. */
  lemma PriceIsFirstUsable(d: Record, v: Value)
    ensures PriceItem(v) in ResultItems(d) <==>
      exists k :: 0 <= k < |PriceFields| && Get(d, PriceFields[k]) == Some(v) && v != Null &&
        forall j :: 0 <= j < k ==> Unpriced(d, PriceFields[j])
  {
    PriceItemIsFirstPrice(d, v);
    FirstUsableUnique(d, PriceFields, FirstPrice(d), v);
  }

  lemma PriceItemIsFirstPrice(d: Record, v: Value)
    ensures PriceItem(v) in ResultItems(d) <==> FirstPrice(d) == Some(v)
  {
    var a := if "Name" in Keys(d) then [NameItem(Get(d, "Name").value)] else [];
    var b := match FirstPrice(d) case Some(p) => [PriceItem(p)] case None => [];
    var fields := FieldItems(d, ResultSkip);
    assert ResultItems(d) == a + b + fields;
    assert PriceItem(v) !in a && PriceItem(v) !in fields;
  }

  /** The first usable field is unique: `p` holds `v` exactly when some
      field holds `v` and every earlier field is unusable. */
  lemma FirstUsableUnique(d: Record, fields: seq<string>, p: Option<Value>, v: Value)
    requires FirstUsable(d, fields, p)
    ensures p == Some(v) <==>
      exists k :: 0 <= k < |fields| && Get(d, fields[k]) == Some(v) && v != Null &&
        forall j :: 0 <= j < k ==> Unpriced(d, fields[j])
  {
    if p == Some(v) {
      FirstUsableWitness(d, fields, v);
    }
    if exists k :: 0 <= k < |fields| && Get(d, fields[k]) == Some(v) && v != Null &&
        forall j :: 0 <= j < k ==> Unpriced(d, fields[j]) {
      var k :| 0 <= k < |fields| && Get(d, fields[k]) == Some(v) && v != Null &&
        forall j :: 0 <= j < k ==> Unpriced(d, fields[j]);
      FirstUsableAt(d, fields, p, k);
    }
  }

  lemma FirstUsableWitness(d: Record, fields: seq<string>, v: Value)
    requires FirstUsable(d, fields, Some(v))
    ensures exists k :: 0 <= k < |fields| && Get(d, fields[k]) == Some(v) && v != Null &&
                        forall j :: 0 <= j < k ==> Unpriced(d, fields[j])
  {
    var k :| 0 <= k < |fields| && !Unpriced(d, fields[k]) && Get(d, fields[k]) == Some(v) &&
      forall j :: 0 <= j < k ==> Unpriced(d, fields[j]);
    assert v != Null;
  }

  lemma FirstUsableAt(d: Record, fields: seq<string>, p: Option<Value>, k: nat)
    requires FirstUsable(d, fields, p)
    requires k < |fields| && !Unpriced(d, fields[k])
    requires forall j :: 0 <= j < k ==> Unpriced(d, fields[j])
    ensures p == Get(d, fields[k])
  {
    var k' :| 0 <= k' < |fields| && !Unpriced(d, fields[k']) &&
      Get(d, fields[k']) == Some(p.value) && forall j :: 0 <= j < k' ==> Unpriced(d, fields[j]);
    assert k == k';
  }



  function ResultLine(d: Record, fmt: Formatting): string {
    BulletLine(ResultItems(d), fmt)
  }

  /** Every row is at least as long as the column list, so `row[i]` never fails. */
  predicate RowsCover(rows: seq<seq<Value>>, columns: seq<string>) {
    forall m :: 0 <= m < |rows| ==> |columns| <= |rows[m]|
  }

  /** One bullet line per row, in row order. */
  function ResultLines(rows: seq<seq<Value>>, columns: seq<string>, fmt: Formatting): (lines: seq<string>)
    ensures |lines| == |rows|
    decreases |rows|
  {
    if rows == [] then []
    else
      var n := |rows| - 1;
      ResultLines(rows[..n], columns, fmt) + [ResultLine(RowRecord(columns, rows[n]), fmt)]
  }

  lemma ResultLinesSnoc(rows: seq<seq<Value>>, k: nat, columns: seq<string>, fmt: Formatting)
    requires k < |rows|
    ensures ResultLines(rows[..k + 1], columns, fmt) ==
      ResultLines(rows[..k], columns, fmt) + [ResultLine(RowRecord(columns, rows[k]), fmt)]
  {
    assert rows[..k + 1][..k] == rows[..k];
  }

  /** What `_format_summary(rows, columns)` returns, or the exception it raises. */
  function ResultSummary(rows: seq<seq<Value>>, columns: seq<string>, fmt: Formatting): Outcome<string> {
    if rows == [] then Ok("No results found.")
    else if !RowsCover(rows, columns) then Raised(OtherError(IndexErrorText))
    else Ok(Join("\n", [CountHeader("result", |rows|)] + ResultLines(rows, columns, fmt)))
  }

  /** `_format_summary`, views.py lines 98-133. */
  method FormatSummary(results: seq<seq<Value>>, columns: seq<string>, fmt: Formatting)
    returns (r: Outcome<string>)
    ensures r == ResultSummary(results, columns, fmt)
    ensures results == [] ==> r == Ok("No results found.")
    ensures r.Raised? ==>
      r == Raised(OtherError(IndexErrorText)) && exists m :: 0 <= m < |results| && |results[m]| < |columns|
  {
    if results == [] {
      return Ok("No results found.");
    }
    var lines := BuildResultLines(results, columns, fmt);
    if lines.None? {
      return Raised(OtherError(IndexErrorText));
    }
    r := Ok(Join("\n", [CountHeader("result", |results|)] + lines.value));
  }

  /** The row loop of views.py lines 104-131: one bullet line per row, or
      `None` when some row is shorter than the column list. */
  method BuildResultLines(results: seq<seq<Value>>, columns: seq<string>, fmt: Formatting)
    returns (lines: Option<seq<string>>)
    ensures RowsCover(results, columns) ==> lines == Some(ResultLines(results, columns, fmt))
    ensures !RowsCover(results, columns) ==> lines == None
  {
    var summary := [];
    var k := 0;
    while k < |results|
      invariant 0 <= k <= |results|
      invariant RowsCover(results[..k], columns)
      invariant summary == ResultLines(results[..k], columns, fmt)
    {
      var row := results[k];
      var rowDict := BuildRowDict(columns, row);
      if rowDict.None? {
        ShortRowUncovered(results, k, columns);
        return None;
      }
      var line := FormatResultLine(rowDict.value, fmt);
      ResultLinesSnoc(results, k, columns, fmt);
      RowsCoverSnoc(results, k, columns);
      summary := summary + [line];
      k := k + 1;
    }
    assert results[..|results|] == results;
    lines := Some(summary);
  }

  /** `row_dict[col] = row[i]` for every `i, col in enumerate(columns)`: the
      row record, or `None` where `row[i]` raises `IndexError`. */
  lemma ShortRowUncovered(rows: seq<seq<Value>>, k: nat, columns: seq<string>)
    requires k < |rows| && |rows[k]| < |columns|
    ensures !RowsCover(rows, columns)
  {
  }

  lemma RowsCoverSnoc(rows: seq<seq<Value>>, k: nat, columns: seq<string>)
    requires k < |rows| && RowsCover(rows[..k], columns) && |columns| <= |rows[k]|
    ensures RowsCover(rows[..k + 1], columns)
  {
    var done := rows[..k + 1];
    forall m | 0 <= m < k + 1 ensures |columns| <= |done[m]| {
      if m < k { assert done[m] == rows[..k][m]; }
    }
  }

  method BuildRowDict(columns: seq<string>, row: seq<Value>) returns (d: Option<Record>)
    ensures |columns| <= |row| ==> d == Some(RowRecord(columns, row))
    ensures |row| < |columns| ==> d == None
  {
    var rowDict: Record := [];
    var i := 0;
    assert columns[..0] == [];
    while i < |columns|
      invariant 0 <= i <= |columns| && i <= |row|
      invariant rowDict == RowRecord(columns[..i], row)
    {
      if i >= |row| {
        return None;
      }
      RowRecordSnoc(columns, row, i);
      rowDict := Put(rowDict, columns[i], row[i]);
      i := i + 1;
    }
    assert columns[..i] == columns;
    return Some(rowDict);
  }

  /** The price loop of views.py lines 118-122, which stops at the first
      usable price field. */
  method FindPrice(rowDict: Record) returns (price: Option<Value>)
    ensures price == FirstPrice(rowDict)
  {
    price := None;
    var f := 0;
    while f < |PriceFields|
      invariant 0 <= f <= |PriceFields|
      invariant FirstPrice(rowDict) == FirstPriceFrom(rowDict, PriceFields[f..])
    {
      var priceField := PriceFields[f];
      assert PriceFields[f..][0] == priceField && PriceFields[f..][1..] == PriceFields[f + 1..];
      if priceField in Keys(rowDict) && Get(rowDict, priceField).value != Null {
        price := Some(Get(rowDict, priceField).value);
        break;
      }
      f := f + 1;
    }
  }

  /** The body of the row loop, views.py lines 111-131: the bullet line of one row. */
  method FormatResultLine(rowDict: Record, fmt: Formatting) returns (line: string)
    ensures line == ResultLine(rowDict, fmt)
  {
    var named := if "Name" in Keys(rowDict) then [NameItem(Get(rowDict, "Name").value)] else [];
    var lineItems := RenderAll(named, fmt);
    var price := FindPrice(rowDict);
    var priced := match price case Some(p) => [PriceItem(p)] case None => [];
    RenderAllAppend(named, priced, fmt);
    lineItems := lineItems + RenderAll(priced, fmt);
    var head := named + priced;
    var fieldTexts := FieldTexts(rowDict, ResultSkip, fmt);
    RenderAllAppend(head, FieldItems(rowDict, ResultSkip), fmt);
    lineItems := lineItems + fieldTexts;
    line := Bullet + Join(" - ", lineItems);
  }

  // ---------------------------------------------------------------------
  // Properties of the summary
  // ---------------------------------------------------------------------

  lemma {:induction false} ResultLinesAt(rows: seq<seq<Value>>, columns: seq<string>, fmt: Formatting, i: nat)
    requires i < |rows|
    ensures ResultLines(rows, columns, fmt)[i] == ResultLine(RowRecord(columns, rows[i]), fmt)
    decreases |rows|
  {
    var n := |rows| - 1;
    var prefix := ResultLines(rows[..n], columns, fmt);
    var lines := ResultLines(rows, columns, fmt);
    assert lines == prefix + [ResultLine(RowRecord(columns, rows[n]), fmt)];
    if i < n {
      var x := rows[..n][i];
      assert x == rows[i];
      ResultLinesAt(rows[..n], columns, fmt, i);
      assert prefix[i] == ResultLine(RowRecord(columns, x), fmt);
      assert lines[i] == prefix[i];
    } else {
      assert i == n && |prefix| == n;
      assert lines[i] == ResultLine(RowRecord(columns, rows[n]), fmt);
    }
  }

  /** When every row covers the columns, the summary splits into the header
      and exactly one line per row, each row's line in row order, and the
      header says "result" in the plural exactly when there is not one row. */
  lemma ResultSummaryLines(rows: seq<seq<Value>>, columns: seq<string>, fmt: Formatting)
    requires rows != [] && RowsCover(rows, columns)
    requires NoNewlines(rows, columns, fmt)
    ensures ResultSummary(rows, columns, fmt).Ok?
    ensures var lines := SplitOn(ResultSummary(rows, columns, fmt).value, '\n');
      && |lines| == 1 + |rows|
      && lines[0] == CountHeader("result", |rows|)
      && (EndsWith(lines[0], "s:") <==> |rows| != 1)
      && forall i :: 0 <= i < |rows| ==> lines[i + 1] == ResultLine(RowRecord(columns, rows[i]), fmt)
  {
    var header := CountHeader("result", |rows|);
    var body := ResultLines(rows, columns, fmt);
    assert ResultSummary(rows, columns, fmt) == Ok(Join("\n", [header] + body));
    ResultHeaderShape(|rows|);
    ResultLinesHaveNoNewline(rows, columns, fmt);
    HeaderAndLines(header, body);
    var lines := SplitOn(ResultSummary(rows, columns, fmt).value, '\n');
    forall i | 0 <= i < |rows| ensures lines[i + 1] == ResultLine(RowRecord(columns, rows[i]), fmt) {
      assert lines[i + 1] == lines[1..][i] == body[i];
      ResultLinesAt(rows, columns, fmt, i);
    }
  }

  lemma ResultHeaderShape(n: nat)
    ensures EndsWith(CountHeader("result", n), "s:") <==> n != 1
    ensures '\n' !in CountHeader("result", n)
  {
    HeaderShape("result", n);
  }

  lemma ResultLinesHaveNoNewline(rows: seq<seq<Value>>, columns: seq<string>, fmt: Formatting)
    requires NoNewlines(rows, columns, fmt)
    ensures forall l :: l in ResultLines(rows, columns, fmt) ==> '\n' !in l
  {
    var body := ResultLines(rows, columns, fmt);
    forall l | l in body ensures '\n' !in l {
      var i :| 0 <= i < |body| && body[i] == l;
      ResultLinesAt(rows, columns, fmt, i);
      assert rows[i] in rows;
      var d := RowRecord(columns, rows[i]);
      RowRecordEntries(columns, rows[i]);
      ResultTextsHaveNoNewline(d, fmt);
      JoinAvoids(" - ", RenderAll(ResultItems(d), fmt), '\n');
    }
  }

  lemma ResultTextsHaveNoNewline(d: Record, fmt: Formatting)
    requires forall e :: e in d ==> '\n' !in e.0 && '\n' !in Show(e.1, fmt)
    requires forall v :: '\n' !in fmt.twoDecimals(v)
    ensures forall t :: t in RenderAll(ResultItems(d), fmt) ==> '\n' !in t
  {
    var items := ResultItems(d);
    var texts := RenderAll(items, fmt);
    forall t | t in texts ensures '\n' !in t {
      var k :| 0 <= k < |texts| && texts[k] == t;
      ResultItemHasNoNewline(d, items[k], fmt);
    }
  }

  /** An item of a row line holds no line break when the record's texts hold none. */
  lemma ResultItemHasNoNewline(d: Record, it: Item, fmt: Formatting)
    requires forall e :: e in d ==> '\n' !in e.0 && '\n' !in Show(e.1, fmt)
    requires forall v :: '\n' !in fmt.twoDecimals(v)
    requires it in ResultItems(d)
    ensures '\n' !in Render(it, fmt)
  {
    ResultItemsShape(d);
    if it.NameItem? {
      GetIn(d, "Name");
    }
  }

  /** A short row anywhere in a non-empty result makes the summary raise. */
  lemma ShortRowRaises(rows: seq<seq<Value>>, columns: seq<string>, fmt: Formatting, m: nat)
    requires m < |rows| && |rows[m]| < |columns|
    ensures ResultSummary(rows, columns, fmt) == Raised(OtherError(IndexErrorText))
  {
    assert !RowsCover(rows, columns);
  }

  // ---------------------------------------------------------------------
  // post (views.py lines 18-75)
  // ---------------------------------------------------------------------

  /** The stages `post` calls, in the order it calls them. */
  datatype Stage = Generate | ListTables | ValidateQuery | ExecuteQuery | Summarize

  const AllStages: seq<Stage> := [Generate, ListTables, ValidateQuery, ExecuteQuery, Summarize]

  /** What `get_table_names()` does: the table names, or the text of the
      driver error it turns into a `DatabaseError`. */
  datatype TableListing = Tables(names: seq<string>) | TablesFailed(detail: string)

  /** What `_execute_query(sql)` does: rows and column names, or the text of
      the driver error that escapes from it unchanged. */
  datatype Execution = Executed(rows: seq<seq<Value>>, columns: seq<string>) | ExecutionFailed(detail: string)

  /** The JSON body of the response. */
  datatype Body =
    | NoInputBody                                                  // {"error": "No input provided"}
    | ErrorBody(error: string, details: Option<string>, userInput: string)               // "status": "error"
    | SuccessBody(summary: string, userInput: string, sqlQuery: string, results: seq<Record>) // "status": "success"

  datatype Response = Response(status: int, body: Body)

  /** A response and the stages that ran before it was produced. */
  datatype Handled = Handled(response: Response, calls: seq<Stage>)

  /** `get_table_names()` (utils.py lines 55-63). */
  function FetchTables(t: TableListing): (r: Outcome<seq<string>>)
    ensures r.Raised? <==> t.TablesFailed?
    ensures t.TablesFailed? ==> r.exc == DatabaseError("Failed to fetch table names: " + t.detail)
  {
    match t
    case Tables(names) => Ok(names)
    case TablesFailed(d) => Raised(DatabaseError("Failed to fetch table names: " + d))
  }

  /** The `except` clauses of views.py lines 51-75: the status code and the
      body for an exception that escaped the stages. */
  function ErrorResponse(e: Exc, userInput: string): (r: Response)
    ensures r.status == 400 <==> e.DatabaseError? || e.QueryValidationError?
    ensures r.status == 500 <==> e.APIConfigError? || e.OtherError?
    ensures r.body.ErrorBody? && r.body.userInput == userInput
    ensures r.body.details.None? <==> r.status == 400
    ensures r.status == 400 ==> r.body.error == e.msg
    ensures r.status == 500 ==> r.body.details == Some(e.msg)
    ensures e.APIConfigError? ==> r.body.error == "API configuration error. Please contact the administrator."
    ensures e.OtherError? ==> r.body.error == "An unexpected error occurred."
  {
    match e
    case DatabaseError(m) => Response(400, ErrorBody(m, None, userInput))
    case QueryValidationError(m) => Response(400, ErrorBody(m, None, userInput))
    case APIConfigError(m) =>
      Response(500, ErrorBody("API configuration error. Please contact the administrator.", Some(m), userInput))
    case OtherError(m) => Response(500, ErrorBody("An unexpected error occurred.", Some(m), userInput))
  }

  /** `[dict(zip(columns, row)) for row in results]`. */
  function RowRecords(rows: seq<seq<Value>>, columns: seq<string>): (rs: seq<Record>)
    ensures |rs| == |rows|
    ensures forall i :: 0 <= i < |rows| ==> rs[i] == RowRecord(columns, rows[i])
  {
    seq(|rows|, i requires 0 <= i < |rows| => RowRecord(columns, rows[i]))
  }

  /** The outcomes of the stages `post` calls: what `generate_sql_query`
      returns or raises, the same for `get_table_names`, the verdict of
      `validate_query` on those two results, what `_execute_query` does, and
      what `_format_summary` returns or raises on the executed rows. Each is
      consulted only when every stage before it returned. */
  datatype StageOutcomes = StageOutcomes(
    generated: Outcome<string>,
    tables: Outcome<seq<string>>,
    verdict: Verdict,
    execution: Execution,
    summary: Outcome<string>)

  /** `post` over the outcomes of its stages, views.py lines 20-75. */
  function Post(input: Option<string>, s: StageOutcomes): Handled {
    if input == None || input == Some("") then Handled(Response(400, NoInputBody), [])
    else
      var u := input.value;
      match s.generated
      case Raised(e) => Handled(ErrorResponse(e, u), [Generate])
      case Ok(sql) =>
        match s.tables
        case Raised(e) => Handled(ErrorResponse(e, u), [Generate, ListTables])
        case Ok(_) =>
          match s.verdict
          case Reject(_, m) =>
            Handled(ErrorResponse(QueryValidationError(m), u), [Generate, ListTables, ValidateQuery])
          case Accept =>
            match s.execution
            case ExecutionFailed(d) =>
              Handled(ErrorResponse(OtherError(d), u), [Generate, ListTables, ValidateQuery, ExecuteQuery])
            case Executed(rows, columns) =>
              match s.summary
              case Raised(e) => Handled(ErrorResponse(e, u), AllStages)
              case Ok(text) =>
                Handled(Response(200, SuccessBody(text, u, sql, RowRecords(rows, columns))), AllStages)
  }

  /** The stage outcomes for a model completion `c`, a table listing `t`
      and an execution `x`. */
  function Stages(c: Completion, t: TableListing, x: Execution, fmt: Formatting): (s: StageOutcomes)
    ensures s.generated == GenerateSqlQuery(c) && s.tables == FetchTables(t) && s.execution == x
    ensures c.Completed? && t.Tables? ==> s.verdict == Validate(CleanQuery(c.text), t.names)
    ensures x.Executed? ==> s.summary == ResultSummary(x.rows, x.columns, fmt)
  {
    var generated := GenerateSqlQuery(c);
    var tables := FetchTables(t);
    StageOutcomes(
      generated,
      tables,
      if generated.Ok? && tables.Ok? then Validate(generated.value, tables.value) else Accept,
      x,
      if x.Executed? then ResultSummary(x.rows, x.columns, fmt) else Ok(""))
  }

  // ---------------------------------------------------------------------
  // Properties of post
  // ---------------------------------------------------------------------

  /** `if not user_input`: the input is missing or the empty string. */
  predicate Present(input: Option<string>) {
    input.Some? && input.value != ""
  }

  /** Generation and the table listing returned and validation accepted. */
  predicate Accepted(s: StageOutcomes) {
    s.generated.Ok? && s.tables.Ok? && s.verdict == Accept
  }

  /** The exceptions the first `except` clause answers with 400. */
  predicate ClientError(e: Exc) {
    e.DatabaseError? || e.QueryValidationError?
  }

  /** A missing or empty input is answered with 400 and "No input provided"
      before any stage runs; any other input runs generation first. */
  lemma NoInputShortCircuit(input: Option<string>, s: StageOutcomes)
    ensures !Present(input) <==> Post(input, s).response == Response(400, NoInputBody)
    ensures !Present(input) <==> Post(input, s).calls == []
    ensures Present(input) ==> Post(input, s).calls[0] == Generate
  {
    if Present(input) {
      assert Post(input, s).response.body.ErrorBody? || Post(input, s).response.body.SuccessBody?;
    }
  }

  /** The stages that ran are always the first ones in the source's order:
      the query is never executed before it was generated and validated. */
  lemma CallsFollowOrder(input: Option<string>, s: StageOutcomes)
    ensures var calls := Post(input, s).calls;
      |calls| <= |AllStages| && calls == AllStages[..|calls|]
  {
    assert AllStages[..0] == [];
    assert AllStages[..1] == [Generate];
    assert AllStages[..2] == [Generate, ListTables];
    assert AllStages[..3] == [Generate, ListTables, ValidateQuery];
    assert AllStages[..4] == [Generate, ListTables, ValidateQuery, ExecuteQuery];
    assert AllStages[..5] == AllStages;
  }

  /** The query is executed exactly when the input is present, generation
      and the table listing returned, and `validate_query` accepted. */
  lemma ExecutesOnlyAfterAccept(input: Option<string>, s: StageOutcomes)
    ensures ExecuteQuery in Post(input, s).calls <==> Present(input) && Accepted(s)
  {
  }

  /** A rejected query is never executed; its message is returned with 400. */
  lemma RejectionNeverExecutes(input: Option<string>, s: StageOutcomes)
    requires Present(input) && s.generated.Ok? && s.tables.Ok? && s.verdict.Reject?
    ensures Post(input, s).response == Response(400, ErrorBody(s.verdict.message, None, input.value))
    ensures ExecuteQuery !in Post(input, s).calls
  {
  }

  /** Which outcome gives which status: 400 for a missing input, for a
      `DatabaseError` or `QueryValidationError` from any stage and for a
      rejected query; 500 for any other exception, including every failure
      of the execution; 200 only for a complete run. */
  lemma StatusClassification(input: Option<string>, s: StageOutcomes)
    ensures var r := Post(input, s).response;
      && (r.status == 200 || r.status == 400 || r.status == 500)
      && (r.status == 200 <==> r.body.SuccessBody?)
      && (r.status == 200 <==>
            Present(input) && Accepted(s) && s.execution.Executed? && s.summary.Ok?)
      && (r.status == 400 <==>
            || !Present(input)
            || (s.generated.Raised? && ClientError(s.generated.exc))
            || (s.generated.Ok? && s.tables.Raised? && ClientError(s.tables.exc))
            || (s.generated.Ok? && s.tables.Ok? && s.verdict.Reject?)
            || (Accepted(s) && s.execution.Executed? && s.summary.Raised? && ClientError(s.summary.exc)))
  {
  }

  /** Every error answer after the input check echoes the input and carries
      the message of the exception that escaped (as `error` for 400, as
      `details` for 500). */
  lemma ErrorsEchoInput(input: Option<string>, s: StageOutcomes)
    requires Present(input)
    ensures var r := Post(input, s).response;
      r.body.ErrorBody? ==> r.body.userInput == input.value
    ensures var r := Post(input, s).response;
      s.generated.Raised? ==> r == ErrorResponse(s.generated.exc, input.value)
    ensures var r := Post(input, s).response;
      s.generated.Ok? && s.tables.Raised? ==> r == ErrorResponse(s.tables.exc, input.value)
    ensures var r := Post(input, s).response;
      Accepted(s) && s.execution.ExecutionFailed? ==>
        r == Response(500, ErrorBody("An unexpected error occurred.", Some(s.execution.detail), input.value))
    ensures var r := Post(input, s).response;
      Accepted(s) && s.execution.Executed? && s.summary.Raised? ==> r == ErrorResponse(s.summary.exc, input.value)
  {
  }

  /** A successful answer echoes the input and carries the generated query,
      the summary text and one column-keyed record per row, in row order. */
  lemma SuccessEnvelope(input: Option<string>, s: StageOutcomes)
    requires Post(input, s).response.status == 200
    ensures var b := Post(input, s).response.body;
      && b.SuccessBody?
      && Some(b.userInput) == input
      && Ok(b.sqlQuery) == s.generated
      && Ok(b.summary) == s.summary
      && |b.results| == |s.execution.rows|
      && forall i :: 0 <= i < |b.results| ==> b.results[i] == RowRecord(s.execution.columns, s.execution.rows[i])
  {
    StatusClassification(input, s);
  }

  // The concrete stages.

  /** With the concrete stages, the query is executed exactly when the model
      answered, the tables were listed and `validate_query` accepts the
      cleaned answer. */
  lemma PipelineExecutesOnlyValidated(input: Option<string>, c: Completion, t: TableListing, x: Execution, fmt: Formatting)
    ensures ExecuteQuery in Post(input, Stages(c, t, x, fmt)).calls <==>
      Present(input) && c.Completed? && t.Tables? && Validate(CleanQuery(c.text), t.names) == Accept
  {
    var s := Stages(c, t, x, fmt);
    ExecutesOnlyAfterAccept(input, s);
  }

  /** A configuration error is answered with 500 and the administrator
      message; any other failure of generation is wrapped as a
      `DatabaseError` and answered with 400. */
  lemma GenerationFailures(input: Option<string>, c: Completion, t: TableListing, x: Execution, fmt: Formatting)
    requires Present(input) && !c.Completed?
    ensures var r := Post(input, Stages(c, t, x, fmt)).response;
      c.ConfigFailed? ==>
        r == Response(500, ErrorBody("API configuration error. Please contact the administrator.", Some(c.msg), input.value))
    ensures var r := Post(input, Stages(c, t, x, fmt)).response;
      c.CallFailed? ==>
        r == Response(400, ErrorBody("Failed to generate SQL query: " + c.detail, None, input.value))
  {
    var s := Stages(c, t, x, fmt);
    assert s.generated == GenerateSqlQuery(c);
    ErrorsEchoInput(input, s);
  }

  /** A failed table listing is answered with 400 and the wrapped message. */
  lemma TableFailure(input: Option<string>, c: Completion, t: TableListing, x: Execution, fmt: Formatting)
    requires Present(input) && c.Completed? && t.TablesFailed?
    ensures Post(input, Stages(c, t, x, fmt)).response ==
      Response(400, ErrorBody("Failed to fetch table names: " + t.detail, None, input.value))
  {
    var s := Stages(c, t, x, fmt);
    assert s.generated.Ok? && s.tables == Raised(DatabaseError("Failed to fetch table names: " + t.detail));
    ErrorsEchoInput(input, s);
  }

  /** After validation, a failed execution is answered with 500 and the
      driver's message as `details`. */
  lemma ExecutionFailure(input: Option<string>, c: Completion, t: TableListing, x: Execution, fmt: Formatting)
    requires Present(input) && c.Completed? && t.Tables? && Validate(CleanQuery(c.text), t.names) == Accept
    requires x.ExecutionFailed?
    ensures Post(input, Stages(c, t, x, fmt)).response ==
      Response(500, ErrorBody("An unexpected error occurred.", Some(x.detail), input.value))
  {
    var s := Stages(c, t, x, fmt);
    assert Accepted(s);
    ErrorsEchoInput(input, s);
  }

  /** A successful answer carries the cleaned, validated query, ended by a
      semicolon, and a record per row keyed by exactly the column names. */
  lemma PipelineSuccess(input: Option<string>, c: Completion, t: TableListing, x: Execution, fmt: Formatting)
    requires Post(input, Stages(c, t, x, fmt)).response.status == 200
    ensures c.Completed? && t.Tables? && x.Executed?
    ensures var b := Post(input, Stages(c, t, x, fmt)).response.body;
      && b.SuccessBody?
      && b.sqlQuery == CleanQuery(c.text)
      && EndsWith(b.sqlQuery, ";")
      && Validate(b.sqlQuery, t.names) == Accept
      && Ok(b.summary) == ResultSummary(x.rows, x.columns, fmt)
      && forall i, k :: 0 <= i < |b.results| ==> (k in Keys(b.results[i]) <==> k in x.columns)
  {
    var s := Stages(c, t, x, fmt);
    StatusClassification(input, s);
    SuccessEnvelope(input, s);
    var b := Post(input, s).response.body;
    CleanQueryShape(c.text);
    assert x.Executed?;
    assert x.rows == [] || RowsCover(x.rows, x.columns);
    forall i, k | 0 <= i < |b.results| ensures k in Keys(b.results[i]) <==> k in x.columns {
      assert |x.columns| <= |x.rows[i]|;
      RowRecordKeys(x.columns, x.rows[i], k);
    }
  }
}
