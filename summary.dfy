/** `format_result_summary` (chatbot_app/utils.py): the product-oriented
    text summary of a result set, a header "Found N product(s):" and one
    bullet line per row. */
module Summary {
  import opened Text
  import opened Records
  import opened Report

  /** Columns that never appear as "column: value" items. */
  const ProductSkip: seq<string> := ["Name", "ProductName", "ListPrice", "StandardCost"]

  /** `result_dict.get('ListPrice', result_dict.get('StandardCost', None))`. */
  function ProductPrice(d: Record): (v: Value)
    ensures "ListPrice" in Keys(d) ==> Get(d, "ListPrice") == Some(v)
    ensures "ListPrice" !in Keys(d) && "StandardCost" in Keys(d) ==> Get(d, "StandardCost") == Some(v)
    ensures "ListPrice" !in Keys(d) && "StandardCost" !in Keys(d) ==> v == Null
  {
    GetOr(d, "ListPrice", GetOr(d, "StandardCost", Null))
  }

  /** `result_dict.get('Name', result_dict.get('ProductName', ''))`. */
  function ProductName(d: Record): (v: Value)
    ensures "Name" in Keys(d) ==> Get(d, "Name") == Some(v)
    ensures "Name" !in Keys(d) && "ProductName" in Keys(d) ==> Get(d, "ProductName") == Some(v)
    ensures "Name" !in Keys(d) && "ProductName" !in Keys(d) ==> v == Str("")
  {
    GetOr(d, "Name", GetOr(d, "ProductName", Str("")))
  }

  /** The items of one row line: the name when it is truthy, the price when
      it is not `None`, then the remaining fields. */
  function ProductItems(d: Record): seq<Item> {
    var name := ProductName(d);
    var price := ProductPrice(d);
    (if Truthy(name) then [NameItem(name)] else []) +
    (if price != Null then [PriceItem(price)] else []) +
    FieldItems(d, ProductSkip)
  }

  /** A row line has the name first when it is truthy, the price when it is
      not `None`, no other name or price, and only fields outside the skip
      list with a non-null value. */
  lemma ProductItemsShape(d: Record)
    ensures NameItem(ProductName(d)) in ProductItems(d) <==> Truthy(ProductName(d))
    ensures Truthy(ProductName(d)) ==> ProductItems(d)[0] == NameItem(ProductName(d))
    ensures PriceItem(ProductPrice(d)) in ProductItems(d) <==> ProductPrice(d) != Null
    ensures forall it :: it in ProductItems(d) && it.NameItem? ==> it.v == ProductName(d)
    ensures forall it :: it in ProductItems(d) && it.PriceItem? ==> it.v == ProductPrice(d)
    ensures forall it :: it in ProductItems(d) && it.FieldItem? ==>
      it.column !in ProductSkip && it.v != Null && (it.column, it.v) in d
  {
    var name := ProductName(d);
    var price := ProductPrice(d);
    var a := if Truthy(name) then [NameItem(name)] else [];
    var b := if price != Null then [PriceItem(price)] else [];
    var fields := FieldItems(d, ProductSkip);
    assert ProductItems(d) == a + b + fields;
    assert forall it :: it in a + b + fields ==> it in a || it in b || it in fields;
  }

  /** Every non-null field outside the skip list is shown on its row's line. */
  lemma ProductItemsComplete(d: Record, i: nat)
    requires i < |d| && d[i].0 !in ProductSkip && d[i].1 != Null
    ensures FieldItem(d[i].0, d[i].1) in ProductItems(d)
  {
    FieldItemsComplete(d, ProductSkip, i);
    var name := ProductName(d);
    var price := ProductPrice(d);
    var a := if Truthy(name) then [NameItem(name)] else [];
    var b := if price != Null then [PriceItem(price)] else [];
    assert ProductItems(d) == a + b + FieldItems(d, ProductSkip);
  }

  /** The price comes right after the name, before every field. */
  lemma ProductPriceAfterName(d: Record)
    requires ProductPrice(d) != Null
    ensures ProductItems(d)[if Truthy(ProductName(d)) then 1 else 0] == PriceItem(ProductPrice(d))
  {
    var name := ProductName(d);
    var a := if Truthy(name) then [NameItem(name)] else [];
    var b := [PriceItem(ProductPrice(d))];
    assert ProductItems(d) == a + b + FieldItems(d, ProductSkip);
    assert (a + b + FieldItems(d, ProductSkip))[|a|] == b[0];
  }

  /** A present `ListPrice` column holding `None` hides the price entirely:
      `dict.get` returns the stored `None` and the `StandardCost` fallback is
      never consulted. */
  lemma NullListPriceHidesCost(d: Record)
    requires Get(d, "ListPrice") == Some(Null)
    ensures forall it :: it in ProductItems(d) ==> !it.PriceItem?
  {
    ProductItemsShape(d);
  }

  function ProductLine(columns: seq<string>, row: seq<Value>, fmt: Formatting): string {
    BulletLine(ProductItems(RowRecord(columns, row)), fmt)
  }

  /** One bullet line per row, in row order. */
  function ProductLines(rows: seq<seq<Value>>, columns: seq<string>, fmt: Formatting): (lines: seq<string>)
    ensures |lines| == |rows|
    decreases |rows|
  {
    if rows == [] then []
    else
      var n := |rows| - 1;
      ProductLines(rows[..n], columns, fmt) + [ProductLine(columns, rows[n], fmt)]
  }

  /** The text `format_result_summary(rows, columns)` returns. */
  function ProductSummary(rows: seq<seq<Value>>, columns: seq<string>, fmt: Formatting): string {
    if rows == [] then "No products found."
    else Join("\n", [CountHeader("product", |rows|)] + ProductLines(rows, columns, fmt))
  }

  /** `format_result_summary`, utils.py lines 244-278. */
  method FormatResultSummary(results: seq<seq<Value>>, columns: seq<string>, fmt: Formatting)
    returns (text: string)
    ensures text == ProductSummary(results, columns, fmt)
    ensures results == [] ==> text == "No products found."
  {
    if results == [] {
      return "No products found.";
    }
    var lines := BuildProductLines(results, columns, fmt);
    text := Join("\n", [CountHeader("product", |results|)] + lines);
  }

  /** The row loop of utils.py lines 252-275: one bullet line per row. */
  method BuildProductLines(results: seq<seq<Value>>, columns: seq<string>, fmt: Formatting)
    returns (lines: seq<string>)
    ensures lines == ProductLines(results, columns, fmt)
  {
    lines := [];
    var r := 0;
    while r < |results|
      invariant 0 <= r <= |results|
      invariant lines == ProductLines(results[..r], columns, fmt)
    {
      var resultDict := RowRecord(columns, results[r]);
      var line := FormatProductLine(resultDict, fmt);
      ProductLinesSnoc(results, r, columns, fmt);
      lines := lines + [line];
      r := r + 1;
    }
    assert results[..|results|] == results;
  }

  /** The body of the loop of utils.py lines 252-275: the bullet line of one row. */
  method FormatProductLine(resultDict: Record, fmt: Formatting) returns (line: string)
    ensures line == BulletLine(ProductItems(resultDict), fmt)
  {
    var price := GetOr(resultDict, "ListPrice", GetOr(resultDict, "StandardCost", Null));
    var name := GetOr(resultDict, "Name", GetOr(resultDict, "ProductName", Str("")));
    var head := (if Truthy(name) then [NameItem(name)] else []) + (if price != Null then [PriceItem(price)] else []);
    var lineItems := RenderAll(head, fmt);
    var fieldTexts := FieldTexts(resultDict, ProductSkip, fmt);
    RenderAllAppend(head, FieldItems(resultDict, ProductSkip), fmt);
    lineItems := lineItems + fieldTexts;
    line := Bullet + Join(" - ", lineItems);
  }

  lemma {:induction false} ProductLinesAt(rows: seq<seq<Value>>, columns: seq<string>, fmt: Formatting, i: nat)
    requires i < |rows|
    ensures ProductLines(rows, columns, fmt)[i] == ProductLine(columns, rows[i], fmt)
    decreases |rows|
  {
    var n := |rows| - 1;
    var prefix := ProductLines(rows[..n], columns, fmt);
    var lines := ProductLines(rows, columns, fmt);
    assert lines == prefix + [ProductLine(columns, rows[n], fmt)];
    if i < n {
      var x := rows[..n][i];
      assert x == rows[i];
      ProductLinesAt(rows[..n], columns, fmt, i);
      assert prefix[i] == ProductLine(columns, x, fmt);
      assert lines[i] == prefix[i];
    } else {
      assert i == n && |prefix| == n;
      assert lines[i] == ProductLine(columns, rows[n], fmt);
    }
  }

  lemma ProductLinesSnoc(rows: seq<seq<Value>>, r: nat, columns: seq<string>, fmt: Formatting)
    requires r < |rows|
    ensures ProductLines(rows[..r + 1], columns, fmt) == ProductLines(rows[..r], columns, fmt) + [ProductLine(columns, rows[r], fmt)]
  {
    assert rows[..r + 1][..r] == rows[..r];
  }

  // ---------------------------------------------------------------------
  // Properties
  // ---------------------------------------------------------------------

  /** For a non-empty result, the summary splits into the header and exactly
      one line per row, and the header says "product" in the plural exactly
      when there is not one row. */
  lemma SummaryLines(rows: seq<seq<Value>>, columns: seq<string>, fmt: Formatting)
    requires rows != []
    requires NoNewlines(rows, columns, fmt)
    ensures var lines := SplitOn(ProductSummary(rows, columns, fmt), '\n');
      && |lines| == 1 + |rows|
      && lines[0] == CountHeader("product", |rows|)
      && (EndsWith(lines[0], "s:") <==> |rows| != 1)
      && forall i :: 0 <= i < |rows| ==> lines[i + 1] == ProductLine(columns, rows[i], fmt)
  {
    var header := CountHeader("product", |rows|);
    var body := ProductLines(rows, columns, fmt);
    assert ProductSummary(rows, columns, fmt) == Join("\n", [header] + body);
    ProductHeaderShape(|rows|);
    LinesHaveNoNewline(rows, columns, fmt);
    HeaderAndLines(header, body);
    var lines := SplitOn(ProductSummary(rows, columns, fmt), '\n');
    forall i | 0 <= i < |rows| ensures lines[i + 1] == ProductLine(columns, rows[i], fmt) {
      assert lines[i + 1] == lines[1..][i] == body[i];
      ProductLinesAt(rows, columns, fmt, i);
    }
  }

  lemma ProductHeaderShape(n: nat)
    ensures EndsWith(CountHeader("product", n), "s:") <==> n != 1
    ensures '\n' !in CountHeader("product", n)
  {
    HeaderShape("product", n);
  }

  lemma LinesHaveNoNewline(rows: seq<seq<Value>>, columns: seq<string>, fmt: Formatting)
    requires NoNewlines(rows, columns, fmt)
    ensures forall l :: l in ProductLines(rows, columns, fmt) ==> '\n' !in l
  {
    var body := ProductLines(rows, columns, fmt);
    forall l | l in body ensures '\n' !in l {
      var i :| 0 <= i < |body| && body[i] == l;
      ProductLinesAt(rows, columns, fmt, i);
      assert rows[i] in rows;
      LineHasNoNewline(columns, rows[i], fmt);
    }
  }

  lemma LineHasNoNewline(columns: seq<string>, row: seq<Value>, fmt: Formatting)
    requires forall c :: c in columns ==> '\n' !in c
    requires forall v :: v in row ==> '\n' !in Show(v, fmt)
    requires forall v :: '\n' !in fmt.twoDecimals(v)
    ensures '\n' !in ProductLine(columns, row, fmt)
  {
    var d := RowRecord(columns, row);
    RowRecordEntries(columns, row);
    TextsHaveNoNewline(d, fmt);
    JoinAvoids(" - ", RenderAll(ProductItems(d), fmt), '\n');
  }

  lemma TextsHaveNoNewline(d: Record, fmt: Formatting)
    requires forall e :: e in d ==> '\n' !in e.0 && '\n' !in Show(e.1, fmt)
    requires forall v :: '\n' !in fmt.twoDecimals(v)
    ensures forall t :: t in RenderAll(ProductItems(d), fmt) ==> '\n' !in t
  {
    var items := ProductItems(d);
    var texts := RenderAll(items, fmt);
    forall t | t in texts ensures '\n' !in t {
      var k :| 0 <= k < |texts| && texts[k] == t;
      ItemHasNoNewline(d, items[k], fmt);
    }
  }

  /** An item of a row line holds no line break when the record's texts hold none. */
  lemma ItemHasNoNewline(d: Record, it: Item, fmt: Formatting)
    requires forall e :: e in d ==> '\n' !in e.0 && '\n' !in Show(e.1, fmt)
    requires forall v :: '\n' !in fmt.twoDecimals(v)
    requires it in ProductItems(d)
    ensures '\n' !in Render(it, fmt)
  {
    ProductItemsShape(d);
    match it
    case NameItem(v) =>
      GetIn(d, "Name");
      GetIn(d, "ProductName");
    case PriceItem(v) =>
    case FieldItem(c, v) =>
  }
}
