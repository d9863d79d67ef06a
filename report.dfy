/** The pieces both deterministic summarisers are made of: a header line
    "Found N <noun>(s):" and one bullet line per row, each a " - "-joined list
    of items (a name, a price, then "column: value" fields). */
module Report {
  import opened Text
  import opened Records

  /** One item of a row line before it is turned into text. */
  datatype Item =
    | NameItem(v: Value)
    | PriceItem(v: Value)
    | FieldItem(column: string, v: Value)

  /** The text of an item: `str(name)`, `f"${price:.2f}"`, `f"{col}: {val}"`. */
  function Render(it: Item, fmt: Formatting): string {
    match it
    case NameItem(v) => Show(v, fmt)
    case PriceItem(v) => "$" + fmt.twoDecimals(v)
    case FieldItem(c, v) => c + ": " + Show(v, fmt)
  }

  function RenderAll(items: seq<Item>, fmt: Formatting): (r: seq<string>)
    ensures |r| == |items|
    ensures forall i :: 0 <= i < |items| ==> r[i] == Render(items[i], fmt)
  {
    seq(|items|, i requires 0 <= i < |items| => Render(items[i], fmt))
  }

  lemma RenderAllAppend(a: seq<Item>, b: seq<Item>, fmt: Formatting)
    ensures RenderAll(a + b, fmt) == RenderAll(a, fmt) + RenderAll(b, fmt)
  {
  }

  const Bullet: string := "\U{2022} "

  /** `"• " + " - ".join(items)`. */
  function BulletLine(items: seq<Item>, fmt: Formatting): string {
    Bullet + Join(" - ", RenderAll(items, fmt))
  }

  /** `f"Found {n} {noun}{'s' if n != 1 else ''}:"`. */
  function CountHeader(noun: string, n: nat): string {
    "Found " + NatToString(n) + " " + noun + (if n != 1 then "s" else "") + ":"
  }

  /** The header names the count in decimal and has the plural "s" exactly
      when the count is not one. */
  lemma HeaderShape(noun: string, n: nat)
    requires noun != [] && noun[|noun| - 1] != 's' && '\n' !in noun
    ensures StartsWith(CountHeader(noun, n), "Found " + NatToString(n) + " " + noun)
    ensures EndsWith(CountHeader(noun, n), "s:") <==> n != 1
    ensures '\n' !in CountHeader(noun, n)
  {
    var h := CountHeader(noun, n);
    var p := "Found " + NatToString(n) + " " + noun;
    assert h[..|p|] == p;
    if n == 1 {
      assert h[|h| - 2] == noun[|noun| - 1];
    }
    var digits := NatToString(n);
    assert forall k :: 0 <= k < |digits| ==> digits[k] != '\n';
    assert '\n' !in digits;
  }

  /** The "column: value" items of a row: every non-null value whose column
      is not in `skip`, in dictionary order. */
  function FieldItems(d: Record, skip: seq<string>): (items: seq<Item>)
    ensures |items| <= |d|
    ensures forall it :: it in items ==> it.FieldItem? && it.column !in skip && it.v != Null
    ensures forall it :: it in items ==> (it.column, it.v) in d
    decreases |d|
  {
    if d == [] then []
    else
      var (c, v) := d[|d| - 1];
      var prev := FieldItems(d[..|d| - 1], skip);
      assert forall e :: e in d[..|d| - 1] ==> e in d;
      prev + (if c !in skip && v != Null then [FieldItem(c, v)] else [])
  }

  /** Field selection works entry by entry: it keeps the order of the dictionary. */
  lemma {:induction false} FieldItemsAppend(d1: Record, d2: Record, skip: seq<string>)
    ensures FieldItems(d1 + d2, skip) == FieldItems(d1, skip) + FieldItems(d2, skip)
    decreases |d2|
  {
    if d2 != [] {
      var n := |d2| - 1;
      assert (d1 + d2)[..|d1 + d2| - 1] == d1 + d2[..n];
      assert (d1 + d2)[|d1 + d2| - 1] == d2[n];
      FieldItemsAppend(d1, d2[..n], skip);
      var (c, v) := d2[n];
      var extra := if c !in skip && v != Null then [FieldItem(c, v)] else [];
      assert FieldItems(d1 + d2, skip) == FieldItems(d1 + d2[..n], skip) + extra;
      assert FieldItems(d2, skip) == FieldItems(d2[..n], skip) + extra;
    } else {
      assert d1 + d2 == d1;
    }
  }

  /** Every non-null entry whose column is not skipped shows up as an item. */
  lemma {:induction false} FieldItemsComplete(d: Record, skip: seq<string>, i: nat)
    requires i < |d| && d[i].0 !in skip && d[i].1 != Null
    ensures FieldItem(d[i].0, d[i].1) in FieldItems(d, skip)
    decreases |d|
  {
    var n := |d| - 1;
    if i < n {
      assert d[..n][i] == d[i];
      FieldItemsComplete(d[..n], skip, i);
    }
  }

  lemma FieldItemsSnoc(d: Record, j: nat, skip: seq<string>)
    requires j < |d|
    ensures FieldItems(d[..j + 1], skip) == FieldItems(d[..j], skip) +
      (if d[j].0 !in skip && d[j].1 != Null then [FieldItem(d[j].0, d[j].1)] else [])
  {
    assert d[..j + 1][..j] == d[..j];
  }

  /** A field loop (`for col, val in d.items()`): the "column: value" text
      of every non-null entry whose column is not in `skip`, in order. */
  method FieldTexts(d: Record, skip: seq<string>, fmt: Formatting) returns (texts: seq<string>)
    ensures texts == RenderAll(FieldItems(d, skip), fmt)
  {
    texts := [];
    var j := 0;
    assert d[..0] == [];
    while j < |d|
      invariant 0 <= j <= |d|
      invariant texts == RenderAll(FieldItems(d[..j], skip), fmt)
    {
      FieldTextsStep(d, j, skip, fmt);
      if d[j].0 !in skip && d[j].1 != Null {
        texts := texts + [d[j].0 + ": " + Show(d[j].1, fmt)];
      }
      j := j + 1;
    }
    assert d[..|d|] == d;
  }

  lemma FieldTextsStep(d: Record, j: nat, skip: seq<string>, fmt: Formatting)
    requires j < |d|
    ensures RenderAll(FieldItems(d[..j + 1], skip), fmt) == RenderAll(FieldItems(d[..j], skip), fmt) +
      (if d[j].0 !in skip && d[j].1 != Null then [d[j].0 + ": " + Show(d[j].1, fmt)] else [])
  {
    FieldItemsSnoc(d, j, skip);
    if d[j].0 !in skip && d[j].1 != Null {
      RenderAllAppend(FieldItems(d[..j], skip), [FieldItem(d[j].0, d[j].1)], fmt);
    }
  }

  /** No text in the summary's pieces holds a line break. */
  ghost predicate NoNewlines(rows: seq<seq<Value>>, columns: seq<string>, fmt: Formatting) {
    && (forall c :: c in columns ==> '\n' !in c)
    && (forall row, v :: row in rows && v in row ==> '\n' !in Show(v, fmt))
    && (forall v :: '\n' !in fmt.twoDecimals(v))
  }

  /** Lines joined with "\n" split back into exactly those lines when none
      of them holds a newline. */
  lemma LinesRoundTrip(lines: seq<string>)
    requires lines != []
    requires forall l :: l in lines ==> '\n' !in l
    ensures SplitOn(Join("\n", lines), '\n') == lines
  {
    SplitOnJoin(lines, '\n');
  }

  /** A header line followed by body lines, joined with "\n", splits back
      into the header and then the body lines. */
  lemma HeaderAndLines(header: string, body: seq<string>)
    requires '\n' !in header
    requires forall l :: l in body ==> '\n' !in l
    ensures var lines := SplitOn(Join("\n", [header] + body), '\n');
      |lines| == 1 + |body| && lines[0] == header && lines[1..] == body
  {
    var all := [header] + body;
    assert forall l :: l in all ==> l == header || l in body;
    LinesRoundTrip(all);
    assert all[1..] == body;
  }
}
