/** Database values and the Python dictionaries the summarisers and the
    response envelope build from a result row. A dictionary is an ordered
    list of (key, value) pairs: keys keep the position of their first
    insertion and the value of their last one, as a Python `dict` does. */
module Records {
  import opened Text

  /** A column value as the database driver returns it. */
  datatype Value = Null | Str(s: string) | Num(x: real)

  /** Python truthiness (`if v:`). */
  predicate Truthy(v: Value) {
    match v
    case Null => false
    case Str(s) => s != ""
    case Num(x) => x != 0.0
  }

  /** Rendering the model leaves abstract: `str()` of a number and the
      two-decimal form `format(v, '.2f')` of a price. */
  datatype Formatting = Formatting(number: real -> string, twoDecimals: Value -> string)

  /** `str(v)`. */
  function Show(v: Value, fmt: Formatting): string {
    match v
    case Null => "None"
    case Str(s) => s
    case Num(x) => fmt.number(x)
  }

  /** A dictionary from column names to values, in insertion order. */
  type Record = seq<(string, Value)>

  function Keys(d: Record): (ks: seq<string>)
    ensures |ks| == |d| && forall i :: 0 <= i < |d| ==> ks[i] == d[i].0
  {
    if d == [] then [] else [d[0].0] + Keys(d[1..])
  }

  predicate UniqueKeys(d: Record) {
    forall i, j :: 0 <= i < j < |d| ==> d[i].0 != d[j].0
  }

  /** `d.get(k)`, with `None` for a missing key. */
  function Get(d: Record, k: string): (r: Option<Value>)
    ensures r.Some? <==> k in Keys(d)
  {
    if d == [] then None
    else if d[0].0 == k then Some(d[0].1)
    else Get(d[1..], k)
  }

  /** `d.get(k, default)`: a key that is present gives its value, even `None`. */
  function GetOr(d: Record, k: string, default: Value): (v: Value)
    ensures k in Keys(d) ==> Get(d, k) == Some(v)
    ensures k !in Keys(d) ==> v == default
  {
    match Get(d, k)
    case Some(x) => x
    case None => default
  }

  lemma {:induction false} GetUnique(d: Record, i: nat)
    requires UniqueKeys(d) && i < |d|
    ensures Get(d, d[i].0) == Some(d[i].1)
  {
    if i > 0 {
      assert UniqueKeys(d[1..]);
      GetUnique(d[1..], i - 1);
    }
  }

  /** A value found under a key is an entry of the dictionary. */
  lemma {:induction false} GetIn(d: Record, k: string)
    ensures Get(d, k).Some? ==> (k, Get(d, k).value) in d
  {
    if d != [] && d[0].0 != k {
      GetIn(d[1..], k);
    }
  }

  /** `d[k] = v`. */
  function Put(d: Record, k: string, v: Value): (r: Record)
    ensures Get(r, k) == Some(v)
    ensures forall k' :: k' != k ==> Get(r, k') == Get(d, k')
    decreases |d|
  {
    if d == [] then [(k, v)]
    else if d[0].0 == k then [(k, v)] + d[1..]
    else
      var t := Put(d[1..], k, v);
      var r := [d[0]] + t;
      assert r[1..] == t;
      r
  }

  /** Storing adds no entry other than the stored one. */
  lemma {:induction false} PutEntries(d: Record, k: string, v: Value)
    ensures forall e :: e in Put(d, k, v) ==> e in d || e == (k, v)
    decreases |d|
  {
    if d != [] && d[0].0 != k {
      PutEntries(d[1..], k, v);
      assert Put(d, k, v) == [d[0]] + Put(d[1..], k, v);
    } else if d != [] {
      assert forall e :: e in d[1..] ==> e in d;
    }
  }

  /** An existing key keeps its position; a new key goes at the end. */
  lemma {:induction false} PutKeys(d: Record, k: string, v: Value)
    ensures k in Keys(d) ==> Keys(Put(d, k, v)) == Keys(d)
    ensures k !in Keys(d) ==> Keys(Put(d, k, v)) == Keys(d) + [k]
    decreases |d|
  {
    if d == [] {
      assert Put(d, k, v) == [(k, v)];
    } else if d[0].0 == k {
      assert Put(d, k, v) == [(k, v)] + d[1..];
      KeysCons((k, v), d[1..]);
      KeysCons(d[0], d[1..]);
      assert d == [d[0]] + d[1..];
    } else {
      PutKeysStep(d, k, v);
    }
  }

  lemma {:induction false} PutKeysStep(d: Record, k: string, v: Value)
    requires d != [] && d[0].0 != k
    ensures k in Keys(d) ==> Keys(Put(d, k, v)) == Keys(d)
    ensures k !in Keys(d) ==> Keys(Put(d, k, v)) == Keys(d) + [k]
    decreases |d|, 0
  {
    var t := Put(d[1..], k, v);
    PutKeys(d[1..], k, v);
    assert Put(d, k, v) == [d[0]] + t;
    assert Keys(d) == [d[0].0] + Keys(d[1..]);
    KeysConsNew(d[0], t, Keys(d[1..]), k);
  }

  /** Putting an entry with another key in front keeps the "existing key
      stays, new key goes last" shape of the keys. */
  lemma KeysConsNew(e: (string, Value), t: Record, rest: seq<string>, k: string)
    requires e.0 != k
    requires k in rest ==> Keys(t) == rest
    requires k !in rest ==> Keys(t) == rest + [k]
    ensures k in [e.0] + rest ==> Keys([e] + t) == [e.0] + rest
    ensures k !in [e.0] + rest ==> Keys([e] + t) == [e.0] + rest + [k]
  {
    KeysCons(e, t);
    if k !in rest {
      assert [e.0] + (rest + [k]) == [e.0] + rest + [k];
    }
  }

  lemma KeysCons(e: (string, Value), d: Record)
    ensures Keys([e] + d) == [e.0] + Keys(d)
  {
    assert ([e] + d)[1..] == d;
  }

  lemma PutUnique(d: Record, k: string, v: Value)
    requires UniqueKeys(d)
    ensures UniqueKeys(Put(d, k, v))
  {
    var r := Put(d, k, v);
    PutKeys(d, k, v);
    forall i, j | 0 <= i < j < |r| ensures r[i].0 != r[j].0 {
      assert Keys(r)[i] == r[i].0 && Keys(r)[j] == r[j].0;
      if k !in Keys(d) && j == |d| {
        assert Keys(d)[i] == d[i].0;
      } else {
        assert Keys(d)[i] == d[i].0 && Keys(d)[j] == d[j].0;
      }
    }
  }

  /** `zip(cols, row)`: pairs up to the shorter of the two. */
  function Zip(cols: seq<string>, row: seq<Value>): (ps: seq<(string, Value)>)
    ensures |ps| == (if |cols| <= |row| then |cols| else |row|)
    ensures forall i :: 0 <= i < |ps| ==> ps[i] == (cols[i], row[i])
  {
    var n := if |cols| <= |row| then |cols| else |row|;
    seq(n, i requires 0 <= i < n => (cols[i], row[i]))
  }

  /** `dict(ps)`: insert the pairs from left to right. */
  function FromPairs(ps: seq<(string, Value)>): (d: Record)
    ensures UniqueKeys(d)
    decreases |ps|
  {
    if ps == [] then []
    else
      var prev := FromPairs(ps[..|ps| - 1]);
      PutUnique(prev, ps[|ps| - 1].0, ps[|ps| - 1].1);
      Put(prev, ps[|ps| - 1].0, ps[|ps| - 1].1)
  }

  /** The dictionary built from pairs has exactly the keys of the pairs. */
  lemma {:induction false} FromPairsKeys(ps: seq<(string, Value)>, k: string)
    ensures k in Keys(FromPairs(ps)) <==> k in Keys(ps)
    decreases |ps|
  {
    if ps != [] {
      var n := |ps| - 1;
      FromPairsKeys(ps[..n], k);
      PutKeys(FromPairs(ps[..n]), ps[n].0, ps[n].1);
      KeysSnoc(ps);
    }
  }

  lemma KeysSnoc(ps: seq<(string, Value)>)
    requires ps != []
    ensures Keys(ps) == Keys(ps[..|ps| - 1]) + [ps[|ps| - 1].0]
  {
    var n := |ps| - 1;
    var a := Keys(ps);
    var b := Keys(ps[..n]) + [ps[n].0];
    assert |a| == |b|;
    forall i | 0 <= i < |a| ensures a[i] == b[i] {
      if i < n {
        assert ps[..n][i] == ps[i];
        assert b[i] == Keys(ps[..n])[i];
      } else {
        assert i == n && b[i] == ps[n].0;
      }
    }
  }

  /** Each key holds the value of its last pair. */
  lemma {:induction false} FromPairsLast(ps: seq<(string, Value)>, i: nat)
    requires i < |ps|
    requires forall j :: i < j < |ps| ==> ps[j].0 != ps[i].0
    ensures Get(FromPairs(ps), ps[i].0) == Some(ps[i].1)
    decreases |ps|
  {
    var n := |ps| - 1;
    var pre := ps[..n];
    var k := ps[i].0;
    assert FromPairs(ps) == Put(FromPairs(pre), ps[n].0, ps[n].1);
    if i < n {
      assert pre[i] == ps[i];
      assert forall j :: i < j < |pre| ==> pre[j].0 != pre[i].0 by {
        forall j | i < j < |pre| ensures pre[j].0 != pre[i].0 {
          assert pre[j] == ps[j];
        }
      }
      FromPairsLast(pre, i);
      assert ps[n].0 != k;
    }
  }

  /** `dict(zip(cols, row))`, the column-keyed record of one row. */
  function RowRecord(cols: seq<string>, row: seq<Value>): Record {
    FromPairs(Zip(cols, row))
  }

  /** Filling the record column by column (`row_dict[col] = row[i]` for
      `i, col in enumerate(columns)`) builds `dict(zip(columns, row))`. */
  lemma RowRecordSnoc(cols: seq<string>, row: seq<Value>, i: nat)
    requires i < |cols| && i < |row|
    ensures RowRecord(cols[..i + 1], row) == Put(RowRecord(cols[..i], row), cols[i], row[i])
  {
    var ps := Zip(cols[..i + 1], row);
    assert ps[..i] == Zip(cols[..i], row);
    assert ps[i] == (cols[i], row[i]);
  }

  /** A column and its value in the row record when the row is at least as
      long as the column list: the value of the LAST column of that name. */
  lemma RowRecordLookup(cols: seq<string>, row: seq<Value>, i: nat)
    requires i < |cols| <= |row|
    requires forall j :: i < j < |cols| ==> cols[j] != cols[i]
    ensures Get(RowRecord(cols, row), cols[i]) == Some(row[i])
  {
    FromPairsLast(Zip(cols, row), i);
  }

  /** Every entry of the dictionary is one of the pairs. */
  lemma {:induction false} FromPairsEntries(ps: seq<(string, Value)>)
    ensures forall e :: e in FromPairs(ps) ==> e in ps
    decreases |ps|
  {
    if ps != [] {
      var n := |ps| - 1;
      FromPairsEntries(ps[..n]);
      PutEntries(FromPairs(ps[..n]), ps[n].0, ps[n].1);
      assert forall e :: e in ps[..n] ==> e in ps;
    }
  }

  /** The keys of a row record are column names and its values come from the row. */
  lemma RowRecordEntries(cols: seq<string>, row: seq<Value>)
    ensures forall e :: e in RowRecord(cols, row) ==> e.0 in cols && e.1 in row
  {
    FromPairsEntries(Zip(cols, row));
  }

  /** With a row at least as long as the columns and no column repeated,
      the record's keys are the columns in column order. */
  lemma RowRecordOrder(cols: seq<string>, row: seq<Value>)
    requires |cols| <= |row|
    requires forall i, j :: 0 <= i < j < |cols| ==> cols[i] != cols[j]
    ensures Keys(RowRecord(cols, row)) == cols
  {
    RowRecordPrefixOrder(cols, row, |cols|);
    assert cols[..|cols|] == cols;
  }

  lemma {:induction false} RowRecordPrefixOrder(cols: seq<string>, row: seq<Value>, n: nat)
    requires n <= |cols| <= |row|
    requires forall i, j :: 0 <= i < j < |cols| ==> cols[i] != cols[j]
    ensures Keys(RowRecord(cols[..n], row)) == cols[..n]
    decreases n
  {
    if n == 0 {
      assert Zip(cols[..0], row) == [];
    } else {
      RowRecordPrefixOrder(cols, row, n - 1);
      FreshColumn(cols, n - 1);
      RowRecordOrderStep(cols, row, n - 1);
    }
  }

  /** One more distinct column appends its name to the keys. */
  lemma RowRecordOrderStep(cols: seq<string>, row: seq<Value>, m: nat)
    requires m < |cols| <= |row|
    requires Keys(RowRecord(cols[..m], row)) == cols[..m]
    requires cols[m] !in cols[..m]
    ensures Keys(RowRecord(cols[..m + 1], row)) == cols[..m + 1]
  {
    RowRecordSnoc(cols, row, m);
    KeysExtend(RowRecord(cols[..m], row), cols[..m], cols[m], row[m]);
    TakeSnoc(cols, m);
  }

  lemma TakeSnoc<T>(s: seq<T>, m: nat)
    requires m < |s|
    ensures s[..m + 1] == s[..m] + [s[m]]
  {
  }

  /** With distinct columns, column `m` is not among those before it. */
  lemma FreshColumn(cols: seq<string>, m: nat)
    requires m < |cols|
    requires forall i, j :: 0 <= i < j < |cols| ==> cols[i] != cols[j]
    ensures cols[m] !in cols[..m]
  {
    forall x | 0 <= x < m ensures cols[..m][x] != cols[m] {
      assert cols[..m][x] == cols[x];
    }
  }

  /** Storing a new key appends it to the keys. */
  lemma KeysExtend(d: Record, ks: seq<string>, k: string, v: Value)
    requires Keys(d) == ks && k !in ks
    ensures Keys(Put(d, k, v)) == ks + [k]
  {
    PutKeys(d, k, v);
  }

  /** With a row at least as long as the columns, the record's keys are the column names. */
  lemma RowRecordKeys(cols: seq<string>, row: seq<Value>, k: string)
    requires |cols| <= |row|
    ensures k in Keys(RowRecord(cols, row)) <==> k in cols
  {
    var ps := Zip(cols, row);
    FromPairsKeys(ps, k);
    assert Keys(ps) == cols;
  }
}
