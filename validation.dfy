/** `validate_query` (chatbot_app/utils.py): the gate a generated query must
    pass before it is executed. Eight checks run in a fixed order and the
    first one that fires decides the rejection and its message. Letters,
    `\w` and lower-casing are ASCII; whitespace is `str.isspace`. */
module Validation {
  import opened Text

  const ForbiddenKeywords: seq<string> :=
    ["drop", "truncate", "delete", "update", "insert", "alter", "create", "grant", "revoke"]

  /** The check that rejected a query, in the order the checks run. */
  datatype Rule =
    | EmptyQuery
    | ForbiddenOperation
    | NotSelect
    | NoTables
    | UnknownTables
    | MissingFrom
    | Comment
    | MultipleStatements

  /** `True`, or the `QueryValidationError` raised with its message. */
  datatype Verdict = Accept | Reject(rule: Rule, message: string)

  function Rank(r: Rule): nat {
    match r
    case EmptyQuery => 0
    case ForbiddenOperation => 1
    case NotSelect => 2
    case NoTables => 3
    case UnknownTables => 4
    case MissingFrom => 5
    case Comment => 6
    case MultipleStatements => 7
  }

  // ---------------------------------------------------------------------
  // Forbidden keywords (utils.py lines 102-109)
  // ---------------------------------------------------------------------

  predicate HasForbidden(ql: string) {
    exists k :: 0 <= k < |ForbiddenKeywords| && Contains(ql, ForbiddenKeywords[k])
  }

  /** The first keyword of the list, from index `k` on, that occurs in `ql`. */
  function FirstForbiddenFrom(ql: string, k: nat): (r: Option<nat>)
    requires k <= |ForbiddenKeywords|
    ensures r.Some? ==> k <= r.value < |ForbiddenKeywords| && Contains(ql, ForbiddenKeywords[r.value])
    ensures r.Some? ==> forall j :: k <= j < r.value ==> !Contains(ql, ForbiddenKeywords[j])
    ensures r.None? ==> forall j :: k <= j < |ForbiddenKeywords| ==> !Contains(ql, ForbiddenKeywords[j])
    decreases |ForbiddenKeywords| - k
  {
    if k == |ForbiddenKeywords| then None
    else if Contains(ql, ForbiddenKeywords[k]) then Some(k)
    else FirstForbiddenFrom(ql, k + 1)
  }

  function FirstForbidden(ql: string): Option<nat> {
    FirstForbiddenFrom(ql, 0)
  }

  /** The scan names a keyword exactly when some keyword occurs, and it
      names the first one of the list that does. */
  lemma FirstForbiddenIff(ql: string)
    ensures FirstForbidden(ql).Some? <==> HasForbidden(ql)
    ensures FirstForbidden(ql).Some? ==>
      var k := FirstForbidden(ql).value;
      k < |ForbiddenKeywords| && Contains(ql, ForbiddenKeywords[k]) &&
      forall j :: 0 <= j < k ==> !Contains(ql, ForbiddenKeywords[j])
  {
  }

  // ---------------------------------------------------------------------
  // Table extraction: re.findall(r'(?:from|join)\s+(\w+)', query_lower)
  // ---------------------------------------------------------------------

  /** Where the `\s+(\w+)` part after a keyword at `i` starts its group. */
  function GroupStart(s: string, i: nat): nat
    requires i + 4 <= |s|
  {
    i + 4 + SpaceRun(s, i + 4)
  }

  /** The pattern matches at `i` after keyword `kw`: the keyword, at least one
      whitespace character, at least one word character. No word boundary
      is required before the keyword. */
  predicate KeywordTableAt(s: string, kw: string, i: nat) {
    && |kw| == 4
    && MatchesAt(s, kw, i)
    && SpaceRun(s, i + 4) > 0
    && WordRun(s, GroupStart(s, i)) > 0
  }

  predicate TableMatchAt(s: string, i: nat) {
    KeywordTableAt(s, "from", i) || KeywordTableAt(s, "join", i)
  }

  /** End of the match at `i`: the greedy `\w+` takes the whole word run. */
  function MatchEnd(s: string, i: nat): (e: nat)
    requires TableMatchAt(s, i)
    ensures i < e <= |s|
  {
    GroupStart(s, i) + WordRun(s, GroupStart(s, i))
  }

  /** The captured table name of the match at `i`. */
  function Group(s: string, i: nat): (t: string)
    requires TableMatchAt(s, i)
    ensures t != [] && forall k :: 0 <= k < |t| ==> IsWordChar(t[k])
  {
    s[GroupStart(s, i)..MatchEnd(s, i)]
  }

  /** The captured groups of the matches from `i` on, scanning left to
      right and resuming after each match. */
  function ScanTables(s: string, i: nat): (r: seq<string>)
    requires i <= |s|
    ensures forall t :: t in r ==> t != [] && forall k :: 0 <= k < |t| ==> IsWordChar(t[k])
    decreases |s| - i
  {
    if i == |s| then []
    else if TableMatchAt(s, i) then [Group(s, i)] + ScanTables(s, MatchEnd(s, i))
    else ScanTables(s, i + 1)
  }

  function ExtractTables(ql: string): seq<string> {
    ScanTables(ql, 0)
  }

  /** The scan comes back empty exactly when the pattern matches nowhere from `i` on. */
  lemma ScanEmptyIff(s: string, i: nat)
    requires i <= |s|
    ensures ScanTables(s, i) == [] <==> forall j :: i <= j < |s| ==> !TableMatchAt(s, j)
  {
    if ScanTables(s, i) == [] {
      ScanEmptyNoMatch(s, i);
    }
    if forall j :: i <= j < |s| ==> !TableMatchAt(s, j) {
      NoMatchScanEmpty(s, i);
    }
  }

  lemma {:induction false} ScanEmptyNoMatch(s: string, i: nat)
    requires i <= |s| && ScanTables(s, i) == []
    ensures forall j :: i <= j < |s| ==> !TableMatchAt(s, j)
    decreases |s| - i
  {
    if i < |s| {
      assert !TableMatchAt(s, i);
      ScanEmptyNoMatch(s, i + 1);
      forall j | i <= j < |s| ensures !TableMatchAt(s, j) {
        if j != i {
          assert i + 1 <= j;
        }
      }
    }
  }

  lemma {:induction false} NoMatchScanEmpty(s: string, i: nat)
    requires i <= |s|
    requires forall j :: i <= j < |s| ==> !TableMatchAt(s, j)
    ensures ScanTables(s, i) == []
    decreases |s| - i
  {
    if i < |s| {
      assert !TableMatchAt(s, i);
      NoMatchScanEmpty(s, i + 1);
    }
  }

  /** Every name the scan returns is the group of a match of the pattern. */
  lemma {:induction false} ScanSound(s: string, i: nat, t: string)
    requires i <= |s| && t in ScanTables(s, i)
    ensures exists j :: i <= j < |s| && TableMatchAt(s, j) && Group(s, j) == t
    decreases |s| - i
  {
    if TableMatchAt(s, i) {
      if t != Group(s, i) {
        ScanSound(s, MatchEnd(s, i), t);
      }
    } else {
      ScanSound(s, i + 1, t);
    }
  }

  /** The first match at or after `i` gives the first name, and the scan
      goes on from the end of that match: together with `ScanEmptyIff` this
      determines every name `re.findall` returns, the later non-overlapping
      matches included. */
  lemma {:induction false} ScanFirst(s: string, i: nat, j: nat)
    requires i <= j < |s| && TableMatchAt(s, j)
    requires forall k :: i <= k < j ==> !TableMatchAt(s, k)
    ensures ScanTables(s, i) == [Group(s, j)] + ScanTables(s, MatchEnd(s, j))
    decreases j - i
  {
    if i < j {
      ScanFirst(s, i + 1, j);
    }
  }

  /** The pattern does not look before the keyword: a match inside a longer
      word such as "xfrom t" is still a match. */
  lemma KeywordTableShift(p: string, s: string, kw: string)
    requires |kw| == 4
    ensures KeywordTableAt(p + s, kw, |p|) <==> KeywordTableAt(s, kw, 0)
  {
    var ps := p + s;
    if 4 <= |s| {
      assert ps[|p|..|p| + 4] == s[0..4];
      SpaceRunShift(p, s, 4);
      var g := 4 + SpaceRun(s, 4);
      WordRunShift(p, s, g);
    }
  }

  /** "xfrom t" yields the table "t". */
  lemma NoWordBoundary()
    ensures TableMatchAt("xfrom t", 1) && Group("xfrom t", 1) == "t"
  {
    var s := "xfrom t";
    assert s[1..5] == "from";
    assert SpaceRun(s, 5) == 1;
    assert WordRun(s, 6) == 1;
  }

  lemma {:induction false} SpaceRunShift(p: string, s: string, i: nat)
    requires i <= |s|
    ensures SpaceRun(p + s, |p| + i) == SpaceRun(s, i)
    decreases |s| - i
  {
    if i < |s| {
      assert (p + s)[|p| + i] == s[i];
      if IsSpace(s[i]) { SpaceRunShift(p, s, i + 1); }
    }
  }

  lemma {:induction false} WordRunShift(p: string, s: string, i: nat)
    requires i <= |s|
    ensures WordRun(p + s, |p| + i) == WordRun(s, i)
    decreases |s| - i
  {
    if i < |s| {
      assert (p + s)[|p| + i] == s[i];
      if IsWordChar(s[i]) { WordRunShift(p, s, i + 1); }
    }
  }

  // ---------------------------------------------------------------------
  // FROM shape: re.search(r'from\s+\w+', query_lower)
  // ---------------------------------------------------------------------

  predicate HasFromClause(ql: string) {
    exists i | 0 <= i < |ql| :: KeywordTableAt(ql, "from", i)
  }

  // ---------------------------------------------------------------------
  // Unknown tables and the suggestion message (utils.py lines 123-144)
  // ---------------------------------------------------------------------

  function LowerSet(valid: seq<string>): set<string> {
    set v | v in valid :: Lower(v)
  }

  predicate NoDuplicates(s: seq<string>) {
    forall i, j :: 0 <= i < j < |s| ==> s[i] != s[j]
  }

  /** `set(found) - valid_lower`, enumerated in order of first occurrence. */
  function Unknown(found: seq<string>, validLower: set<string>): (r: seq<string>)
    ensures NoDuplicates(r)
    ensures forall t :: t in r <==> t in found && t !in validLower
    decreases |found|
  {
    if found == [] then []
    else
      var n := |found| - 1;
      var prev := Unknown(found[..n], validLower);
      assert found == found[..n] + [found[n]];
      var t := found[n];
      if t in validLower || t in prev then prev else prev + [t]
  }

  /** `[v for v in valid_tables if t in v.lower()]`. */
  function Similar(t: string, valid: seq<string>): (r: seq<string>)
    ensures forall v :: v in r <==> v in valid && Contains(Lower(v), t)
    ensures |r| <= |valid|
    decreases |valid|
  {
    if valid == [] then []
    else
      var rest := Similar(t, valid[1..]);
      assert valid == [valid[0]] + valid[1..];
      if Contains(Lower(valid[0]), t) then [valid[0]] + rest else rest
  }

  function SuggestionLine(t: string, sims: seq<string>): string {
    "Instead of '" + t + "', did you mean: " + Join(", ", sims) + "?"
  }

  /** The invalid tables, in enumeration order, that have at least one
      similar valid table. */
  function Suggested(order: seq<string>, valid: seq<string>): (r: seq<string>)
    ensures forall t :: t in r <==> t in order && Similar(t, valid) != []
    ensures (forall t :: t in order ==> Similar(t, valid) == []) ==> r == []
    decreases |order|
  {
    if order == [] then []
    else
      var n := |order| - 1;
      assert order == order[..n] + [order[n]];
      Suggested(order[..n], valid) + (if Similar(order[n], valid) != [] then [order[n]] else [])
  }

  /** The `suggestions` list: one line per suggested table, in order. */
  function SuggestionLines(order: seq<string>, valid: seq<string>): (r: seq<string>)
    ensures |r| == |Suggested(order, valid)|
    ensures forall i :: 0 <= i < |r| ==>
      r[i] == SuggestionLine(Suggested(order, valid)[i], Similar(Suggested(order, valid)[i], valid))
  {
    var sug := Suggested(order, valid);
    seq(|sug|, i requires 0 <= i < |sug| => SuggestionLine(sug[i], Similar(sug[i], valid)))
  }

  lemma SuggestionLinesStep(order: seq<string>, valid: seq<string>, i: nat)
    requires i < |order|
    ensures SuggestionLines(order[..i + 1], valid) == SuggestionLines(order[..i], valid) +
      (if Similar(order[i], valid) != [] then [SuggestionLine(order[i], Similar(order[i], valid))] else [])
  {
    var pre := order[..i + 1];
    assert pre[..i] == order[..i];
    var a := Suggested(order[..i], valid);
    var b := Suggested(pre, valid);
    var extra := if Similar(order[i], valid) != [] then [order[i]] else [];
    assert b == a + extra;
    var lines := SuggestionLines(pre, valid);
    var want := SuggestionLines(order[..i], valid) +
      (if Similar(order[i], valid) != [] then [SuggestionLine(order[i], Similar(order[i], valid))] else []);
    assert |lines| == |want|;
    forall k | 0 <= k < |lines| ensures lines[k] == want[k] {
      if k < |a| {
        assert b[k] == a[k];
      } else {
        assert b[k] == order[i];
      }
    }
  }

  /** The loop of utils.py lines 128-136 over an enumeration of the invalid tables. */
  method BuildSuggestions(order: seq<string>, valid: seq<string>) returns (suggestions: seq<string>)
    ensures suggestions == SuggestionLines(order, valid)
  {
    suggestions := [];
    var i := 0;
    while i < |order|
      invariant 0 <= i <= |order|
      invariant suggestions == SuggestionLines(order[..i], valid)
    {
      var t := order[i];
      var similar := Similar(t, valid);
      SuggestionLinesStep(order, valid, i);
      if similar != [] {
        suggestions := suggestions + ["Instead of '" + t + "', did you mean: " + Join(", ", similar) + "?"];
      }
      i := i + 1;
    }
    assert order[..|order|] == order;
  }

  /** `error_msg`: the invalid tables, then the suggestions or, when there
      are none, the sorted list of valid tables. */
  function InvalidTablesMessage(order: seq<string>, valid: seq<string>): string {
    "Invalid tables in query: " + Join(", ", order) + ". " + MessageTail(order, valid)
  }

  function MessageTail(order: seq<string>, valid: seq<string>): string {
    var sugg := SuggestionLines(order, valid);
    if sugg != [] then "\n" + Join("\n", sugg)
    else "\nValid tables are: " + Join(", ", SortStrings(valid))
  }

  // ---------------------------------------------------------------------
  // The gate
  // ---------------------------------------------------------------------

  /** `query[:-1]`. */
  function DropLast(q: string): string {
    if q == [] then [] else q[..|q| - 1]
  }

  function Validate(q: string, valid: seq<string>): Verdict {
    var ql := Lower(q);
    if Strip(q) == [] then Reject(EmptyQuery, "Empty query is not allowed")
    else if FirstForbidden(ql).Some? then
      Reject(ForbiddenOperation, "Query contains forbidden operation: " + ForbiddenKeywords[FirstForbidden(ql).value])
    else if !StartsWith(Strip(ql), "select") then Reject(NotSelect, "Only SELECT queries are allowed")
    else if ExtractTables(ql) == [] then Reject(NoTables, "No valid tables found in query")
    else if Unknown(ExtractTables(ql), LowerSet(valid)) != [] then
      Reject(UnknownTables, InvalidTablesMessage(Unknown(ExtractTables(ql), LowerSet(valid)), valid))
    else if !HasFromClause(ql) then Reject(MissingFrom, "Invalid query structure: Missing FROM clause")
    else if Contains(q, "--") || Contains(q, "/*") then Reject(Comment, "SQL comments are not allowed")
    else if ';' in DropLast(q) then Reject(MultipleStatements, "Multiple SQL statements are not allowed")
    else Accept
  }

  // ---------------------------------------------------------------------
  // Each rule stated on its own, and the order theorem
  // ---------------------------------------------------------------------

  /** When a rule fires, from its own description. The NotSelect and
      MissingFrom cases are the source's own tests (`startswith` on the
      stripped text and a search for the `FROM <name>` pattern), so they are
      their own description. */
  predicate Fails(r: Rule, q: string, valid: seq<string>) {
    var ql := Lower(q);
    match r
    case EmptyQuery => forall i :: 0 <= i < |q| ==> IsSpace(q[i])
    case ForbiddenOperation => HasForbidden(ql)
    case NotSelect => !StartsWith(Strip(ql), "select")
    case NoTables => forall i :: 0 <= i < |ql| ==> !TableMatchAt(ql, i)
    case UnknownTables => exists t :: t in ExtractTables(ql) && t !in LowerSet(valid)
    case MissingFrom => !HasFromClause(ql)
    case Comment => exists i :: 0 <= i < |q| - 1 && CommentMarkAt(q, i)
    case MultipleStatements => exists i :: 0 <= i < |q| - 1 && q[i] == ';'
  }

  // A comment marker, two dashes or a slash and a star, starts at position `i`.
  predicate CommentMarkAt(q: string, i: nat)
    requires i < |q| - 1
  {
    (q[i] == '-' && q[i + 1] == '-') || (q[i] == '/' && q[i + 1] == '*')
  }

  /** The checks agree with the descriptions of the rules. */
  lemma EmptyCheck(q: string, valid: seq<string>)
    ensures Strip(q) == [] <==> Fails(EmptyQuery, q, valid)
  {
    StripFacts(q);
  }

  lemma ForbiddenCheck(q: string, valid: seq<string>)
    ensures FirstForbidden(Lower(q)).Some? <==> Fails(ForbiddenOperation, q, valid)
  {
    FirstForbiddenIff(Lower(q));
  }

  lemma NoTablesCheck(q: string, valid: seq<string>)
    ensures ExtractTables(Lower(q)) == [] <==> Fails(NoTables, q, valid)
  {
    ScanEmptyIff(Lower(q), 0);
  }

  lemma UnknownCheck(q: string, valid: seq<string>)
    ensures Unknown(ExtractTables(Lower(q)), LowerSet(valid)) != [] <==> Fails(UnknownTables, q, valid)
  {
    var u := Unknown(ExtractTables(Lower(q)), LowerSet(valid));
    if u != [] { assert u[0] in u; }
  }

  lemma CommentCheck(q: string, valid: seq<string>)
    ensures (Contains(q, "--") || Contains(q, "/*")) <==> Fails(Comment, q, valid)
  {
    if Contains(q, "--") {
      var i :| 0 <= i <= |q| - 2 && MatchesAt(q, "--", i);
      assert q[i..i + 2][0] == q[i] && q[i..i + 2][1] == q[i + 1];
      assert CommentMarkAt(q, i);
    } else if Contains(q, "/*") {
      var i :| 0 <= i <= |q| - 2 && MatchesAt(q, "/*", i);
      assert q[i..i + 2][0] == q[i] && q[i..i + 2][1] == q[i + 1];
      assert CommentMarkAt(q, i);
    }
    if Fails(Comment, q, valid) {
      var i :| 0 <= i < |q| - 1 && CommentMarkAt(q, i);
      if q[i] == '-' {
        assert q[i..i + 2] == "--";
        assert MatchesAt(q, "--", i);
      } else {
        assert q[i..i + 2] == "/*";
        assert MatchesAt(q, "/*", i);
      }
    }
  }

  lemma SemicolonCheck(q: string, valid: seq<string>)
    ensures ';' in DropLast(q) <==> Fails(MultipleStatements, q, valid)
  {
    if ';' in DropLast(q) {
      var i :| 0 <= i < |DropLast(q)| && DropLast(q)[i] == ';';
      assert q[i] == ';';
    }
    if Fails(MultipleStatements, q, valid) {
      var i :| 0 <= i < |q| - 1 && q[i] == ';';
      assert DropLast(q)[i] == ';';
    }
  }

  /** The check for rule `r` agrees with the description of `r`. */
  lemma CheckAgrees(r: Rule, q: string, valid: seq<string>)
    ensures Fails(r, q, valid) <==> (CheckOf(r, q, valid))
  {
    match r
    case EmptyQuery => EmptyCheck(q, valid);
    case ForbiddenOperation => ForbiddenCheck(q, valid);
    case NotSelect =>
    case NoTables => NoTablesCheck(q, valid);
    case UnknownTables => UnknownCheck(q, valid);
    case MissingFrom =>
    case Comment => CommentCheck(q, valid);
    case MultipleStatements => SemicolonCheck(q, valid);
  }

  /** The condition `Validate` tests for rule `r`. */
  predicate CheckOf(r: Rule, q: string, valid: seq<string>) {
    var ql := Lower(q);
    match r
    case EmptyQuery => Strip(q) == []
    case ForbiddenOperation => FirstForbidden(ql).Some?
    case NotSelect => !StartsWith(Strip(ql), "select")
    case NoTables => ExtractTables(ql) == []
    case UnknownTables => Unknown(ExtractTables(ql), LowerSet(valid)) != []
    case MissingFrom => !HasFromClause(ql)
    case Comment => Contains(q, "--") || Contains(q, "/*")
    case MultipleStatements => ';' in DropLast(q)
  }

  /** The message `Validate` raises for rule `r`. */
  function RuleMessage(r: Rule, q: string, valid: seq<string>): string
    requires r == ForbiddenOperation ==> FirstForbidden(Lower(q)).Some?
  {
    var ql := Lower(q);
    match r
    case EmptyQuery => "Empty query is not allowed"
    case ForbiddenOperation => "Query contains forbidden operation: " + ForbiddenKeywords[FirstForbidden(ql).value]
    case NotSelect => "Only SELECT queries are allowed"
    case NoTables => "No valid tables found in query"
    case UnknownTables => InvalidTablesMessage(Unknown(ExtractTables(ql), LowerSet(valid)), valid)
    case MissingFrom => "Invalid query structure: Missing FROM clause"
    case Comment => "SQL comments are not allowed"
    case MultipleStatements => "Multiple SQL statements are not allowed"
  }

  /** No check before rank `k` holds. */
  predicate NoneBefore(k: nat, q: string, valid: seq<string>) {
    forall r :: Rank(r) < k ==> !CheckOf(r, q, valid)
  }

  lemma NoneBeforeStep(r: Rule, q: string, valid: seq<string>)
    requires NoneBefore(Rank(r), q, valid) && !CheckOf(r, q, valid)
    ensures NoneBefore(Rank(r) + 1, q, valid)
  {
    forall r' | Rank(r') < Rank(r) + 1 ensures !CheckOf(r', q, valid) {
      if Rank(r') == Rank(r) { RankInjective(r, r'); }
    }
  }

  lemma RankInjective(r: Rule, r': Rule)
    requires Rank(r) == Rank(r')
    ensures r == r'
  {
  }

  /** `Validate` rejects for the first rule, in check order, whose check holds. */
  lemma ValidateByChecks(q: string, valid: seq<string>)
    ensures Validate(q, valid) == Accept <==> NoneBefore(8, q, valid)
    ensures Validate(q, valid).Reject? ==>
      CheckOf(Validate(q, valid).rule, q, valid) && NoneBefore(Rank(Validate(q, valid).rule), q, valid)
    ensures Validate(q, valid).Reject? ==>
      Validate(q, valid).message == RuleMessage(Validate(q, valid).rule, q, valid)
  {
    var v := Validate(q, valid);
    assert NoneBefore(0, q, valid);
    if CheckOf(EmptyQuery, q, valid) {
      assert v == Reject(EmptyQuery, RuleMessage(EmptyQuery, q, valid));
    } else {
      NoneBeforeStep(EmptyQuery, q, valid);
      if CheckOf(ForbiddenOperation, q, valid) {
        assert v == Reject(ForbiddenOperation, RuleMessage(ForbiddenOperation, q, valid));
      } else {
        NoneBeforeStep(ForbiddenOperation, q, valid);
        if CheckOf(NotSelect, q, valid) {
          assert v == Reject(NotSelect, RuleMessage(NotSelect, q, valid));
        } else {
          NoneBeforeStep(NotSelect, q, valid);
          if CheckOf(NoTables, q, valid) {
            assert v == Reject(NoTables, RuleMessage(NoTables, q, valid));
          } else {
            NoneBeforeStep(NoTables, q, valid);
            if CheckOf(UnknownTables, q, valid) {
              assert v == Reject(UnknownTables, RuleMessage(UnknownTables, q, valid));
            } else {
              NoneBeforeStep(UnknownTables, q, valid);
              if CheckOf(MissingFrom, q, valid) {
                assert v == Reject(MissingFrom, RuleMessage(MissingFrom, q, valid));
              } else {
                NoneBeforeStep(MissingFrom, q, valid);
                if CheckOf(Comment, q, valid) {
                  assert v == Reject(Comment, RuleMessage(Comment, q, valid));
                } else {
                  NoneBeforeStep(Comment, q, valid);
                  if CheckOf(MultipleStatements, q, valid) {
                    assert v == Reject(MultipleStatements, RuleMessage(MultipleStatements, q, valid));
                  } else {
                    NoneBeforeStep(MultipleStatements, q, valid);
                    assert v == Accept;
                  }
                }
              }
            }
          }
        }
      }
    }
  }

  /** A query is accepted exactly when no rule fires; a rejection names the
      first rule, in check order, that fires. */
  lemma ValidateIsFirstFailingRule(q: string, valid: seq<string>)
    ensures Validate(q, valid) == Accept <==> forall r :: !Fails(r, q, valid)
    ensures Validate(q, valid).Reject? ==>
      Fails(Validate(q, valid).rule, q, valid) &&
      forall r :: Rank(r) < Rank(Validate(q, valid).rule) ==> !Fails(r, q, valid)
  {
    ValidateByChecks(q, valid);
    var v := Validate(q, valid);
    forall r ensures Fails(r, q, valid) <==> CheckOf(r, q, valid) {
      CheckAgrees(r, q, valid);
    }
  }

  // ---------------------------------------------------------------------
  // Consequences
  // ---------------------------------------------------------------------

  /** An empty or all-whitespace query is rejected first, with the fixed message. */
  lemma EmptyRejectedFirst(q: string, valid: seq<string>)
    requires forall i :: 0 <= i < |q| ==> IsSpace(q[i])
    ensures Validate(q, valid) == Reject(EmptyQuery, "Empty query is not allowed")
  {
    StripFacts(q);
  }

  /** A forbidden keyword anywhere, even inside a longer word such as
      "created_at", rejects a non-empty query, naming the first keyword of
      the list that occurs. */
  lemma ForbiddenRejected(q: string, valid: seq<string>, k: nat)
    requires !(forall i :: 0 <= i < |q| ==> IsSpace(q[i]))
    requires k < |ForbiddenKeywords| && Contains(Lower(q), ForbiddenKeywords[k])
    requires forall j :: 0 <= j < k ==> !Contains(Lower(q), ForbiddenKeywords[j])
    ensures Validate(q, valid) == Reject(ForbiddenOperation, "Query contains forbidden operation: " + ForbiddenKeywords[k])
  {
    StripFacts(q);
    var f := FirstForbidden(Lower(q));
    assert f.Some?;
    assert f.value == k;
  }

  /** A query that starts with "delete" is reported for the keyword, not
      for the SELECT rule: the keyword scan runs first. */
  lemma DeleteReportsKeyword(q: string, valid: seq<string>)
    requires StartsWith(Strip(Lower(q)), "delete")
    ensures Validate(q, valid).Reject? && Validate(q, valid).rule == ForbiddenOperation
  {
    var ql := Lower(q);
    DeleteOccurs(ql);
    DeleteIsForbidden();
    ForbiddenWitness(ql, 2);
    EmptyPasses(q, valid);
    LastRuleDecides(q, valid, ForbiddenOperation);
  }

  lemma ForbiddenWitness(ql: string, k: nat)
    requires k < |ForbiddenKeywords| && Contains(ql, ForbiddenKeywords[k])
    ensures HasForbidden(ql)
  {
  }

  lemma EmptyPasses(q: string, valid: seq<string>)
    requires !(forall i :: 0 <= i < |Lower(q)| ==> IsSpace(Lower(q)[i]))
    ensures forall r :: Rank(r) < Rank(ForbiddenOperation) ==> !Fails(r, q, valid)
  {
    LowerKeepsSpace(q);
    forall r | Rank(r) < Rank(ForbiddenOperation) ensures r == EmptyQuery { }
  }

  lemma DeleteIsForbidden()
    ensures ForbiddenKeywords[2] == "delete"
  {
  }

  /** A text whose stripped form starts with "delete" contains it. */
  lemma DeleteOccurs(ql: string)
    requires StartsWith(Strip(ql), "delete")
    ensures Contains(ql, "delete")
    ensures !(forall i :: 0 <= i < |ql| ==> IsSpace(ql[i]))
  {
    var t := TrimStart(ql);
    var st := TrimEnd(t);
    var off := |ql| - |t|;
    assert st[..6] == "delete";
    forall k | 0 <= k < 6 ensures ql[off + k] == "delete"[k] {
      assert st[k] == t[k] == ql[off + k];
    }
    assert ql[off..off + 6] == "delete";
    assert MatchesAt(ql, "delete", off);
    assert !IsSpace(ql[off]);
  }

  /** Lower-casing keeps whitespace and non-whitespace apart. */
  lemma LowerKeepsSpace(q: string)
    ensures (forall i :: 0 <= i < |q| ==> IsSpace(q[i])) <==> (forall i :: 0 <= i < |Lower(q)| ==> IsSpace(Lower(q)[i]))
  {
    var ql := Lower(q);
    forall i | 0 <= i < |q| ensures IsSpace(q[i]) <==> IsSpace(ql[i]) {
      assert ql[i] == LowerChar(q[i]);
    }
  }

  /** A query whose only matches of the table pattern follow "join" gets
      past the table checks but fails the FROM-shape check. */
  lemma JoinOnlyMissingFrom(q: string, valid: seq<string>)
    requires forall r :: Rank(r) < Rank(MissingFrom) ==> !Fails(r, q, valid)
    requires forall i :: 0 <= i < |Lower(q)| && TableMatchAt(Lower(q), i) ==> MatchesAt(Lower(q), "join", i)
    ensures Validate(q, valid) == Reject(MissingFrom, "Invalid query structure: Missing FROM clause")
  {
    JoinOnlyHasNoFrom(Lower(q));
    LastRuleDecides(q, valid, MissingFrom);
  }

  lemma JoinOnlyHasNoFrom(ql: string)
    requires forall i :: 0 <= i < |ql| && TableMatchAt(ql, i) ==> MatchesAt(ql, "join", i)
    ensures !HasFromClause(ql)
  {
    forall i | 0 <= i < |ql| ensures !KeywordTableAt(ql, "from", i) {
      FromIsNotJoin(ql, i);
    }
  }

  lemma FromIsNotJoin(s: string, i: nat)
    ensures MatchesAt(s, "from", i) ==> !MatchesAt(s, "join", i)
  {
    if MatchesAt(s, "from", i) {
      assert s[i..i + 4][0] == 'f';
    }
  }

  /** The table names found in a query that passes the table checks are
      all valid, case-insensitively. */
  lemma AcceptedTablesValid(q: string, valid: seq<string>)
    requires Validate(q, valid) == Accept
    ensures ExtractTables(Lower(q)) != []
    ensures forall t :: t in ExtractTables(Lower(q)) ==> exists v :: v in valid && Lower(v) == t
  {
    ValidateByChecks(q, valid);
    assert !CheckOf(NoTables, q, valid);
    assert !CheckOf(UnknownTables, q, valid);
    forall t | t in ExtractTables(Lower(q)) ensures exists v :: v in valid && Lower(v) == t {
      assert t in LowerSet(valid);
    }
  }

  /** A single trailing ';' is allowed; a ';' anywhere before the last
      character rejects a query that got that far. */
  lemma SemicolonRule(q: string, valid: seq<string>)
    requires forall r :: Rank(r) < Rank(MultipleStatements) ==> !Fails(r, q, valid)
    ensures Validate(q, valid) == Accept <==> forall i :: 0 <= i < |q| - 1 ==> q[i] != ';'
    ensures Validate(q, valid) != Accept ==>
      Validate(q, valid) == Reject(MultipleStatements, "Multiple SQL statements are not allowed")
  {
    LastRuleDecides(q, valid, MultipleStatements);
  }

  /** Once every earlier rule passes, rule `r` alone decides, and a
      rejection carries its message. */
  lemma LastRuleDecides(q: string, valid: seq<string>, r: Rule)
    requires forall r' :: Rank(r') < Rank(r) ==> !Fails(r', q, valid)
    ensures Fails(r, q, valid) ==> Validate(q, valid).Reject? && Validate(q, valid).rule == r
    ensures Fails(r, q, valid) ==> Validate(q, valid).message == RuleMessage(Validate(q, valid).rule, q, valid)
    ensures !Fails(r, q, valid) && r == MultipleStatements ==> Validate(q, valid) == Accept
  {
    ValidateIsFirstFailingRule(q, valid);
    ValidateByChecks(q, valid);
    var v := Validate(q, valid);
    if v.Reject? {
      if Rank(r) < Rank(v.rule) {
        assert !Fails(r, q, valid);
      } else if Rank(r) == Rank(v.rule) {
        RankInjective(r, v.rule);
      }
    } else {
      assert !Fails(r, q, valid);
    }
  }

  // ---------------------------------------------------------------------
  // The unknown-tables message, for any enumeration of the set
  // ---------------------------------------------------------------------

  /** `order` lists the set `s` once per element, in some order. */
  ghost predicate Enumerates(order: seq<string>, s: set<string>) {
    NoDuplicates(order) && forall t :: t in order <==> t in s
  }

  function InvalidSet(q: string, valid: seq<string>): set<string> {
    set t | t in ExtractTables(Lower(q)) && t !in LowerSet(valid)
  }

  /** The model enumerates the invalid tables in order of first occurrence;
      Python's set order is not specified, and the lemmas below hold for
      every enumeration. */
  lemma UnknownEnumerates(q: string, valid: seq<string>)
    ensures Enumerates(Unknown(ExtractTables(Lower(q)), LowerSet(valid)), InvalidSet(q, valid))
  {
  }

  /** The message names every invalid table. */
  lemma MessageNamesInvalid(order: seq<string>, valid: seq<string>, t: string)
    requires t in order
    ensures Contains(InvalidTablesMessage(order, valid), t)
  {
    var tail := MessageTail(order, valid);
    JoinContains(", ", order, t);
    ContainsConcat("Invalid tables in query: ", Join(", ", order), t);
    ContainsConcat("Invalid tables in query: " + Join(", ", order), ". " + tail, t);
    assert InvalidTablesMessage(order, valid)
      == ("Invalid tables in query: " + Join(", ", order)) + (". " + tail);
  }

  /** With at least one suggestion, the message holds the suggestion line of
      exactly the invalid tables that have similar valid tables. */
  lemma MessageSuggestions(order: seq<string>, valid: seq<string>, t: string)
    requires t in order && Similar(t, valid) != []
    ensures Contains(InvalidTablesMessage(order, valid), SuggestionLine(t, Similar(t, valid)))
  {
    var sug := Suggested(order, valid);
    var sugg := SuggestionLines(order, valid);
    assert t in sug;
    var i :| 0 <= i < |sug| && sug[i] == t;
    var line := SuggestionLine(t, Similar(t, valid));
    assert sugg[i] == line;
    JoinContains("\n", sugg, line);
    var head := "Invalid tables in query: " + Join(", ", order) + ". " + "\n";
    ContainsConcat(head, Join("\n", sugg), line);
    MessageWithSuggestions(order, valid);
  }

  lemma MessageWithSuggestions(order: seq<string>, valid: seq<string>)
    requires SuggestionLines(order, valid) != []
    ensures InvalidTablesMessage(order, valid) ==
      "Invalid tables in query: " + Join(", ", order) + ". " + "\n" + Join("\n", SuggestionLines(order, valid))
  {
  }

  /** Without any suggestion the message ends by listing every valid table,
      sorted. */
  lemma MessageWithoutSuggestions(order: seq<string>, valid: seq<string>)
    requires forall t :: t in order ==> Similar(t, valid) == []
    ensures EndsWith(InvalidTablesMessage(order, valid), "\nValid tables are: " + Join(", ", SortStrings(valid)))
    ensures SortedStrings(SortStrings(valid)) && multiset(SortStrings(valid)) == multiset(valid)
  {
    assert Suggested(order, valid) == [];
  }
}
