/** What `generate_sql_query` (chatbot_app/utils.py) does after the model
    has answered: the cleanup of the completion text into one SQL line ending
    in ';', and the classification of the exceptions the stage raises. The
    prompt, the schema lookup and the model call are not modelled: the
    completion arrives as a `Completion` value. */
module Generation {
  import opened Text
  import opened Errors

  /** `re.sub(r'```sql\s*|\s*```', '', s)`, scanning from index `i`: at each
      position the first alternative is tried, then the second (a greedy
      `\s*` that must be followed by three backticks); a position where
      neither matches keeps its character. */
  function RemoveFencesFrom(s: string, i: nat): (r: string)
    requires i <= |s|
    ensures |r| <= |s| - i
    decreases |s| - i
  {
    if i == |s| then []
    else if MatchesAt(s, "```sql", i) then RemoveFencesFrom(s, i + 6 + SpaceRun(s, i + 6))
    else if MatchesAt(s, "```", i + SpaceRun(s, i)) then RemoveFencesFrom(s, i + SpaceRun(s, i) + 3)
    else [s[i]] + RemoveFencesFrom(s, i + 1)
  }

  function RemoveFences(s: string): string {
    RemoveFencesFrom(s, 0)
  }

  /** The cleanup of utils.py lines 225-234: strip, drop the code-fence
      markers, strip again, collapse whitespace runs to one space, and end
      with a ';'. */
  function CleanQuery(raw: string): string {
    var q0 := Strip(raw);
    var q1 := Strip(RemoveFences(q0));
    var q2 := Join(" ", Split(q1));
    if EndsWith(q2, ";") then q2 else q2 + ";"
  }

  /** Text with no triple backtick passes the fence removal unchanged. */
  lemma {:induction false} RemoveFencesFromPlain(s: string, i: nat)
    requires i <= |s|
    requires !Contains(s, "```")
    ensures RemoveFencesFrom(s, i) == s[i..]
    decreases |s| - i
  {
    if i < |s| {
      assert !MatchesAt(s, "```", i + SpaceRun(s, i));
      SqlFenceIsFence(s, i);
      RemoveFencesFromPlain(s, i + 1);
      assert s[i..] == [s[i]] + s[i + 1..];
    }
  }

  /** An opening "```sql" fence starts with a "```" fence. */
  lemma SqlFenceIsFence(s: string, i: nat)
    ensures MatchesAt(s, "```sql", i) ==> MatchesAt(s, "```", i)
  {
    if MatchesAt(s, "```sql", i) {
      assert s[i..i + 3] == s[i..i + 6][..3];
    }
  }

  lemma NoMatchWithoutHead(s: string, p: string, i: nat)
    requires p != [] && (i < |s| ==> s[i] != p[0])
    ensures !MatchesAt(s, p, i)
  {
    if i < |s| && i + |p| <= |s| {
      assert s[i..i + |p|][0] == s[i];
    }
  }

  /** A backtick-free position whose whitespace run stops before `j` keeps its character. */
  lemma CopyStep(s: string, i: nat, j: nat)
    requires i < j <= |s|
    requires forall k :: i <= k < j ==> s[k] != '`'
    requires !IsSpace(s[j - 1])
    ensures RemoveFencesFrom(s, i) == [s[i]] + RemoveFencesFrom(s, i + 1)
  {
    NoMatchWithoutHead(s, "```sql", i);
    var n := SpaceRun(s, i);
    assert i + n < j;
    NoMatchWithoutHead(s, "```", i + n);
  }

  lemma ConsSlice(s: string, i: nat, j: nat, rest: string)
    requires i < j <= |s|
    ensures [s[i]] + (s[i + 1..j] + rest) == s[i..j] + rest
  {
    assert [s[i]] + s[i + 1..j] == s[i..j];
  }

  /** A fragment without backticks that does not end in whitespace is
      copied through, and the scan goes on after it. */
  lemma {:induction false} RemoveFencesFromSkips(s: string, i: nat, j: nat)
    requires i <= j <= |s|
    requires forall k :: i <= k < j ==> s[k] != '`'
    requires j > i ==> !IsSpace(s[j - 1])
    ensures RemoveFencesFrom(s, i) == s[i..j] + RemoveFencesFrom(s, j)
    decreases j - i
  {
    if i < j {
      CopyStep(s, i, j);
      RemoveFencesFromSkips(s, i + 1, j);
      ConsSlice(s, i, j, RemoveFencesFrom(s, j));
    }
  }

  /** The scan over an opening "```sql" fence, whitespace up to `b`, a
      backtick-free text up to `e`, whitespace and a closing fence. */
  lemma FencedScan(s: string, b: nat, e: nat)
    requires 6 <= b < e <= |s| - 3
    requires MatchesAt(s, "```sql", 0)
    requires forall k :: 6 <= k < b ==> IsSpace(s[k])
    requires !IsSpace(s[b]) && !IsSpace(s[e - 1])
    requires forall k :: b <= k < e ==> s[k] != '`'
    requires forall k :: e <= k < |s| - 3 ==> IsSpace(s[k])
    requires MatchesAt(s, "```", |s| - 3)
    ensures RemoveFences(s) == s[b..e]
  {
    SpaceRunExact(s, 6, b);
    assert RemoveFences(s) == RemoveFencesFrom(s, b);
    RemoveFencesFromSkips(s, b, e);
    ClosingFence(s, e);
    assert s[b..e] + [] == s[b..e];
  }

  lemma ClosingFence(s: string, e: nat)
    requires e <= |s| - 3
    requires forall k :: e <= k < |s| - 3 ==> IsSpace(s[k])
    requires MatchesAt(s, "```", |s| - 3)
    ensures RemoveFencesFrom(s, e) == []
  {
    assert s[|s| - 3] == s[|s| - 3..][0];
    SpaceRunExact(s, e, |s| - 3);
    assert !MatchesAt(s, "```sql", e);
  }

  /** The answer shape the prompt asks for, a SQL text inside a ```sql fence,
      loses exactly its fence markers and the whitespace around them. */
  lemma FencedBlock(ws1: string, body: string, ws2: string)
    requires AllSpace(ws1) && AllSpace(ws2)
    requires body != [] && !IsSpace(body[0]) && !IsSpace(body[|body| - 1])
    requires forall k :: 0 <= k < |body| ==> body[k] != '`'
    ensures RemoveFences("```sql" + ws1 + body + ws2 + "```") == body
  {
    var pre := "```sql" + ws1;
    var post := ws2 + "```";
    var s := pre + body + post;
    assert s == "```sql" + ws1 + body + ws2 + "```";
    var b := |pre|;
    var e := b + |body|;
    assert s[..6] == "```sql";
    assert forall k :: 6 <= k < b ==> s[k] == ws1[k - 6];
    assert forall k :: b <= k < e ==> s[k] == body[k - b];
    assert forall k :: e <= k < |s| - 3 ==> s[k] == ws2[k - e];
    assert s[|s| - 3..] == "```";
    assert s[b..e] == body;
    FencedScan(s, b, e);
  }

  lemma {:induction false} SpaceRunExact(s: string, i: nat, j: nat)
    requires i <= j < |s|
    requires forall k :: i <= k < j ==> IsSpace(s[k])
    requires !IsSpace(s[j])
    ensures SpaceRun(s, i) == j - i
    decreases j - i
  {
    if i < j { SpaceRunExact(s, i + 1, j); }
  }

  lemma NormalizedSemicolon(s: string)
    requires Normalized(s)
    ensures Normalized(s + ";")
  {
    var t := s + ";";
    assert t[|t| - 1] == ';';
    if s != [] { assert t[0] == s[0]; }
    forall i | 0 <= i < |t| - 1 ensures !(IsSpace(t[i]) && IsSpace(t[i + 1])) {
      if i < |s| - 1 { assert t[i] == s[i] && t[i + 1] == s[i + 1]; }
    }
  }

  /** The cleaned query ends with ';', has no whitespace at either end, and
      its only whitespace is single spaces between other characters. */
  lemma CleanQueryShape(raw: string)
    ensures EndsWith(CleanQuery(raw), ";")
    ensures Normalized(CleanQuery(raw))
  {
    var q1 := Strip(RemoveFences(Strip(raw)));
    var q2 := Join(" ", Split(q1));
    JoinWordsNormalized(Split(q1));
    if !EndsWith(q2, ";") {
      NormalizedSemicolon(q2);
    }
  }

  /** The cleanup keeps every non-whitespace character that the fence
      removal leaves, in order, and adds a ';' exactly when those characters
      do not already end with one. */
  lemma CleanQueryContent(raw: string)
    ensures var kept := NonSpace(RemoveFences(Strip(raw)));
      NonSpace(CleanQuery(raw)) == if EndsWith(kept, ";") then kept else kept + ";"
  {
    var q0 := RemoveFences(Strip(raw));
    var q1 := Strip(q0);
    var q2 := Join(" ", Split(q1));
    var kept := NonSpace(q0);
    StripKeepsContent(q0);
    NormalizeKeepsContent(q1);
    assert NonSpace(q2) == kept;
    JoinWordsNormalized(Split(q1));
    EndsSameSemicolon(q2);
    if !EndsWith(q2, ";") {
      NonSpaceAppend(q2, ";");
      NonSpaceSemicolon();
    }
  }

  /** A normalized text ends with ';' exactly when its non-whitespace
      characters do. */
  lemma EndsSameSemicolon(q: string)
    requires Normalized(q)
    ensures EndsWith(q, ";") <==> EndsWith(NonSpace(q), ";")
  {
    if q == [] {
      assert NonSpace(q) == [];
    } else {
      NonSpaceLast(q);
      var k := NonSpace(q);
      assert EndsWith(q, ";") <==> q[|q| - 1] == ';' by {
        assert q[|q| - 1..] == [q[|q| - 1]];
      }
      assert EndsWith(k, ";") <==> k[|k| - 1] == ';' by {
        assert k[|k| - 1..] == [k[|k| - 1]];
      }
    }
  }

  lemma NonSpaceSemicolon()
    ensures NonSpace(";") == ";"
  {
    assert !IsSpace(";"[0]) && ";"[1..] == [];
  }

  /** Cleaning a cleaned query changes nothing, provided the cleaned query
      holds no triple backtick (see `CleanQueryNotIdempotent`). */
  lemma CleanQueryIdempotent(raw: string)
    requires !Contains(CleanQuery(raw), "```")
    ensures CleanQuery(CleanQuery(raw)) == CleanQuery(raw)
  {
    CleanQueryShape(raw);
    CleanFixpoint(CleanQuery(raw));
  }

  /** A normalized, ';'-terminated text without a triple backtick is left alone. */
  lemma CleanFixpoint(y: string)
    requires Normalized(y) && EndsWith(y, ";") && !Contains(y, "```")
    ensures CleanQuery(y) == y
  {
    StripTrimmed(y);
    RemoveFencesPlain(y);
    SplitJoinNormalized(y);
    CleanFromSteps(y);
  }

  lemma RemoveFencesPlain(y: string)
    requires !Contains(y, "```")
    ensures RemoveFences(y) == y
  {
    RemoveFencesFromPlain(y, 0);
    assert y[0..] == y;
  }

  lemma CleanFromSteps(y: string)
    requires Strip(y) == y && RemoveFences(y) == y && Join(" ", Split(y)) == y
    requires EndsWith(y, ";")
    ensures CleanQuery(y) == y
  {
  }

  /** Fence removal is a single pass, so it can join two backtick runs into a
      new fence: the cleanup of "`` ````" still holds "```", and cleaning
      that again removes it. */
  lemma CleanQueryNotIdempotent()
    ensures CleanQuery("`` ````") == "```;"
    ensures CleanQuery(CleanQuery("`` ````")) == ";"
  {
    SampleFirstClean("`` ````");
    SampleSecondClean();
  }

  /** "`` ````", described character by character. */
  predicate SampleShape(s: string) {
    && |s| == 7 && s[0] == '`' && s[1] == '`' && s[2] == ' '
    && s[3] == '`' && s[4] == '`' && s[5] == '`' && s[6] == '`'
  }

  lemma SampleFirstClean(s: string)
    requires SampleShape(s)
    ensures CleanQuery(s) == "```;"
  {
    SampleFirstPass(s);
    StripTrimmed(s);
    FenceWord();
    CleanSteps(s, "```");
  }

  lemma FenceWord()
    ensures Strip("```") == "```" && Join(" ", Split("```")) == "```"
    ensures !EndsWith("```", ";") && "```" + ";" == "```;"
  {
    StripTrimmed("```");
    SplitJoinNormalized("```");
  }

  lemma SampleSecondClean()
    ensures CleanQuery("```;") == ";"
  {
    SecondClean("```;");
  }

  /** "```;", described character by character. */
  predicate SecondShape(t: string) {
    |t| == 4 && t[0] == '`' && t[1] == '`' && t[2] == '`' && t[3] == ';'
  }

  lemma SecondClean(t: string)
    requires SecondShape(t)
    ensures CleanQuery(t) == [t[3]]
  {
    var f := t[3..];
    assert Strip(t) == t by { StripTrimmed(t); }
    SampleSecondPass(t);
    SemicolonSteps(f);
    CleanSteps(t, f);
    assert f == [t[3]];
  }

  lemma SemicolonSteps(f: string)
    requires |f| == 1 && f[0] == ';'
    ensures Strip(f) == f && Join(" ", Split(f)) == f && EndsWith(f, ";")
  {
    assert !IsSpace(f[0]);
    StripTrimmed(f);
    SingleWordSplit(f);
    SemicolonEnds(f);
  }

  lemma SemicolonEnds(f: string)
    requires |f| == 1 && f[0] == ';'
    ensures EndsWith(f, ";")
  {
    assert f == [';'];
  }

  lemma SingleWordSplit(f: string)
    requires |f| == 1 && !IsSpace(f[0])
    ensures Join(" ", Split(f)) == f
  {
    assert f[1..] == [] && f[..1] == f;
    assert WordLength(f) == 1 by { assert WordLength(f[1..]) == 0; }
    assert Split(f) == [f] + Split([]);
    assert Join(" ", [f]) == f;
  }

  /** The cleanup of a text whose steps are known. */
  lemma CleanSteps(raw: string, f: string)
    requires Strip(raw) == raw && RemoveFences(raw) == f
    requires Strip(f) == f && Join(" ", Split(f)) == f
    ensures CleanQuery(raw) == if EndsWith(f, ";") then f else f + ";"
  {
  }

  lemma SampleFirstPass(s: string)
    requires SampleShape(s)
    ensures RemoveFences(s) == "```"
  {
    assert RemoveFencesFrom(s, 6) == "`" by {
      assert !MatchesAt(s, "```", 6);
    }
    assert RemoveFencesFrom(s, 2) == "`" by {
      assert SpaceRun(s, 2) == 1 by { SpaceRunExact(s, 2, 3); }
      assert s[3..6] == "```";
    }
    KeepAt(s, 1);
    KeepAt(s, 0);
    assert [s[0]] + ([s[1]] + "`") == "```";
  }

  /** A non-space character that does not start a fence is copied. */
  lemma KeepAt(s: string, i: nat)
    requires i + 2 < |s| && !IsSpace(s[i]) && (s[i + 1] != '`' || s[i + 2] != '`')
    ensures RemoveFencesFrom(s, i) == [s[i]] + RemoveFencesFrom(s, i + 1)
  {
    assert SpaceRun(s, i) == 0;
    assert !MatchesAt(s, "```", i) by {
      if i + 3 <= |s| {
        assert s[i..i + 3][1] == s[i + 1] && s[i..i + 3][2] == s[i + 2];
      }
    }
    SqlFenceIsFence(s, i);
  }

  lemma SampleSecondPass(t: string)
    requires SecondShape(t)
    ensures RemoveFences(t) == t[3..]
  {
    assert t[0..3] == "```";
    assert MatchesAt(t, "```", 0 + SpaceRun(t, 0));
    assert RemoveFencesFrom(t, 4) == [];
    assert RemoveFencesFrom(t, 3) == [t[3]] by {
      assert !MatchesAt(t, "```sql", 3);
      assert !MatchesAt(t, "```", 3 + SpaceRun(t, 3));
    }
    assert t[3..] == [t[3]];
  }

  /** The completion the model call produced, or how that call failed. */
  datatype Completion =
    | Completed(text: string)       // `response.text`
    | ConfigFailed(msg: string)     // APIConfigError while configuring the API
    | CallFailed(detail: string)    // any other exception in the stage

  /** `generate_sql_query` from the completion on: the cleaned query, the
      configuration error passed on with its message, or any other failure
      wrapped as a DatabaseError (utils.py lines 236-240). */
  function GenerateSqlQuery(c: Completion): (r: Outcome<string>)
    ensures r.Ok? <==> c.Completed?
    ensures c.Completed? ==> r == Ok(CleanQuery(c.text))
    ensures r.Ok? ==> EndsWith(r.value, ";") && Normalized(r.value)
    ensures r.Raised? ==> r.exc.APIConfigError? || r.exc.DatabaseError?
    ensures c.ConfigFailed? ==> r == Raised(APIConfigError(c.msg))
    ensures c.CallFailed? ==> r.Raised? && r.exc.DatabaseError?
    ensures c.CallFailed? ==> StartsWith(r.exc.msg, "Failed to generate SQL query: ") && EndsWith(r.exc.msg, c.detail)
  {
    match c
    case Completed(text) =>
      CleanQueryShape(text);
      Ok(CleanQuery(text))
    case ConfigFailed(m) => Raised(APIConfigError(m))
    case CallFailed(d) => Raised(DatabaseError("Failed to generate SQL query: " + d))
  }
}
