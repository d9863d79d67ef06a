/** Python's string built-ins as the query pipeline uses them: character classes,
    `lower`, `strip`, `split`, `join`, `in`, `startswith`, `sorted` and `str(int)`.
    Character classes follow Python for whitespace; letters, digits and case
    mapping are restricted to ASCII. */
module Text {

  datatype Option<T> = None | Some(value: T)

  /** `str.isspace()` for a single character. */
  predicate IsSpace(c: char) {
    c == ' ' || ('\t' <= c <= '\r') || ('\U{1c}' <= c <= '\U{1f}')
    || c == '\U{85}' || c == '\U{a0}' || c == '\U{1680}' || ('\U{2000}' <= c <= '\U{200a}')
    || c == '\U{2028}' || c == '\U{2029}' || c == '\U{202f}' || c == '\U{205f}' || c == '\U{3000}'
  }

  predicate IsUpper(c: char) { 'A' <= c <= 'Z' }
  predicate IsLower(c: char) { 'a' <= c <= 'z' }
  predicate IsLetter(c: char) { IsUpper(c) || IsLower(c) }

  /** The regular-expression class `\w` over ASCII. */
  predicate IsWordChar(c: char) { IsLetter(c) || ('0' <= c <= '9') || c == '_' }

  function LowerChar(c: char): (r: char)
    ensures !IsUpper(r)
    ensures IsLetter(c) <==> IsLetter(r)
    ensures !IsLetter(c) ==> r == c
  {
    if IsUpper(c) then (c as int + 32) as char else c
  }

  function UpperChar(c: char): (r: char)
    ensures !IsLower(r)
    ensures IsLetter(c) <==> IsLetter(r)
    ensures !IsLetter(c) ==> r == c
  {
    if IsLower(c) then (c as int - 32) as char else c
  }

  /** `str.lower()`. */
  function Lower(s: string): (r: string)
    ensures |r| == |s|
    ensures forall i :: 0 <= i < |s| ==> r[i] == LowerChar(s[i])
  {
    seq(|s|, i requires 0 <= i < |s| => LowerChar(s[i]))
  }

  predicate AllSpace(s: string) {
    forall i :: 0 <= i < |s| ==> IsSpace(s[i])
  }

  /** `str.lstrip()`: the suffix left after the leading whitespace. */
  function TrimStart(s: string): (r: string)
    ensures |r| <= |s| && r == s[|s| - |r|..]
    ensures AllSpace(s[..|s| - |r|])
    ensures r == [] || !IsSpace(r[0])
  {
    if s != [] && IsSpace(s[0]) then TrimStart(s[1..]) else s
  }

  /** `str.rstrip()`: the prefix left before the trailing whitespace. */
  function TrimEnd(s: string): (r: string)
    ensures |r| <= |s| && r == s[..|r|]
    ensures AllSpace(s[|r|..])
    ensures r == [] || !IsSpace(r[|r| - 1])
  {
    if s != [] && IsSpace(s[|s| - 1]) then
      var r := TrimEnd(s[..|s| - 1]);
      TrimEndStep(s, r);
      r
    else s
  }

  lemma TrimEndStep(s: string, r: string)
    requires s != [] && IsSpace(s[|s| - 1])
    requires |r| <= |s| - 1 && r == s[..|s| - 1][..|r|] && AllSpace(s[..|s| - 1][|r|..])
    ensures r == s[..|r|] && AllSpace(s[|r|..])
  {
    var t := s[..|s| - 1];
    assert forall i :: |r| <= i < |s| - 1 ==> s[i] == t[|r|..][i - |r|];
  }

  /** `str.strip()`. */
  function Strip(s: string): string {
    TrimEnd(TrimStart(s))
  }

  predicate Trimmed(s: string) {
    s == [] || (!IsSpace(s[0]) && !IsSpace(s[|s| - 1]))
  }

  /** `not s.strip()` holds exactly of the all-whitespace strings; what is
      left is a slice of `s` with no whitespace at either end. */
  lemma StripFacts(s: string)
    ensures Strip(s) == [] <==> AllSpace(s)
    ensures Trimmed(Strip(s))
    ensures |Strip(s)| <= |s|
  {
    var t := TrimStart(s);
    if Strip(s) == [] {
      assert AllSpace(t) by {
        assert t[|Strip(s)|..] == t;
      }
      AllSpaceHeadless(t);
      assert s[..|s| - |t|] == s;
    }
  }

  /** A whitespace-only text that does not start with whitespace is empty. */
  lemma AllSpaceHeadless(t: string)
    requires AllSpace(t) && (t == [] || !IsSpace(t[0]))
    ensures t == []
  {
  }

  lemma StripTrimmed(s: string)
    requires Trimmed(s)
    ensures Strip(s) == s
  {
  }

  /** `p` occurs in `s` starting at index `i`. */
  predicate MatchesAt(s: string, p: string, i: int) {
    0 <= i && i + |p| <= |s| && s[i..i + |p|] == p
  }

  /** Python's substring test `p in s`. */
  predicate Contains(s: string, p: string) {
    exists i | 0 <= i <= |s| - |p| :: MatchesAt(s, p, i)
  }

  /** `s.startswith(p)`. */
  predicate StartsWith(s: string, p: string) {
    MatchesAt(s, p, 0)
  }

  /** `s.endswith(p)`. */
  predicate EndsWith(s: string, p: string) {
    |p| <= |s| && s[|s| - |p|..] == p
  }

  /** `sep.join(parts)`. */
  function Join(sep: string, parts: seq<string>): (r: string)
    decreases |parts|
  {
    if |parts| == 0 then ""
    else if |parts| == 1 then parts[0]
    else parts[0] + sep + Join(sep, parts[1..])
  }

  /** Length of the longest prefix of `s` without whitespace. */
  function WordLength(s: string): (n: nat)
    ensures n <= |s|
    ensures forall i :: 0 <= i < n ==> !IsSpace(s[i])
    ensures n < |s| ==> IsSpace(s[n])
  {
    if s == [] || IsSpace(s[0]) then 0 else 1 + WordLength(s[1..])
  }

  /** Length of the maximal run of whitespace starting at index `i`
      (what a greedy `\s*` consumes there). */
  function SpaceRun(s: string, i: nat): (n: nat)
    requires i <= |s|
    ensures i + n <= |s|
    ensures forall k :: i <= k < i + n ==> IsSpace(s[k])
    ensures i + n < |s| ==> !IsSpace(s[i + n])
    decreases |s| - i
  {
    if i < |s| && IsSpace(s[i]) then 1 + SpaceRun(s, i + 1) else 0
  }

  /** Length of the maximal run of `\w` characters starting at index `i`. */
  function WordRun(s: string, i: nat): (n: nat)
    requires i <= |s|
    ensures i + n <= |s|
    ensures forall k :: i <= k < i + n ==> IsWordChar(s[k])
    ensures i + n < |s| ==> !IsWordChar(s[i + n])
    decreases |s| - i
  {
    if i < |s| && IsWordChar(s[i]) then 1 + WordRun(s, i + 1) else 0
  }

  /** `s.split()` with no separator: the maximal runs of non-whitespace. */
  function Split(s: string): (words: seq<string>)
    ensures forall w :: w in words ==> w != [] && forall i :: 0 <= i < |w| ==> !IsSpace(w[i])
    decreases |s|
  {
    if s == [] then []
    else if IsSpace(s[0]) then Split(s[1..])
    else
      var n := WordLength(s);
      [s[..n]] + Split(s[n..])
  }

  /** The shape `' '.join(s.split())` produces: single spaces between
      non-space characters and no whitespace at either end. */
  predicate Normalized(s: string) {
    && Trimmed(s)
    && (forall i :: 0 <= i < |s| && IsSpace(s[i]) ==> s[i] == ' ')
    && (forall i :: 0 <= i < |s| - 1 ==> !(IsSpace(s[i]) && IsSpace(s[i + 1])))
  }

  /** Joining words that hold no whitespace with single spaces gives a
      normalized string. */
  lemma {:induction false} JoinWordsNormalized(words: seq<string>)
    requires forall w :: w in words ==> w != [] && forall i :: 0 <= i < |w| ==> !IsSpace(w[i])
    ensures Normalized(Join(" ", words))
    ensures words != [] ==> Join(" ", words) != [] && !IsSpace(Join(" ", words)[0])
    decreases |words|
  {
    if |words| > 1 {
      var w := words[0];
      var rest := Join(" ", words[1..]);
      JoinWordsNormalized(words[1..]);
      var j := Join(" ", words);
      assert j == w + " " + rest;
      assert j[0] == w[0];
      assert j[|j| - 1] == rest[|rest| - 1];
      forall i | 0 <= i < |j| && IsSpace(j[i]) ensures j[i] == ' ' {
        if i > |w| { assert j[i] == rest[i - |w| - 1]; }
      }
      forall i | 0 <= i < |j| - 1 ensures !(IsSpace(j[i]) && IsSpace(j[i + 1])) {
        if i < |w| - 1 {
          assert j[i] == w[i];
        } else if i == |w| - 1 {
          assert j[i] == w[i];
        } else if i == |w| {
          assert j[i + 1] == rest[0];
        } else {
          assert j[i] == rest[i - |w| - 1] && j[i + 1] == rest[i - |w|];
        }
      }
    }
  }

  /** `' '.join(s.split())` leaves a normalized string unchanged. */
  lemma {:induction false} SplitJoinNormalized(s: string)
    requires Normalized(s)
    ensures Join(" ", Split(s)) == s
    ensures s != [] ==> Split(s) != []
    decreases |s|
  {
    if s != [] {
      var n := WordLength(s);
      assert Split(s) == [s[..n]] + Split(s[n..]);
      if n < |s| {
        var tail := s[n + 1..];
        NormalizedAfterWord(s, n);
        SplitJoinNormalized(tail);
        JoinCons(" ", s[..n], Split(tail));
        SplitAtSpace(s, n);
      } else {
        assert s[..n] == s;
      }
    }
  }

  lemma SplitAtSpace(s: string, n: nat)
    requires n < |s| && s[n] == ' '
    ensures s == s[..n] + " " + s[n + 1..]
  {
    assert s == s[..n] + [s[n]] + s[n + 1..];
  }

  lemma JoinCons(sep: string, w: string, ws: seq<string>)
    requires ws != []
    ensures Join(sep, [w] + ws) == w + sep + Join(sep, ws)
  {
    assert ([w] + ws)[1..] == ws;
  }

  /** In a normalized string, a word that does not end the string is
      followed by one space and a normalized, non-empty remainder. */
  lemma NormalizedAfterWord(s: string, n: nat)
    requires Normalized(s) && s != [] && n == WordLength(s) && n < |s|
    ensures s[n] == ' ' && n + 1 < |s|
    ensures Normalized(s[n + 1..]) && !IsSpace(s[n + 1])
    ensures Split(s[n..]) == Split(s[n + 1..])
  {
    var rest := s[n..];
    var tail := s[n + 1..];
    assert rest[0] == s[n];
    assert n < |s| - 1 by {
      assert !IsSpace(s[|s| - 1]);
    }
    assert tail[0] == s[n + 1];
    forall i | 0 <= i < |tail| && IsSpace(tail[i]) ensures tail[i] == ' ' {
      assert tail[i] == s[n + 1 + i];
    }
    forall i | 0 <= i < |tail| - 1 ensures !(IsSpace(tail[i]) && IsSpace(tail[i + 1])) {
      assert tail[i] == s[n + 1 + i] && tail[i + 1] == s[n + 2 + i];
    }
    assert tail[|tail| - 1] == s[|s| - 1];
    assert rest[1..] == tail;
  }

  /** The characters of `s` that are not whitespace, in order. */
  function NonSpace(s: string): string
    decreases |s|
  {
    if s == [] then [] else (if IsSpace(s[0]) then [] else [s[0]]) + NonSpace(s[1..])
  }

  /** The words laid end to end. */
  function Concat(ws: seq<string>): string
    decreases |ws|
  {
    if ws == [] then [] else ws[0] + Concat(ws[1..])
  }

  lemma {:induction false} NonSpaceAppend(a: string, b: string)
    ensures NonSpace(a + b) == NonSpace(a) + NonSpace(b)
    decreases |a|
  {
    if a != [] {
      assert (a + b)[0] == a[0] && (a + b)[1..] == a[1..] + b;
      NonSpaceAppend(a[1..], b);
    } else {
      assert a + b == b;
    }
  }

  lemma {:induction false} NonSpaceWord(w: string)
    requires forall i :: 0 <= i < |w| ==> !IsSpace(w[i])
    ensures NonSpace(w) == w
    decreases |w|
  {
    if w != [] {
      NonSpaceWord(w[1..]);
      assert w == [w[0]] + w[1..];
    }
  }

  /** The words of `s.split()`, laid end to end, are exactly the
      non-whitespace characters of `s`: splitting drops whitespace and
      nothing else, and keeps the order. */
  lemma {:induction false} SplitContent(s: string)
    ensures Concat(Split(s)) == NonSpace(s)
    decreases |s|
  {
    if s != [] {
      if IsSpace(s[0]) {
        SplitContent(s[1..]);
      } else {
        var n := WordLength(s);
        SplitContent(s[n..]);
        assert Split(s) == [s[..n]] + Split(s[n..]);
        NonSpaceWord(s[..n]);
        assert s == s[..n] + s[n..];
        ContentCons(s, s[..n], s[n..], Split(s[n..]));
      }
    }
  }

  lemma ContentCons(s: string, w: string, rest: string, ws: seq<string>)
    requires s == w + rest && NonSpace(w) == w && Concat(ws) == NonSpace(rest)
    ensures Concat([w] + ws) == NonSpace(s)
  {
    ConcatCons(w, ws);
    NonSpaceAppend(w, rest);
  }

  lemma ConcatCons(w: string, ws: seq<string>)
    ensures Concat([w] + ws) == w + Concat(ws)
  {
    assert ([w] + ws)[1..] == ws;
  }

  /** A whitespace-free, non-empty text is a single word. */
  lemma SplitWord(w: string)
    requires w != [] && forall i :: 0 <= i < |w| ==> !IsSpace(w[i])
    ensures Split(w) == [w]
  {
    assert WordLength(w) == |w| by { WordLengthWord(w); }
    assert w[..|w|] == w && w[|w|..] == [];
  }

  lemma {:induction false} WordLengthWord(w: string)
    requires forall i :: 0 <= i < |w| ==> !IsSpace(w[i])
    ensures WordLength(w) == |w|
    decreases |w|
  {
    if w != [] { WordLengthWord(w[1..]); }
  }

  /** Whitespace separates words: the split of `a`, a whitespace character
      and `b` is the split of `a` followed by the split of `b`. With
      `SplitWord` and `Split("") == []` this determines `split()` entirely. */
  lemma {:induction false} SplitAtWhitespace(a: string, c: char, b: string)
    requires IsSpace(c)
    ensures Split(a + [c] + b) == Split(a) + Split(b)
    decreases |a|, 1
  {
    if a == [] {
      SplitSkip([c] + b);
      assert a + [c] + b == [c] + b;
      assert ([c] + b)[1..] == b;
    } else if IsSpace(a[0]) {
      SplitAtWhitespaceLead(a, c, b);
    } else {
      SplitAtWhitespaceWord(a, c, b);
    }
  }

  lemma {:induction false} SplitAtWhitespaceLead(a: string, c: char, b: string)
    requires IsSpace(c) && a != [] && IsSpace(a[0])
    ensures Split(a + [c] + b) == Split(a) + Split(b)
    decreases |a|, 0
  {
    var t := a[1..];
    SplitSkip(a + [c] + b);
    SplitSkip(a);
    assert (a + [c] + b)[1..] == t + [c] + b;
    SplitAtWhitespace(t, c, b);
  }

  lemma {:induction false} SplitAtWhitespaceWord(a: string, c: char, b: string)
    requires IsSpace(c) && a != [] && !IsSpace(a[0])
    ensures Split(a + [c] + b) == Split(a) + Split(b)
    decreases |a|, 0
  {
    var n := WordLength(a);
    var t := a[n..];
    SplitWordStep(a, [c] + b);
    assert a + ([c] + b) == a + [c] + b;
    assert t + ([c] + b) == t + [c] + b;
    SplitAtWhitespace(t, c, b);
    ConsAssoc(a[..n], Split(t), Split(b));
  }

  lemma ConsAssoc<T>(w: T, x: seq<T>, y: seq<T>)
    ensures [w] + (x + y) == [w] + x + y
  {
  }

  lemma SplitSkip(s: string)
    requires s != [] && IsSpace(s[0])
    ensures Split(s) == Split(s[1..])
  {
  }

  /** Splitting `a + t`, where `a` starts with a word and `t` with
      whitespace, takes the first word of `a`. */
  lemma SplitWordStep(a: string, t: string)
    requires a != [] && !IsSpace(a[0]) && t != [] && IsSpace(t[0])
    ensures var n := WordLength(a);
      Split(a + t) == [a[..n]] + Split(a[n..] + t) && Split(a) == [a[..n]] + Split(a[n..])
  {
    var n := WordLength(a);
    WordLengthPrefix(a, t);
    SplitUnfold(a);
    SplitUnfold(a + t);
    SlicesOfAppend(a, t, n);
  }

  lemma SplitUnfold(s: string)
    requires s != [] && !IsSpace(s[0])
    ensures Split(s) == [s[..WordLength(s)]] + Split(s[WordLength(s)..])
  {
  }

  lemma SlicesOfAppend(a: string, t: string, n: nat)
    requires n <= |a|
    ensures (a + t)[..n] == a[..n] && (a + t)[n..] == a[n..] + t
  {
  }


  /** The first word of `a + t` is that of `a` when `t` starts with whitespace. */
  lemma {:induction false} WordLengthPrefix(a: string, t: string)
    requires t != [] && IsSpace(t[0])
    ensures WordLength(a + t) == WordLength(a)
    decreases |a|
  {
    if a == [] {
      assert a + t == t;
    } else {
      assert (a + t)[0] == a[0];
      if !IsSpace(a[0]) {
        assert (a + t)[1..] == a[1..] + t;
        WordLengthPrefix(a[1..], t);
      }
    }
  }

  /** Joining with single spaces keeps exactly the words' characters. */
  lemma {:induction false} JoinNonSpace(ws: seq<string>)
    requires forall w :: w in ws ==> forall i :: 0 <= i < |w| ==> !IsSpace(w[i])
    ensures NonSpace(Join(" ", ws)) == Concat(ws)
    decreases |ws|
  {
    if ws != [] {
      var w := ws[0];
      assert w in ws;
      NonSpaceWord(w);
      var rest := ws[1..];
      assert Concat(ws) == w + Concat(rest);
      if rest == [] {
        assert Join(" ", ws) == w;
      } else {
        assert forall v :: v in rest ==> v in ws;
        JoinNonSpace(rest);
        assert Join(" ", ws) == w + " " + Join(" ", rest);
        SpaceJoinStep(w, Join(" ", rest));
      }
    }
  }

  lemma SpaceJoinStep(w: string, r: string)
    requires NonSpace(w) == w
    ensures NonSpace(w + " " + r) == w + NonSpace(r)
  {
    NonSpaceAppend(w + " ", r);
    NonSpaceAppend(w, " ");
    NonSpaceBlank();
  }

  lemma NonSpaceBlank()
    ensures NonSpace(" ") == []
  {
    assert IsSpace(" "[0]) && " "[1..] == [];
  }

  /** `' '.join(s.split())` keeps every non-whitespace character of `s`, in order. */
  lemma NormalizeKeepsContent(s: string)
    ensures NonSpace(Join(" ", Split(s))) == NonSpace(s)
  {
    JoinNonSpace(Split(s));
    SplitContent(s);
  }

  lemma {:induction false} NonSpaceAllSpace(s: string)
    requires AllSpace(s)
    ensures NonSpace(s) == []
    decreases |s|
  {
    if s != [] { NonSpaceAllSpace(s[1..]); }
  }

  /** `strip()` removes only whitespace, so it keeps the non-whitespace characters. */
  lemma StripKeepsContent(s: string)
    ensures NonSpace(Strip(s)) == NonSpace(s)
  {
    TrimStartKeepsContent(s);
    TrimEndKeepsContent(TrimStart(s));
  }

  lemma TrimStartKeepsContent(s: string)
    ensures NonSpace(TrimStart(s)) == NonSpace(s)
  {
    var t := TrimStart(s);
    var p := s[..|s| - |t|];
    assert s == p + t;
    NonSpaceAppend(p, t);
    NonSpaceAllSpace(p);
  }

  lemma TrimEndKeepsContent(t: string)
    ensures NonSpace(TrimEnd(t)) == NonSpace(t)
  {
    var u := TrimEnd(t);
    var q := t[|u|..];
    assert t == u + q;
    NonSpaceAppend(u, q);
    NonSpaceAllSpace(q);
  }

  /** The last non-whitespace character of a text that ends in one is that character. */
  lemma NonSpaceLast(s: string)
    requires s != [] && !IsSpace(s[|s| - 1])
    ensures NonSpace(s) != [] && NonSpace(s)[|NonSpace(s)| - 1] == s[|s| - 1]
  {
    var c := s[|s| - 1];
    assert s == s[..|s| - 1] + [c];
    NonSpaceAppend(s[..|s| - 1], [c]);
    assert NonSpace([c]) == [c] by { assert [c][1..] == []; }
  }

  /** Decimal digits of a natural number, as `str(n)` writes them. */
  function NatToString(n: nat): (r: string)
    ensures r != []
    ensures forall i :: 0 <= i < |r| ==> '0' <= r[i] <= '9'
    decreases n
  {
    if n < 10 then [('0' as int + n) as char]
    else NatToString(n / 10) + [('0' as int + n % 10) as char]
  }

  /** The value a string of decimal digits denotes. */
  function DigitsValue(s: string): nat
    requires forall i :: 0 <= i < |s| ==> '0' <= s[i] <= '9'
    decreases |s|
  {
    if s == [] then 0 else 10 * DigitsValue(s[..|s| - 1]) + (s[|s| - 1] as int - '0' as int)
  }

  /** Reading back the decimal form of `n` gives `n`. */
  lemma {:induction false} NatToStringRoundTrip(n: nat)
    ensures DigitsValue(NatToString(n)) == n
    decreases n
  {
    if n >= 10 {
      NatToStringRoundTrip(n / 10);
      var r := NatToString(n);
      assert r[..|r| - 1] == NatToString(n / 10);
    }
  }

  /** Python's `<=` on strings: lexicographic on code points, a prefix first. */
  predicate StrLe(a: string, b: string)
    decreases |a|
  {
    if a == [] then true
    else if b == [] then false
    else if a[0] != b[0] then a[0] < b[0]
    else StrLe(a[1..], b[1..])
  }

  lemma {:induction false} StrLeTotal(a: string, b: string)
    ensures StrLe(a, b) || StrLe(b, a)
    decreases |a|
  {
    if a != [] && b != [] && a[0] == b[0] {
      StrLeTotal(a[1..], b[1..]);
    }
  }

  predicate SortedStrings(s: seq<string>) {
    forall i :: 0 <= i < |s| - 1 ==> StrLe(s[i], s[i + 1])
  }

  function InsertSorted(x: string, s: seq<string>): (r: seq<string>)
    requires SortedStrings(s)
    ensures SortedStrings(r)
    ensures multiset(r) == multiset(s) + multiset{x}
    ensures |r| == |s| + 1
    ensures r[0] == x || (s != [] && r[0] == s[0])
    decreases |s|
  {
    if s == [] then [x]
    else if StrLe(x, s[0]) then [x] + s
    else
      StrLeTotal(x, s[0]);
      var t := InsertSorted(x, s[1..]);
      assert s == [s[0]] + s[1..];
      [s[0]] + t
  }

  /** `sorted(s)` for a list of strings: sorted and a permutation of `s`. */
  function SortStrings(s: seq<string>): (r: seq<string>)
    ensures SortedStrings(r)
    ensures multiset(r) == multiset(s)
    decreases |s|
  {
    if s == [] then []
    else
      assert s == [s[0]] + s[1..];
      InsertSorted(s[0], SortStrings(s[1..]))
  }

  /** Index of the first occurrence of `c` in `s`, or `|s|` when absent. */
  function IndexOf(s: string, c: char): (k: nat)
    ensures k <= |s|
    ensures forall i :: 0 <= i < k ==> s[i] != c
    ensures k < |s| ==> s[k] == c
  {
    if s == [] || s[0] == c then 0 else 1 + IndexOf(s[1..], c)
  }

  /** `s.split(c)` for a one-character separator. */
  function SplitOn(s: string, c: char): (r: seq<string>)
    ensures r != []
    decreases |s|
  {
    var k := IndexOf(s, c);
    if k == |s| then [s] else [s[..k]] + SplitOn(s[k + 1..], c)
  }

  /** Splitting a join on its (absent from every part) separator gives the parts back. */
  lemma {:induction false} SplitOnJoin(parts: seq<string>, c: char)
    requires parts != []
    requires forall p :: p in parts ==> c !in p
    ensures SplitOn(Join([c], parts), c) == parts
    decreases |parts|
  {
    var j := Join([c], parts);
    var p := parts[0];
    if |parts| == 1 {
      assert IndexOf(j, c) == |j| by {
        assert p in parts;
      }
    } else {
      var rest := Join([c], parts[1..]);
      assert j == p + [c] + rest;
      assert IndexOf(j, c) == |p| by {
        assert j[|p|] == c;
        assert p in parts;
      }
      assert j[..|p|] == p;
      assert j[|p| + 1..] == rest;
      SplitOnJoin(parts[1..], c);
    }
  }

  /** An occurrence in one side of a concatenation is an occurrence in the whole. */
  lemma ContainsConcat(a: string, b: string, p: string)
    ensures Contains(a, p) ==> Contains(a + b, p)
    ensures Contains(b, p) ==> Contains(a + b, p)
  {
    if Contains(a, p) {
      var i :| 0 <= i <= |a| - |p| && MatchesAt(a, p, i);
      assert (a + b)[i..i + |p|] == a[i..i + |p|];
      assert MatchesAt(a + b, p, i);
    }
    if Contains(b, p) {
      var i :| 0 <= i <= |b| - |p| && MatchesAt(b, p, i);
      assert (a + b)[|a| + i..|a| + i + |p|] == b[i..i + |p|];
      assert MatchesAt(a + b, p, |a| + i);
    }
  }

  lemma ContainsSelf(s: string)
    ensures Contains(s, s)
  {
    assert MatchesAt(s, s, 0);
  }

  /** Every part occurs in the joined text. */
  lemma {:induction false} JoinContains(sep: string, parts: seq<string>, t: string)
    requires t in parts
    ensures Contains(Join(sep, parts), t)
    decreases |parts|
  {
    if |parts| == 1 {
      ContainsSelf(t);
    } else if parts[0] == t {
      ContainsSelf(t);
      ContainsConcat(t, sep + Join(sep, parts[1..]), t);
      assert t + sep + Join(sep, parts[1..]) == t + (sep + Join(sep, parts[1..]));
    } else {
      JoinContains(sep, parts[1..], t);
      ContainsConcat(parts[0] + sep, Join(sep, parts[1..]), t);
    }
  }

  /** A character absent from the separator and from every part is absent from the join. */
  lemma {:induction false} JoinAvoids(sep: string, parts: seq<string>, c: char)
    requires c !in sep
    requires forall p :: p in parts ==> c !in p
    ensures c !in Join(sep, parts)
    decreases |parts|
  {
    if |parts| > 1 {
      assert parts[0] in parts;
      JoinAvoids(sep, parts[1..], c);
    } else if |parts| == 1 {
      assert parts[0] in parts;
    }
  }
}
