/** `clean_column_name` (chatbot_app/utils.py): a column name turned into a
    display label by `name.replace('_', ' ').title()`. */
module ColumnNames {
  import opened Text

  /** `s.replace(a, b)` for single characters. */
  function ReplaceChar(s: string, a: char, b: char): (r: string)
    ensures |r| == |s|
    ensures forall i :: 0 <= i < |s| ==> r[i] == (if s[i] == a then b else s[i])
  {
    seq(|s|, i requires 0 <= i < |s| => if s[i] == a then b else s[i])
  }

  /** `str.title()` as CPython runs it: one pass that lower-cases a character
      when the previous one was cased and upper-cases it otherwise. */
  function TitleFrom(s: string, prevCased: bool): (r: string)
    ensures |r| == |s|
    decreases |s|
  {
    if s == [] then []
    else
      var c := if prevCased then LowerChar(s[0]) else UpperChar(s[0]);
      [c] + TitleFrom(s[1..], IsLetter(s[0]))
  }

  function Title(s: string): string {
    TitleFrom(s, false)
  }

  /** A word starts at `i` when the character before it is not a letter. */
  predicate WordStart(s: string, i: nat)
    requires i < |s|
  {
    i == 0 || !IsLetter(s[i - 1])
  }

  /** `r` is the title-cased form of `s`: upper case at each word start,
      lower case everywhere else. */
  predicate Titled(s: string, r: string) {
    && |r| == |s|
    && forall i :: 0 <= i < |s| ==>
         r[i] == (if WordStart(s, i) then UpperChar(s[i]) else LowerChar(s[i]))
  }

  lemma {:induction false} TitleFromAt(s: string, p: bool, i: nat)
    requires i < |s|
    ensures TitleFrom(s, p)[i] ==
      (if (if i == 0 then p else IsLetter(s[i - 1])) then LowerChar(s[i]) else UpperChar(s[i]))
    decreases |s|
  {
    if i > 0 {
      TitleFromAt(s[1..], IsLetter(s[0]), i - 1);
      if i > 1 {
        assert s[1..][i - 2] == s[i - 1];
      }
    }
  }

  /** The one-pass definition meets the word-by-word description. */
  lemma TitleIsTitled(s: string)
    ensures Titled(s, Title(s))
  {
    forall i | 0 <= i < |s|
      ensures Title(s)[i] == (if WordStart(s, i) then UpperChar(s[i]) else LowerChar(s[i]))
    {
      TitleFromAt(s, false, i);
    }
  }

  /** `name.replace('_', ' ').title()`. */
  function CleanColumnName(name: string): string {
    Title(ReplaceChar(name, '_', ' '))
  }

  /** The label has the name's length, no underscore, a space for every
      underscore, and each word capitalised with the rest in lower case. */
  lemma CleanColumnNameShape(name: string)
    ensures |CleanColumnName(name)| == |name|
    ensures '_' !in CleanColumnName(name)
    ensures forall i :: 0 <= i < |name| ==>
           CleanColumnName(name)[i] == (if name[i] == '_' then ' '
                    else if WordStart(name, i) then UpperChar(name[i])
                    else LowerChar(name[i]))
  {
    var spaced := ReplaceChar(name, '_', ' ');
    TitleIsTitled(spaced);
    var r := CleanColumnName(name);
    forall i | 0 <= i < |r| ensures r[i] != '_' {
      assert spaced[i] != '_';
    }
    forall i | 0 < i < |name| ensures WordStart(spaced, i) == WordStart(name, i) {
      assert spaced[i - 1] == (if name[i - 1] == '_' then ' ' else name[i - 1]);
    }
  }

  /** Cleaning keeps letters letters and everything else not a letter. */
  lemma CleanKeepsLetters(name: string, i: nat)
    requires i < |name|
    ensures IsLetter(CleanColumnName(name)[i]) <==> IsLetter(name[i])
  {
    CleanColumnNameShape(name);
    var c := name[i];
    if c == '_' {
      assert CleanColumnName(name)[i] == ' ';
    } else if WordStart(name, i) {
      assert CleanColumnName(name)[i] == UpperChar(c);
    } else {
      assert CleanColumnName(name)[i] == LowerChar(c);
    }
  }

  /** Cleaning a label again changes nothing. */
  lemma CleanColumnNameIdempotent(name: string)
    ensures CleanColumnName(CleanColumnName(name)) == CleanColumnName(name)
  {
    var r := CleanColumnName(name);
    CleanColumnNameShape(name);
    CleanColumnNameShape(r);
    var rr := CleanColumnName(r);
    forall i | 0 <= i < |r| ensures rr[i] == r[i] {
      if i > 0 {
        CleanKeepsLetters(name, i - 1);
      }
      if name[i] != '_' {
        assert UpperChar(UpperChar(name[i])) == UpperChar(name[i]);
        assert LowerChar(LowerChar(name[i])) == LowerChar(name[i]);
      }
    }
    assert |rr| == |r|;
  }
}
