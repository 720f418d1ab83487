/**
 * Extraction of the table name from a `CREATE TABLE` statement, as done by
 * `preg_match("/create table\s+(\w+)\s/i", $ddl, $match)` in
 * oadueslookup_create_table: the first (leftmost) position where the words
 * "create table" (in any case), one or more white-space characters, a run of
 * word characters and one more white-space character follow each other.
 *
 * The search is written as functions (MatchAt, FindFrom); MatchSpan states
 * declaratively what a match is, and the lemmas prove that the search
 * returns exactly the name of the leftmost match.
 */
module DdlName {
  import opened Wrappers

  /** The literal part of the pattern; under the `i` flag its letters match either case. */
  const Keyword: string := "create table"

  /** PCRE's `\s`: space, tab, line feed, vertical tab, form feed, carriage return. */
  predicate IsSpace(c: char) {
    c == ' ' || c == '\t' || c == '\n' || c == '\U{B}' || c == '\U{C}' || c == '\r'
  }

  /** PCRE's `\w` without Unicode support: ASCII letters, digits and the underscore. */
  predicate IsWordChar(c: char) {
    ('a' <= c <= 'z') || ('A' <= c <= 'Z') || ('0' <= c <= '9') || c == '_'
  }

  predicate IsWordString(s: string) {
    forall t :: 0 <= t < |s| ==> IsWordChar(s[t])
  }

  /** ASCII lower case; caseless matching compares lowered characters. */
  function Lower(c: char): char {
    if 'A' <= c <= 'Z' then (c as int - 'A' as int + 'a' as int) as char else c
  }

  /** The keyword occurs, in any case, at position i of s. */
  predicate KeywordAt(s: string, i: nat) {
    i + |Keyword| <= |s| && forall t :: 0 <= t < |Keyword| ==> Lower(s[i + t]) == Keyword[t]
  }

  /** The end of the run of white space that starts at j (`\s+` is greedy). */
  function SkipSpaces(s: string, j: nat): (r: nat)
    requires j <= |s|
    ensures j <= r <= |s|
    ensures forall t :: j <= t < r ==> IsSpace(s[t])
    ensures r == |s| || !IsSpace(s[r])
    decreases |s| - j
  {
    if j < |s| && IsSpace(s[j]) then SkipSpaces(s, j + 1) else j
  }

  /** The end of the run of word characters that starts at j (`\w+` is greedy). */
  function SkipWord(s: string, j: nat): (r: nat)
    requires j <= |s|
    ensures j <= r <= |s|
    ensures forall t :: j <= t < r ==> IsWordChar(s[t])
    ensures r == |s| || !IsWordChar(s[r])
    decreases |s| - j
  {
    if j < |s| && IsWordChar(s[j]) then SkipWord(s, j + 1) else j
  }

  /**
   * The pattern anchored at position i. Backtracking cannot help: a shorter
   * `\s+` leaves white space where `\w` must start, and a shorter `\w+`
   * leaves a word character where the final `\s` must stand.
   */
  function MatchAt(s: string, i: nat): Option<string>
    requires i <= |s|
  {
    if !KeywordAt(s, i) then None
    else
      var j := SkipSpaces(s, i + |Keyword|);
      if j == i + |Keyword| then None
      else
        var k := SkipWord(s, j);
        if k == j || k == |s| || !IsSpace(s[k]) then None else Some(s[j..k])
  }

  /** The regex engine's scan: try each start position from i on, left to right. */
  function FindFrom(s: string, i: nat): Option<string>
    requires i <= |s|
    decreases |s| - i
  {
    var m := MatchAt(s, i);
    if m.Some? || i == |s| then m else FindFrom(s, i + 1)
  }

  /** `$match[1]` when preg_match succeeds, None when it finds no match. */
  function ExtractTableName(ddl: string): Option<string> {
    FindFrom(ddl, 0)
  }

  /**
   * Reference definition: the keyword at i, white space in [i+12, j), the
   * captured word in [j, k), and a white-space character at k.
   */
  ghost predicate MatchSpan(s: string, i: int, j: int, k: int) {
    && 0 <= i
    && KeywordAt(s, i)
    && i + |Keyword| < j < k < |s|
    && (forall t :: i + |Keyword| <= t < j ==> IsSpace(s[t]))
    && (forall t :: j <= t < k ==> IsWordChar(s[t]))
    && IsSpace(s[k])
  }

  /** No match starts at a position in [lo, hi). */
  ghost predicate NoMatchIn(s: string, lo: int, hi: int) {
    forall i, j, k :: lo <= i < hi ==> !MatchSpan(s, i, j, k)
  }

  /** A match at i, with no match further left: the one preg_match reports. */
  ghost predicate Leftmost(s: string, i: int, j: int, k: int) {
    MatchSpan(s, i, j, k) && NoMatchIn(s, 0, i)
  }

  /** MatchAt finds a match at i exactly when one exists, and the match there is unique. */
  lemma MatchAtExact(s: string, i: nat)
    requires i <= |s|
    ensures MatchAt(s, i).Some? ==>
      exists j, k :: MatchSpan(s, i, j, k) && MatchAt(s, i).value == s[j..k]
    ensures forall j, k :: MatchSpan(s, i, j, k) ==> MatchAt(s, i) == Some(s[j..k])
  {
    if MatchAt(s, i).Some? {
      var j := SkipSpaces(s, i + |Keyword|);
      var k := SkipWord(s, j);
      assert MatchSpan(s, i, j, k);
    }
    forall j, k | MatchSpan(s, i, j, k) ensures MatchAt(s, i) == Some(s[j..k]) {
      var j' := SkipSpaces(s, i + |Keyword|);
      assert !IsSpace(s[j]);
      assert j' < |s| && !IsSpace(s[j']);
      assert j' == j;
      var k' := SkipWord(s, j);
      assert !IsWordChar(s[k]);
      assert k' < |s| && !IsWordChar(s[k']);
      assert k' == k;
    }
  }

  /**
   * Scanning from i, when no match starts before i, returns the name
   * captured by the leftmost match, and None when there is no match at all.
   */
  lemma {:induction false} FindFromLeftmost(s: string, i: nat)
    requires i <= |s|
    requires NoMatchIn(s, 0, i)
    ensures FindFrom(s, i).None? ==> forall i', j, k :: !MatchSpan(s, i', j, k)
    ensures FindFrom(s, i).Some? ==>
      exists i', j, k :: Leftmost(s, i', j, k) && FindFrom(s, i).value == s[j..k]
    decreases |s| - i
  {
    MatchAtExact(s, i);
    if MatchAt(s, i).Some? {
      var j, k :| MatchSpan(s, i, j, k) && MatchAt(s, i).value == s[j..k];
      assert Leftmost(s, i, j, k);
    } else {
      assert NoMatchIn(s, 0, i + 1);
      if i < |s| {
        FindFromLeftmost(s, i + 1);
      }
    }
  }

  /**
   * preg_match succeeds exactly when the statement holds a match somewhere,
   * and then yields the word of the leftmost match: a non-empty run of word
   * characters.
   */
  lemma ExtractTableNameSpec(ddl: string)
    ensures ExtractTableName(ddl).None? <==> forall i, j, k :: !MatchSpan(ddl, i, j, k)
    ensures ExtractTableName(ddl).Some? ==>
      exists i, j, k :: Leftmost(ddl, i, j, k) && ExtractTableName(ddl).value == ddl[j..k]
    ensures ExtractTableName(ddl).Some? ==>
      |ExtractTableName(ddl).value| > 0 && IsWordString(ExtractTableName(ddl).value)
  {
    FindFromLeftmost(ddl, 0);
    if ExtractTableName(ddl).Some? {
      var i, j, k :| Leftmost(ddl, i, j, k) && ExtractTableName(ddl).value == ddl[j..k];
      assert MatchSpan(ddl, i, j, k);
    }
  }
}
