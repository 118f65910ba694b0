/** The two regular expressions the orchestrators use to find the `<title>`
    element of `index.html`, and `String.prototype.replace` with them (no `g`
    flag, so only the leftmost match is replaced).

    - `/<title>[^<]+<\/title>/` (React): the title text is one or more
      characters other than `<`.
    - `/<title>(\w+\s*)+<\/title>/` (Vue): the title text is one or more groups
      of word characters followed by optional white space; the group is
      capturing, so `$1` in the replacement refers to its last iteration.

    Neither title text can contain `<`, so at a given start there is at most one
    match, and it ends at the first non-text character after `<title>`. */
module TitlePattern {
  import opened JsText

  datatype Rule = AnyButLt | WordsAndSpaces

  const Open: string := "<title>"
  const Close: string := "</title>"

  /** `\w` without the `u` flag. */
  predicate IsWordChar(c: char) {
    ('a' <= c <= 'z') || ('A' <= c <= 'Z') || ('0' <= c <= '9') || c == '_'
  }

  /** `\s`: ECMAScript WhiteSpace and LineTerminator code points. */
  predicate IsSpaceChar(c: char) {
    c == '\t' || c == '\n' || c == '\U{000B}' || c == '\U{000C}' || c == '\r' || c == ' '
    || c == '\U{00A0}' || c == '\U{1680}' || ('\U{2000}' <= c <= '\U{200A}')
    || c == '\U{2028}' || c == '\U{2029}' || c == '\U{202F}' || c == '\U{205F}'
    || c == '\U{3000}' || c == '\U{FEFF}'
  }

  /** A character that may appear in the title text. */
  predicate InText(rule: Rule, c: char) {
    match rule
    case AnyButLt => c != '<'
    case WordsAndSpaces => IsWordChar(c) || IsSpaceChar(c)
  }

  /** A character that may start the title text. */
  predicate StartsText(rule: Rule, c: char) {
    match rule
    case AnyButLt => c != '<'
    case WordsAndSpaces => IsWordChar(c)
  }

  /** The language of the whole pattern, stated declaratively: `<title>`, a
      non-empty text whose first character may start it and whose every
      character may appear in it, then `</title>`. */
  predicate IsTitleElement(rule: Rule, t: string) {
    && |t| > |Open| + |Close|
    && t[..|Open|] == Open
    && t[|t| - |Close|..] == Close
    && StartsText(rule, t[|Open|])
    && forall k :: |Open| <= k < |t| - |Close| ==> InText(rule, t[k])
  }

  /** The end of the longest run of text characters starting at `j`. */
  function RunEnd(rule: Rule, s: string, j: nat): (r: nat)
    requires j <= |s|
    ensures j <= r <= |s|
    ensures forall k :: j <= k < r ==> InText(rule, s[k])
    ensures r < |s| ==> !InText(rule, s[r])
    decreases |s| - j
  {
    if j < |s| && InText(rule, s[j]) then RunEnd(rule, s, j + 1) else j
  }

  /** Where a match starting at `i` ends, if there is one. */
  function MatchEnd(rule: Rule, s: string, i: nat): (r: Option<nat>)
    requires i <= |s|
    ensures r.Some? ==> i < r.value <= |s| && IsTitleElement(rule, s[i..r.value])
  {
    var j := i + |Open|;
    if j < |s| && s[i..j] == Open && StartsText(rule, s[j]) then
      var k := RunEnd(rule, s, j);
      if k + |Close| <= |s| && s[k..k + |Close|] == Close then
        ElementFromText(rule, s, i, k + |Close|);
        Some(k + |Close|)
      else None
    else None
  }

  /** A title element read off `s` position by position. */
  lemma ElementFromText(rule: Rule, s: string, i: nat, e: nat)
    requires i + |Open| < e - |Close| && e <= |s|
    requires s[i..i + |Open|] == Open && s[e - |Close|..e] == Close
    requires StartsText(rule, s[i + |Open|])
    requires forall k :: i + |Open| <= k < e - |Close| ==> InText(rule, s[k])
    ensures IsTitleElement(rule, s[i..e])
  {
    var t := s[i..e];
    assert t[..|Open|] == Open;
    assert t[|t| - |Close|..] == Close;
    assert forall m :: |Open| <= m < |t| - |Close| ==> t[m] == s[i + m];
  }

  /** The characters of a title element `s[i..e]`, as positions of `s`. */
  lemma TextOfElement(rule: Rule, s: string, i: nat, e: nat)
    requires i <= e <= |s| && IsTitleElement(rule, s[i..e])
    ensures i + |Open| < e - |Close|
    ensures StartsText(rule, s[i + |Open|])
    ensures forall k :: i + |Open| <= k < e - |Close| ==> InText(rule, s[k])
  {
    var t := s[i..e];
    assert s[i + |Open|] == t[|Open|];
    forall k | i + |Open| <= k < e - |Close| ensures InText(rule, s[k]) {
      assert s[k] == t[k - i];
    }
  }

  /** Every match the pattern admits at `i` is the one `MatchEnd` finds. */
  lemma MatchEndComplete(rule: Rule, s: string, i: nat, e: nat)
    requires i <= e <= |s|
    requires IsTitleElement(rule, s[i..e])
    ensures MatchEnd(rule, s, i) == Some(e)
  {
    var t := s[i..e];
    var j := i + |Open|;
    var c := e - |Close|;
    TextOfElement(rule, s, i, e);
    assert s[i..j] == Open by {
      assert s[i..j] == t[..|Open|];
    }
    assert s[c..e] == Close by {
      assert s[c..e] == t[|t| - |Close|..];
    }
    assert RunEnd(rule, s, j) == c by {
      assert s[c] == s[c..e][0];
      RunEndAt(rule, s, j, c);
    }
    MatchEndAt(rule, s, i, c);
  }

  /** The match `MatchEnd` reports once its three checks pass at `i`. */
  lemma MatchEndAt(rule: Rule, s: string, i: nat, c: nat)
    requires i + |Open| < |s| && s[i..i + |Open|] == Open && StartsText(rule, s[i + |Open|])
    requires RunEnd(rule, s, i + |Open|) == c
    requires c + |Close| <= |s| && s[c..c + |Close|] == Close
    ensures MatchEnd(rule, s, i) == Some(c + |Close|)
  {
  }

  /** A run of text characters ended by a non-text character is the longest one. */
  lemma RunEndAt(rule: Rule, s: string, j: nat, c: nat)
    requires j <= c < |s|
    requires forall k :: j <= k < c ==> InText(rule, s[k])
    requires !InText(rule, s[c])
    ensures RunEnd(rule, s, j) == c
  {
  }

  /** The leftmost match at or after `from`, as a (start, end) pair. */
  function FindTitle(rule: Rule, s: string, from: nat): (r: Option<(nat, nat)>)
    requires from <= |s|
    ensures r.Some? ==> from <= r.value.0 <= |s| && MatchEnd(rule, s, r.value.0) == Some(r.value.1)
    ensures r.Some? ==> forall j :: from <= j < r.value.0 ==> MatchEnd(rule, s, j).None?
    ensures r.None? ==> forall j :: from <= j <= |s| ==> MatchEnd(rule, s, j).None?
    decreases |s| - from
  {
    match MatchEnd(rule, s, from)
    case Some(e) => Some((from, e))
    case None => if from == |s| then None else FindTitle(rule, s, from + 1)
  }

  /** `FindTitle` agrees with the declarative pattern: it reports a match iff
      some title element occurs, and then the leftmost one. */
  lemma FindTitleLeftmost(rule: Rule, s: string)
    ensures FindTitle(rule, s, 0).None? <==>
              forall i, e :: 0 <= i <= e <= |s| ==> !IsTitleElement(rule, s[i..e])
    ensures FindTitle(rule, s, 0).Some? ==>
              var (i, e) := FindTitle(rule, s, 0).value;
              && i < e <= |s|
              && IsTitleElement(rule, s[i..e])
              && forall j, f :: 0 <= j < i && j <= f <= |s| ==> !IsTitleElement(rule, s[j..f])
  {
    forall i, e | 0 <= i <= e <= |s| && IsTitleElement(rule, s[i..e])
      ensures MatchEnd(rule, s, i) == Some(e)
    {
      MatchEndComplete(rule, s, i, e);
    }
  }

  /** The last iteration of `(\w+\s*)` inside the title text `s[lo..hi]`:
      it starts at `g`, its word characters end at `m`, and its white space runs
      to `hi`; the character before `g`, if inside the text, is white space. */
  function LastGroup(s: string, lo: nat, hi: nat): (r: (nat, nat))
    requires lo <= hi <= |s|
    requires lo < hi && IsWordChar(s[lo])
    requires forall k :: lo <= k < hi ==> IsWordChar(s[k]) || IsSpaceChar(s[k])
    ensures lo <= r.0 < r.1 <= hi
    ensures r.0 == lo || !IsWordChar(s[r.0 - 1])
    ensures forall k :: r.0 <= k < r.1 ==> IsWordChar(s[k])
    ensures forall k :: r.1 <= k < hi ==> IsSpaceChar(s[k])
  {
    var m := SkipBack(s, lo, hi, false);
    assert m > lo;
    assert IsWordChar(s[m - 1]);
    (SkipBack(s, lo, m, true), m)
  }

  /** The smallest `k` such that `s[k..hi]` is all word characters (`word`)
      or all white space (`!word`). */
  function SkipBack(s: string, lo: nat, hi: nat, word: bool): (k: nat)
    requires lo <= hi <= |s|
    ensures lo <= k <= hi
    ensures forall m :: k <= m < hi ==> (if word then IsWordChar(s[m]) else IsSpaceChar(s[m]))
    ensures k > lo ==> !(if word then IsWordChar(s[k - 1]) else IsSpaceChar(s[k - 1]))
    decreases hi - lo
  {
    if hi > lo && (if word then IsWordChar(s[hi - 1]) else IsSpaceChar(s[hi - 1])) then
      SkipBack(s, lo, hi - 1, word)
    else hi
  }

  /** `c` is `m` word characters followed by white space only. */
  predicate WordsThenSpaces(c: string, m: int) {
    && 0 < m <= |c|
    && (forall k :: 0 <= k < m ==> IsWordChar(c[k]))
    && (forall k :: m <= k < |c| ==> IsSpaceChar(c[k]))
  }

  /** `w` is a suffix of the text `s[lo..hi]` made of one whole word (it
      starts the text or follows a non-word character) and the white space
      after it. */
  predicate IsLastWord(s: string, lo: int, hi: int, w: string) {
    && 0 <= lo <= hi <= |s| && |w| <= hi - lo
    && EndsWith(s[..hi], w)
    && (exists m | 0 < m <= |w| :: WordsThenSpaces(w, m))
    && (|w| == hi - lo || !IsWordChar(s[hi - |w| - 1]))
  }

  /** The last iteration of `(\w+\s*)` in the title text `s[lo..hi]`. */
  function LastWordCapture(s: string, lo: nat, hi: nat): (r: string)
    requires lo < hi <= |s| && IsWordChar(s[lo])
    requires forall k :: lo <= k < hi ==> IsWordChar(s[k]) || IsSpaceChar(s[k])
    ensures IsLastWord(s, lo, hi, r)
  {
    var (g, m) := LastGroup(s, lo, hi);
    GroupIsLastWord(s, lo, hi, g, m);
    s[g..hi]
  }

  /** The text from a group start `g` to `hi` is a suffix made of one whole
      word and the white space after it. */
  lemma GroupIsLastWord(s: string, lo: nat, hi: nat, g: nat, m: nat)
    requires lo <= g < m <= hi <= |s|
    requires g == lo || !IsWordChar(s[g - 1])
    requires forall k :: g <= k < m ==> IsWordChar(s[k])
    requires forall k :: m <= k < hi ==> IsSpaceChar(s[k])
    ensures IsLastWord(s, lo, hi, s[g..hi])
  {
    assert s[..hi][|s[..hi]| - (hi - g)..] == s[g..hi];
    assert WordsThenSpaces(s[g..hi], m - g);
  }

  /** The capture-group values of a match `s[i..e]`. */
  function Captures(rule: Rule, s: string, i: nat, e: nat): (r: seq<string>)
    requires i <= e <= |s|
    requires IsTitleElement(rule, s[i..e])
    ensures rule == AnyButLt ==> r == []
    ensures rule == WordsAndSpaces ==> |r| == 1 && IsLastWord(s, i + |Open|, e - |Close|, r[0])
  {
    match rule
    case AnyButLt => []
    case WordsAndSpaces =>
      TextOfElement(rule, s, i, e);
      var c := LastWordCapture(s, i + |Open|, e - |Close|);
      [c]
  }

  /** `s.replace(pattern, replacement)`. */
  function ReplaceTitle(rule: Rule, s: string, replacement: string): (r: string)
    ensures FindTitle(rule, s, 0).None? ==> r == s
    ensures FindTitle(rule, s, 0).Some? ==>
              var (i, e) := FindTitle(rule, s, 0).value;
              r == s[..i] + Substitute(replacement, s[i..e], s[..i], s[e..], Captures(rule, s, i, e)) + s[e..]
  {
    match FindTitle(rule, s, 0)
    case None => s
    case Some((i, e)) =>
      s[..i] + Substitute(replacement, s[i..e], s[..i], s[e..], Captures(rule, s, i, e)) + s[e..]
  }

  /** With a `$`-free replacement, the leftmost title element is replaced by it
      and everything else is kept; without a title element nothing changes. */
  lemma ReplaceTitleLiteral(rule: Rule, s: string, replacement: string)
    requires NoDollar(replacement)
    ensures FindTitle(rule, s, 0).None? ==> ReplaceTitle(rule, s, replacement) == s
    ensures FindTitle(rule, s, 0).Some? ==>
              var (i, e) := FindTitle(rule, s, 0).value;
              ReplaceTitle(rule, s, replacement) == s[..i] + replacement + s[e..]
  {
    match FindTitle(rule, s, 0)
    case None =>
    case Some((i, e)) =>
      SubstituteLiteral(replacement, s[i..e], s[..i], s[e..], Captures(rule, s, i, e));
  }
}
