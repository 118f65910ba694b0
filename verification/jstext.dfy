/** JavaScript string semantics the orchestrators rely on: JS truthiness of an
    optional string, `Array.prototype.indexOf`, `String.prototype.indexOf`, and
    `String.prototype.replace` with a string pattern, including the `$`-patterns
    that the replacement string may contain (GetSubstitution, section 22.1.3.19.1
    of ECMA-262). */
module JsText {

  datatype Option<+T> = None | Some(value: T)

  /** The outcome of a statement that may throw: a value, or the message of
      the exception thrown. */
  datatype Result<+T> = Ok(value: T) | Thrown(message: string)

  /** A JS value that is a string or `undefined`, read for its truthiness:
      `undefined` and `''` are falsy, every other string is truthy. */
  predicate Truthy(v: Option<string>) {
    v.Some? && v.value != ""
  }

  /** `xs.indexOf(x)`: the first index holding `x`, or -1. */
  function IndexOf<T(==)>(xs: seq<T>, x: T): (r: int)
    ensures -1 <= r < |xs|
    ensures r == -1 <==> x !in xs
    ensures 0 <= r ==> xs[r] == x && x !in xs[..r]
  {
    if |xs| == 0 then -1
    else if xs[0] == x then 0
    else
      var k := IndexOf(xs[1..], x);
      assert xs[1..][..if k < 0 then 0 else k] == xs[1..if k < 0 then 1 else k + 1];
      if k < 0 then -1 else k + 1
  }

  /** `xs[k]` for any integer `k`: `undefined` outside the array. */
  function Lookup<T>(xs: seq<T>, k: int): (r: Option<T>)
    ensures r.Some? <==> 0 <= k < |xs|
    ensures r.Some? ==> r.value == xs[k]
  {
    if 0 <= k < |xs| then Some(xs[k]) else None
  }

  predicate EndsWith(s: string, suffix: string) {
    |suffix| <= |s| && s[|s| - |suffix|..] == suffix
  }

  /** `pat` occurs in `s` at position `i`. */
  predicate OccursAt(s: string, pat: string, i: int) {
    0 <= i && i + |pat| <= |s| && s[i..i + |pat|] == pat
  }

  predicate Contains(s: string, pat: string) {
    exists i :: 0 <= i <= |s| && OccursAt(s, pat, i)
  }

  /** `s.indexOf(pat, from)`: the leftmost occurrence of `pat` at or after `from`. */
  function Find(s: string, pat: string, from: nat): (r: Option<nat>)
    requires from <= |s|
    ensures r.Some? ==> from <= r.value && OccursAt(s, pat, r.value)
    ensures r.Some? ==> forall j :: from <= j < r.value ==> !OccursAt(s, pat, j)
    ensures r.None? ==> forall j :: from <= j <= |s| ==> !OccursAt(s, pat, j)
    decreases |s| - from
  {
    if OccursAt(s, pat, from) then Some(from)
    else if from == |s| then None
    else Find(s, pat, from + 1)
  }

  predicate IsDigit(c: char) {
    '0' <= c <= '9'
  }

  function DigitValue(c: char): (r: nat)
    requires IsDigit(c)
    ensures r <= 9
  {
    (c as int) - ('0' as int)
  }

  /** The replacement text GetSubstitution builds from `template` for one match:
      `matched` is the matched text, `before`/`after` the text on either side of
      it and `captures` the values of the capture groups. `$$`, `$&`, `` $` ``,
      `$'`, `$n` and `$nn` are expanded; every other `$` stands for itself (with
      no named groups, `$<` is literal too). */
  function Substitute(template: string, matched: string, before: string, after: string,
                      captures: seq<string>): (r: string)
    decreases |template|
  {
    if |template| == 0 then ""
    else if template[0] != '$' || |template| == 1 then
      [template[0]] + Substitute(template[1..], matched, before, after, captures)
    else
      var c := template[1];
      var rest := template[2..];
      if c == '$' then "$" + Substitute(rest, matched, before, after, captures)
      else if c == '&' then matched + Substitute(rest, matched, before, after, captures)
      else if c == '`' then before + Substitute(rest, matched, before, after, captures)
      else if c == '\'' then after + Substitute(rest, matched, before, after, captures)
      else if IsDigit(c) then
        var twoDigits := |template| >= 3 && IsDigit(template[2]);
        var index2 := if twoDigits then 10 * DigitValue(c) + DigitValue(template[2]) else 0;
        // a two-digit reference beyond the group count falls back to one digit
        var count := if twoDigits && index2 <= |captures| then 2 else 1;
        var index := if count == 2 then index2 else DigitValue(c);
        var tail := template[1 + count..];
        if 1 <= index <= |captures| then
          captures[index - 1] + Substitute(tail, matched, before, after, captures)
        else
          template[..1 + count] + Substitute(tail, matched, before, after, captures)
      else "$" + Substitute(template[1..], matched, before, after, captures)
  }

  predicate NoDollar(s: string) {
    forall k :: 0 <= k < |s| ==> s[k] != '$'
  }

  /** A replacement string without `$` is inserted literally. */
  lemma {:induction false} SubstituteLiteral(template: string, matched: string, before: string,
                                             after: string, captures: seq<string>)
    requires NoDollar(template)
    ensures Substitute(template, matched, before, after, captures) == template
    decreases |template|
  {
    if |template| > 0 {
      assert template[0] != '$';
      assert NoDollar(template[1..]) by {
        forall k | 0 <= k < |template[1..]| ensures template[1..][k] != '$' {
          assert template[1..][k] == template[k + 1];
        }
      }
      SubstituteLiteral(template[1..], matched, before, after, captures);
      assert template == [template[0]] + template[1..];
    }
  }

  /** `s.replace(pat, replacement)` with a string pattern: only the first
      occurrence is replaced, and the replacement goes through GetSubstitution
      with no capture groups. */
  function ReplaceFirst(s: string, pat: string, replacement: string): (r: string)
    ensures Find(s, pat, 0).None? ==> r == s
    ensures Find(s, pat, 0).Some? ==>
              var i := Find(s, pat, 0).value;
              r == s[..i] + Substitute(replacement, pat, s[..i], s[i + |pat|..], []) + s[i + |pat|..]
  {
    match Find(s, pat, 0)
    case None => s
    case Some(i) =>
      s[..i] + Substitute(replacement, pat, s[..i], s[i + |pat|..], []) + s[i + |pat|..]
  }

  /** A `$`-free prefix of a replacement is copied as it is, and the rest is
      expanded on its own. */
  lemma {:induction false} SubstitutePrefix(a: string, b: string, matched: string, before: string,
                                            after: string, captures: seq<string>)
    requires NoDollar(a)
    ensures Substitute(a + b, matched, before, after, captures)
            == a + Substitute(b, matched, before, after, captures)
    decreases |a|
  {
    if |a| > 0 {
      assert NoDollar(a[1..]) by {
        forall k | 0 <= k < |a[1..]| ensures a[1..][k] != '$' {
          assert a[1..][k] == a[k + 1];
        }
      }
      SubstitutePrefix(a[1..], b, matched, before, after, captures);
      assert (a + b)[0] == a[0] && (a + b)[1..] == a[1..] + b;
      assert a == [a[0]] + a[1..];
    } else {
      assert a + b == b;
    }
  }

  /** What the escape `$`-patterns of a replacement do, each followed by
      `$`-free text `t`: `$$` is one `$`, `$&` the matched text, and `` $` ``
      and `$'` the text before and after the match. */
  lemma SubstituteEscapes(t: string, matched: string, before: string, after: string, captures: seq<string>)
    requires NoDollar(t)
    ensures Substitute("$$" + t, matched, before, after, captures) == "$" + t
    ensures Substitute("$&" + t, matched, before, after, captures) == matched + t
    ensures Substitute("$`" + t, matched, before, after, captures) == before + t
    ensures Substitute("$'" + t, matched, before, after, captures) == after + t
  {
    SubstituteLiteral(t, matched, before, after, captures);
    assert Substitute("$$" + t, matched, before, after, captures) == "$" + t by {
      assert ("$$" + t)[..2] == "$$" && ("$$" + t)[2..] == t;
    }
    assert Substitute("$&" + t, matched, before, after, captures) == matched + t by {
      assert ("$&" + t)[..2] == "$&" && ("$&" + t)[2..] == t;
    }
    assert Substitute("$`" + t, matched, before, after, captures) == before + t by {
      assert ("$`" + t)[..2] == "$`" && ("$`" + t)[2..] == t;
    }
    assert Substitute("$'" + t, matched, before, after, captures) == after + t by {
      assert ("$'" + t)[..2] == "$'" && ("$'" + t)[2..] == t;
    }
  }

  /** A group reference `$1` in a replacement, followed by `$`-free text `t`
      that does not start with a digit: in range it is the first capture,
      out of range it stands for itself. */
  lemma SubstituteGroup(t: string, matched: string, before: string, after: string, captures: seq<string>)
    requires NoDollar(t) && (|t| == 0 || !IsDigit(t[0]))
    ensures |captures| >= 1 ==> Substitute("$1" + t, matched, before, after, captures) == captures[0] + t
    ensures |captures| == 0 ==> Substitute("$1" + t, matched, before, after, captures) == "$1" + t
  {
    SubstituteLiteral(t, matched, before, after, captures);
    assert ("$1" + t)[..2] == "$1" && ("$1" + t)[2..] == t;
  }

  /** A two-digit reference `$10` beyond a single capture group falls back
      to `$1` followed by the digit `0`. */
  lemma SubstituteTwoDigitFallback(t: string, matched: string, before: string, after: string,
                                   captures: seq<string>)
    requires NoDollar(t) && |captures| == 1
    ensures Substitute("$10" + t, matched, before, after, captures) == captures[0] + "0" + t
  {
    assert NoDollar("0" + t) by {
      forall k | 0 <= k < |"0" + t| ensures ("0" + t)[k] != '$' {
        if k > 0 { assert ("0" + t)[k] == t[k - 1]; }
      }
    }
    SubstituteLiteral("0" + t, matched, before, after, captures);
    assert ("$10" + t)[2] == '0' && ("$10" + t)[2..] == "0" + t;
  }

  /** `Find` from the start returns exactly the leftmost occurrence. */
  lemma FindIsLeftmost(s: string, pat: string, i: nat)
    requires OccursAt(s, pat, i)
    requires forall j :: 0 <= j < i ==> !OccursAt(s, pat, j)
    ensures Find(s, pat, 0) == Some(i)
  {
  }

  /** With a `$`-free replacement and the leftmost occurrence at `b`,
      `replace` splices the replacement in at `b`. */
  lemma ReplaceFirstAt(s: string, pat: string, replacement: string, b: nat)
    requires NoDollar(replacement)
    requires OccursAt(s, pat, b) && forall j :: 0 <= j < b ==> !OccursAt(s, pat, j)
    ensures ReplaceFirst(s, pat, replacement) == s[..b] + replacement + s[b + |pat|..]
  {
    FindIsLeftmost(s, pat, b);
    ReplaceFirstLiteral(s, pat, replacement);
  }

  /** With a `$`-free replacement, `replace` is a splice at the leftmost
      occurrence and the identity when there is none. */
  lemma ReplaceFirstLiteral(s: string, pat: string, replacement: string)
    requires NoDollar(replacement)
    ensures Find(s, pat, 0).None? ==> ReplaceFirst(s, pat, replacement) == s
    ensures Find(s, pat, 0).Some? ==>
              var i := Find(s, pat, 0).value;
              ReplaceFirst(s, pat, replacement) == s[..i] + replacement + s[i + |pat|..]
  {
    match Find(s, pat, 0)
    case None =>
    case Some(i) =>
      SubstituteLiteral(replacement, pat, s[..i], s[i + |pat|..], []);
  }
}
