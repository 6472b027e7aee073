/** The JavaScript string primitives the story parser relies on: `trim`,
    the `\s` and `\d` character classes, `indexOf`/`includes`, and the first
    two pieces of `split` with a string separator. Strings are `seq<char>`. */
module JsString {
  import opened Wrappers

  /** ECMAScript WhiteSpace and LineTerminator code points. This one set is
      both what `String.prototype.trim` removes and what the regular
      expression class `\s` matches: TAB, VT, FF, SPACE, NBSP, ZWNBSP, the
      other space separators (category Zs), LF, CR, LS and PS. */
  predicate IsWs(c: char) {
    || c == '\t' || c == '\n' || c == '\U{000B}' || c == '\U{000C}' || c == '\r'
    || c == ' ' || c == '\U{00A0}' || c == '\U{1680}'
    || ('\U{2000}' <= c <= '\U{200A}')
    || c == '\U{2028}' || c == '\U{2029}' || c == '\U{202F}' || c == '\U{205F}'
    || c == '\U{3000}' || c == '\U{FEFF}'
  }

  /** The class `\d` without the `u` flag: ASCII digits only. */
  predicate IsDigit(c: char) {
    '0' <= c <= '9'
  }

  predicate AllWs(s: string) {
    forall k :: 0 <= k < |s| ==> IsWs(s[k])
  }

  /** Neither end of `s` is whitespace: what `trim` always returns. */
  predicate IsTrimmed(s: string) {
    s == [] || (!IsWs(s[0]) && !IsWs(s[|s| - 1]))
  }

  /** The first index at or after `i` that is not whitespace (or `|s|`). */
  function SkipWs(s: string, i: nat): (j: nat)
    requires i <= |s|
    decreases |s| - i
    ensures i <= j <= |s|
    ensures forall k :: i <= k < j ==> IsWs(s[k])
    ensures j < |s| ==> !IsWs(s[j])
  {
    if i == |s| || !IsWs(s[i]) then i else SkipWs(s, i + 1)
  }

  /** The index right after the last character before `j` that is not
      whitespace (or 0). */
  function SkipWsBack(s: string, j: nat): (i: nat)
    requires j <= |s|
    decreases j
    ensures i <= j
    ensures forall k :: i <= k < j ==> IsWs(s[k])
    ensures 0 < i ==> !IsWs(s[i - 1])
  {
    if j == 0 || !IsWs(s[j - 1]) then j else SkipWsBack(s, j - 1)
  }

  /** `SkipWs` stops at the first non-whitespace index and nowhere else. */
  lemma {:induction false} SkipWsIs(s: string, i: nat, j: nat)
    requires i <= j <= |s|
    requires forall k :: i <= k < j ==> IsWs(s[k])
    requires j < |s| ==> !IsWs(s[j])
    decreases j - i
    ensures SkipWs(s, i) == j
  {
    if i < j {
      SkipWsIs(s, i + 1, j);
    }
  }

  /** `SkipWsBack` stops after the last non-whitespace index and nowhere else. */
  lemma {:induction false} SkipWsBackIs(s: string, i: nat, j: nat)
    requires i <= j <= |s|
    requires forall k :: i <= k < j ==> IsWs(s[k])
    requires 0 < i ==> !IsWs(s[i - 1])
    decreases j - i
    ensures SkipWsBack(s, j) == i
  {
    if i < j {
      SkipWsBackIs(s, i, j - 1);
    }
  }

  /** `String.prototype.trim`: the trimmed factor of `s` that starts at its
      first non-whitespace character, with only whitespace around it. */
  function Trim(s: string): (r: string)
    ensures IsTrimmed(r)
    ensures var lo := SkipWs(s, 0);
      && lo + |r| <= |s| && r == s[lo..lo + |r|]
      && (forall k :: 0 <= k < lo ==> IsWs(s[k]))
      && (forall k :: lo + |r| <= k < |s| ==> IsWs(s[k]))
  {
    var lo := SkipWs(s, 0);
    var hi := SkipWsBack(s, |s|);
    if hi <= lo then [] else s[lo..hi]
  }

  /** Removing whitespace from both ends of a trimmed word gives the word
      back; together with the contract of `Trim` this pins `Trim` down. */
  lemma TrimOfPadded(a: string, b: string, c: string)
    requires AllWs(a) && AllWs(c) && IsTrimmed(b)
    ensures Trim(a + b + c) == b
  {
    var s := a + b + c;
    if b == [] {
      assert AllWs(s);
      SkipWsIs(s, 0, |s|);
    } else {
      SkipWsIs(s, 0, |a|);
      SkipWsBackIs(s, |a| + |b|, |s|);
      assert s[|a|..|a| + |b|] == b;
    }
  }

  /** `pat` occurs in `s` at index `i`. */
  predicate MatchAt(s: string, pat: string, i: nat) {
    i + |pat| <= |s| && s[i..i + |pat|] == pat
  }

  /** The first occurrence of `pat` in `s` at or after `from`. */
  function FindFrom(s: string, pat: string, from: nat): (r: Option<nat>)
    decreases |s| - from
    ensures r.Some? ==> from <= r.value && MatchAt(s, pat, r.value)
    ensures forall j: nat :: from <= j && (r.None? || j < r.value) ==> !MatchAt(s, pat, j)
  {
    if from + |pat| > |s| then None
    else if s[from..from + |pat|] == pat then Some(from)
    else FindFrom(s, pat, from + 1)
  }

  /** `String.prototype.indexOf`, with `None` for -1. */
  function IndexOf(s: string, pat: string): Option<nat> {
    FindFrom(s, pat, 0)
  }

  /** `String.prototype.includes`. */
  predicate Contains(s: string, pat: string) {
    IndexOf(s, pat).Some?
  }

  /** `includes` holds exactly when some index carries an occurrence. */
  lemma ContainsIff(s: string, pat: string)
    ensures Contains(s, pat) <==> exists i: nat :: MatchAt(s, pat, i)
  {
  }

  /** Text only ever grows while streaming, and an occurrence stays put. */
  lemma ContainsExtend(s: string, t: string, pat: string)
    requires Contains(s, pat)
    ensures Contains(s + t, pat)
  {
    var i := IndexOf(s, pat).value;
    assert (s + t)[i..i + |pat|] == s[i..i + |pat|];
    assert MatchAt(s + t, pat, i);
  }

  /** `s.split(sep)[0]`: the text before the first occurrence of `sep`, or
      all of `s` when there is none. */
  function SplitFirst(s: string, sep: string): (r: string)
    ensures r <= s
    ensures forall j: nat :: j < |r| ==> !MatchAt(s, sep, j)
    ensures |r| < |s| ==> MatchAt(s, sep, |r|)
    ensures |r| == |s| ==> !Contains(s, sep) || sep == []
  {
    match IndexOf(s, sep)
    case Some(k) => s[..k]
    case None => s
  }

  /** The text after the first occurrence of `sep`; empty when there is
      none. */
  function AfterFirst(s: string, sep: string): string {
    match IndexOf(s, sep)
    case Some(k) => s[k + |sep|..]
    case None => []
  }

  /** `s.split(sep)[1] || ''`: the text between the first and the second
      occurrence of `sep` (or the end of `s`); empty when `sep` is absent. */
  function SplitSecond(s: string, sep: string): string
    requires |sep| > 0
  {
    SplitFirst(AfterFirst(s, sep), sep)
  }

  /** The piece `split` returns at index 1 starts right after the first
      separator and runs up to the next separator or the end of `s`, so it
      holds no separator itself; without a separator it is empty. */
  lemma SplitSecondSpec(s: string, sep: string)
    requires |sep| > 0
    ensures !Contains(s, sep) ==> SplitSecond(s, sep) == []
    ensures Contains(s, sep) ==> SplitSecond(s, sep) == SplitFirst(s[|SplitFirst(s, sep)| + |sep|..], sep)
    ensures Contains(s, sep) ==> SplitSecond(s, sep) <= s[|SplitFirst(s, sep)| + |sep|..]
    ensures !Contains(SplitSecond(s, sep), sep)
  {
    var rest := AfterFirst(s, sep);
    if Contains(s, sep) {
      AfterFirstIs(s, sep);
    } else {
      assert rest == [];
    }
    NoMatchInPrefix(rest, SplitFirst(rest, sep), sep);
  }

  /** With `sep` present, the text after it starts where the first piece
      and the separator end. */
  lemma AfterFirstIs(s: string, sep: string)
    requires Contains(s, sep)
    ensures |SplitFirst(s, sep)| + |sep| <= |s|
    ensures AfterFirst(s, sep) == s[|SplitFirst(s, sep)| + |sep|..]
  {
    var k := IndexOf(s, sep).value;
    FirstPieceLength(s, sep, k);
  }

  lemma FirstPieceLength(s: string, sep: string, k: nat)
    requires IndexOf(s, sep) == Some(k)
    ensures |SplitFirst(s, sep)| == k && k + |sep| <= |s|
  {
  }

  /** A prefix cut before any occurrence holds no occurrence. */
  lemma NoMatchInPrefix(s: string, p: string, sep: string)
    requires p <= s
    requires forall j: nat :: j < |p| ==> !MatchAt(s, sep, j)
    requires |sep| > 0
    ensures !Contains(p, sep)
  {
    if Contains(p, sep) {
      var i := IndexOf(p, sep).value;
      assert s[i..i + |sep|] == p[i..i + |sep|];
      assert MatchAt(s, sep, i);
    }
  }
}
