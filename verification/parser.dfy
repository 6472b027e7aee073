/** `parseResponse` (script.js): turns the raw text of a model reply into a
    story string and a list of choices, following the reply format
    `STORY: <text> CHOICES: 1) <a> 2) <b> 3) <c> 4) <d>`. */
module StoryParser {
  import opened Wrappers
  import opened JsString

  /** The separator between the story and the choices. */
  const Marker: string := "CHOICES:"

  /** The label a reply may start with, matched without regard to case. */
  const Label: string := "STORY:"

  /** The result of `parseResponse`: `[story, choices]`. */
  datatype Parsed = Parsed(story: string, choices: seq<string>)

  predicate NoMarker(s: string) {
    !Contains(s, Marker)
  }

  /** Upper-case mapping of the `i` regular-expression flag without `u`:
      only ASCII letters change case for the letters of the label. */
  function AsciiUpper(c: char): char {
    if 'a' <= c <= 'z' then (c as int - 32) as char else c
  }

  /** `s` starts with `STORY:` in any mix of letter case. */
  predicate HasLabel(s: string) {
    |s| >= |Label| && forall i :: 0 <= i < |Label| ==> AsciiUpper(s[i]) == Label[i]
  }

  /** `s.replace(/^STORY:\s*\/i, '')`: drops a label at index 0 and the
      whitespace right after it; anywhere else the label stays. */
  function StripStoryLabel(s: string): (r: string)
    ensures |r| <= |s| && r == s[|s| - |r|..]
    ensures HasLabel(s) ==> |Label| <= |s| - |r| && (forall k :: |Label| <= k < |s| - |r| ==> IsWs(s[k])) && (r == [] || !IsWs(r[0]))
    ensures !HasLabel(s) ==> r == s
  {
    if HasLabel(s) then s[SkipWs(s, |Label|)..] else s
  }

  /** A digit followed by `)` starts at index `p`: a match of `/\d\)/`. */
  predicate IsMarkAt(s: string, p: nat) {
    p + 1 < |s| && IsDigit(s[p]) && s[p + 1] == ')'
  }

  /** `s` holds no choice number such as `3)`. */
  predicate NoMark(s: string) {
    forall p: nat :: p < |s| ==> !IsMarkAt(s, p)
  }

  /** `s.split(/\d\)/)`: the pieces between the choice numbers, in order.
      A match is two characters long and its second one is not a digit, so
      matches never overlap and a left-to-right scan splits at every one. */
  function Fragments(s: string): (r: seq<string>)
    decreases |s|
    ensures |r| >= 1 && r[0] <= s
  {
    if |s| < 2 then [s]
    else if IsDigit(s[0]) && s[1] == ')' then [[]] + Fragments(s[2..])
    else
      var rest := Fragments(s[1..]);
      [[s[0]] + rest[0]] + rest[1..]
  }

  /** `.filter(c => c.trim()).map(c => c.trim())`: the non-blank pieces,
      trimmed, in their original order. */
  function Cleaned(pieces: seq<string>): (r: seq<string>)
    ensures |r| <= |pieces|
    ensures forall k :: 0 <= k < |r| ==> r[k] != [] && IsTrimmed(r[k])
  {
    if pieces == [] then []
    else
      var t := Trim(pieces[0]);
      (if t == [] then [] else [t]) + Cleaned(pieces[1..])
  }

  /** Cleaning works piece by piece: the result for a concatenation is the
      concatenation of the results. */
  lemma {:induction false} CleanedAppend(p: seq<string>, q: seq<string>)
    decreases |p|
    ensures Cleaned(p + q) == Cleaned(p) + Cleaned(q)
  {
    if p == [] {
      assert [] + q == q;
    } else {
      var x, t := p[0], p[1..];
      var one := if Trim(x) == [] then [] else [Trim(x)];
      ConsSplit(p, q);
      CleanedCons(x, t + q);
      CleanedCons(x, t);
      CleanedAppend(t, q);
      AppendAssoc(one, Cleaned(t), Cleaned(q));
    }
  }

  lemma ConsSplit<T>(p: seq<T>, q: seq<T>)
    requires p != []
    ensures p == [p[0]] + p[1..] && p + q == [p[0]] + (p[1..] + q)
  {
  }

  lemma AppendAssoc<T>(a: seq<T>, b: seq<T>, c: seq<T>)
    ensures a + (b + c) == (a + b) + c
  {
  }

  /** The first piece is dropped when blank and kept trimmed otherwise. */
  lemma CleanedCons(x: string, rest: seq<string>)
    ensures Cleaned([x] + rest) == (if Trim(x) == [] then [] else [Trim(x)]) + Cleaned(rest)
  {
    assert ([x] + rest)[0] == x;
    assert ([x] + rest)[1..] == rest;
  }

  /** A single piece is dropped when blank and kept trimmed otherwise. With
      `CleanedAppend` this pins `Cleaned` down on every list. */
  lemma CleanedOne(x: string)
    ensures Cleaned([x]) == if Trim(x) == [] then [] else [Trim(x)]
  {
    assert [x][1..] == [];
  }

  /** The decimal digit character for `n < 10`. */
  function DigitChar(n: nat): (c: char)
    requires n < 10
    ensures IsDigit(c)
  {
    ('0' as int + n) as char
  }

  /** The template `Choice ${n}` for a one-digit `n`. */
  function Placeholder(n: nat): string
    requires n < 10
  {
    "Choice " + [DigitChar(n)]
  }

  /** A usable choice label: non-blank, trimmed, free of choice numbers. */
  predicate WellFormedChoice(c: string) {
    c != [] && IsTrimmed(c) && NoMark(c)
  }

  lemma PlaceholderWellFormed(n: nat)
    requires n < 10
    ensures WellFormedChoice(Placeholder(n))
  {
    var s := Placeholder(n);
    forall p: nat ensures !IsMarkAt(s, p) {
      if p + 1 < |s| {
        assert p < 7;
        assert !IsDigit(s[p]);
      }
    }
  }

  /** The `while (choices.length < 4) choices.push(`Choice ${choices.length + 1}`)`
      loop: the kept choices in place, then numbered placeholders. */
  function Pad(cs: seq<string>): (r: seq<string>)
    requires |cs| <= 4
    decreases 4 - |cs|
    ensures |r| == 4 && r[..|cs|] == cs
    ensures forall i :: |cs| <= i < 4 ==> r[i] == Placeholder(i + 1)
  {
    if |cs| == 4 then cs
    else
      var r := Pad(cs + [Placeholder(|cs| + 1)]);
      assert r[..|cs|] == r[..|cs| + 1][..|cs|];
      r
  }

  /** `.slice(0, 4)`. */
  function TakeFour(cs: seq<string>): (r: seq<string>)
    ensures |r| <= 4 && r <= cs
    ensures |r| == if |cs| < 4 then |cs| else 4
  {
    if |cs| <= 4 then cs else cs[..4]
  }

  /** The choice list built from the text that follows `CHOICES:`: its first
      four non-blank pieces, trimmed and in order, padded with placeholders. */
  function ChoiceList(text: string): (r: seq<string>)
    ensures |r| == 4
    ensures var found := Cleaned(Fragments(text));
      && (forall i :: 0 <= i < 4 && i < |found| ==> r[i] == found[i])
      && (forall i :: |found| <= i < 4 ==> r[i] == Placeholder(i + 1))
  {
    Pad(TakeFour(Cleaned(Fragments(text))))
  }

  /** The story taken from a reply: the text before the first `CHOICES:`,
      without a leading label, trimmed. */
  function StoryText(response: string): string {
    Trim(StripStoryLabel(SplitFirst(response, Marker)))
  }

  /** `parseResponse`. The `catch` branch of the source is unreachable for a
      string argument, so the function is total. */
  function ParseResponse(response: string): (p: Parsed)
    ensures response == [] ==> p == Parsed([], [])
    ensures response != [] ==> |p.choices| == 4
    ensures forall i :: 0 <= i < |p.choices| ==> WellFormedChoice(p.choices[i])
    ensures IsTrimmed(p.story) && NoMarker(p.story)
  {
    if response == [] then Parsed([], [])
    else
      var p := Parsed(StoryText(response), ChoiceList(SplitSecond(response, Marker)));
      ChoicesWellFormed(SplitSecond(response, Marker));
      StoryIsFactor(response);
      p
  }

  // ---------------------------------------------------------------------
  // Choice numbers

  /** A factor of a text without choice numbers has none either. */
  lemma NoMarkFactor(s: string, i: nat, j: nat)
    requires NoMark(s) && i <= j <= |s|
    ensures NoMark(s[i..j])
  {
    forall p: nat | IsMarkAt(s[i..j], p) ensures false {
      assert IsMarkAt(s, i + p);
    }
  }

  /** No piece of the split holds a choice number. */
  lemma {:induction false} FragmentsNoMark(s: string)
    decreases |s|
    ensures forall k :: 0 <= k < |Fragments(s)| ==> NoMark(Fragments(s)[k])
  {
    if |s| < 2 {
      forall p: nat | p < |s| ensures !IsMarkAt(s, p) {
      }
    } else if IsDigit(s[0]) && s[1] == ')' {
      FragmentsNoMark(s[2..]);
    } else {
      FragmentsNoMark(s[1..]);
      var rest := Fragments(s[1..]);
      var h := [s[0]] + rest[0];
      forall p: nat | p < |h| ensures !IsMarkAt(h, p) {
        if p == 0 {
          if |h| > 1 {
            assert h[1] == s[1];
          }
        } else {
          assert !IsMarkAt(rest[0], p - 1);
        }
      }
    }
  }

  /** A text without choice numbers is a single piece. */
  lemma {:induction false} FragmentsOfPlain(s: string)
    requires NoMark(s)
    decreases |s|
    ensures Fragments(s) == [s]
  {
    if |s| >= 2 {
      assert !IsMarkAt(s, 0);
      NoMarkFactor(s, 1, |s|);
      assert s[1..|s|] == s[1..];
      FragmentsOfPlain(s[1..]);
      assert [s[0]] + s[1..] == s;
    }
  }

  /** Splitting at a choice number: the pieces on its left, then the pieces
      on its right. With `FragmentsOfPlain` this determines `Fragments`. */
  lemma {:induction false} FragmentsAtMark(a: string, d: char, b: string)
    requires IsDigit(d)
    decreases |a|
    ensures Fragments(a + [d, ')'] + b) == Fragments(a) + Fragments(b)
  {
    var s := a + [d, ')'] + b;
    if a == [] {
      assert s == [d, ')'] + b;
      FragmentsMarkStep(s);
      assert s[2..] == b;
    } else if |a| >= 2 && IsDigit(a[0]) && a[1] == ')' {
      assert s[2..] == a[2..] + [d, ')'] + b;
      FragmentsAtMark(a[2..], d, b);
      FragmentsMarkStep(s);
      FragmentsMarkStep(a);
    } else {
      assert s[1..] == a[1..] + [d, ')'] + b;
      FragmentsAtMark(a[1..], d, b);
      FragmentsJoinFirst(a, d, b);
    }
  }

  /** The step of `FragmentsAtMark` when `a` starts with an ordinary
      character, given the claim for the rest of `a`. */
  lemma FragmentsJoinFirst(a: string, d: char, b: string)
    requires IsDigit(d) && a != [] && !(|a| >= 2 && IsDigit(a[0]) && a[1] == ')')
    requires Fragments(a[1..] + [d, ')'] + b) == Fragments(a[1..]) + Fragments(b)
    ensures Fragments(a + [d, ')'] + b) == Fragments(a) + Fragments(b)
  {
    var s := a + [d, ')'] + b;
    assert s[0] == a[0] && s[1..] == a[1..] + [d, ')'] + b;
    FragmentsStep(s);
    FragmentsStep(a);
    ConsFirst(a[0], Fragments(a[1..]), Fragments(b));
  }

  /** Gluing a character onto the first of a list of pieces commutes with
      appending more pieces. */
  lemma ConsFirst(x: char, r: seq<string>, t: seq<string>)
    requires |r| >= 1
    ensures [[x] + (r + t)[0]] + (r + t)[1..] == ([[x] + r[0]] + r[1..]) + t
  {
    assert (r + t)[0] == r[0];
    assert (r + t)[1..] == r[1..] + t;
  }

  /** At a choice number an empty piece closes and the rest is split on. */
  lemma FragmentsMarkStep(s: string)
    requires |s| >= 2 && IsDigit(s[0]) && s[1] == ')'
    ensures Fragments(s) == [[]] + Fragments(s[2..])
  {
  }

  /** Away from a choice number the first character joins the first piece. */
  lemma FragmentsStep(s: string)
    requires |s| >= 1 && !(|s| >= 2 && IsDigit(s[0]) && s[1] == ')')
    ensures Fragments(s) == [[s[0]] + Fragments(s[1..])[0]] + Fragments(s[1..])[1..]
  {
    if |s| == 1 {
      assert s[1..] == [] && [s[0]] + [] == s;
    }
  }

  lemma ChoicesWellFormed(text: string)
    ensures forall i :: 0 <= i < 4 ==> WellFormedChoice(ChoiceList(text)[i])
  {
    var pieces := Fragments(text);
    FragmentsNoMark(text);
    CleanedNoMark(pieces);
    var r := ChoiceList(text);
    forall i | 0 <= i < 4 ensures WellFormedChoice(r[i]) {
      if i >= |Cleaned(pieces)| {
        PlaceholderWellFormed(i + 1);
      }
    }
  }

  lemma {:induction false} CleanedNoMark(pieces: seq<string>)
    requires forall k :: 0 <= k < |pieces| ==> NoMark(pieces[k])
    ensures forall k :: 0 <= k < |Cleaned(pieces)| ==> NoMark(Cleaned(pieces)[k])
  {
    if pieces != [] {
      CleanedNoMark(pieces[1..]);
      TrimNoMark(pieces[0]);
    }
  }

  lemma TrimNoMark(s: string)
    requires NoMark(s)
    ensures NoMark(Trim(s))
  {
    var lo, t := SkipWs(s, 0), Trim(s);
    assert t == s[lo..lo + |t|];
    NoMarkFactor(s, lo, lo + |t|);
  }

  /** Trimming keeps a text free of the marker. */
  lemma TrimNoMarker(s: string)
    requires NoMarker(s)
    ensures NoMarker(Trim(s))
  {
    var lo, t := SkipWs(s, 0), Trim(s);
    assert t == s[lo..lo + |t|];
    NoMarkerFactor(s, lo, lo + |t|);
  }

  // ---------------------------------------------------------------------
  // The marker

  /** `CHOICES:` overlaps no earlier text: an occurrence cannot start inside
      `a` and end inside the marker that follows it. */
  lemma NoStraddle(a: string, rest: string, j: nat)
    requires j < |a| < j + |Marker|
    ensures !MatchAt(a + Marker + rest, Marker, j)
  {
    var s := a + Marker + rest;
    var t := |a| - j;
    if j + |Marker| <= |s| {
      var w := s[j..j + |Marker|];
      assert w[t] == s[|a|] == 'C';
      if t == 4 {
        assert w[5] == s[|a| + 1] == 'H';
        assert w[5] != Marker[5];
      } else {
        assert w[t] != Marker[t];
      }
    }
  }

  /** A text with no occurrence at any index holds no marker. */
  lemma NoMarkerIfNoMatch(s: string)
    requires forall j: nat :: j < |s| ==> !MatchAt(s, Marker, j)
    ensures NoMarker(s)
  {
  }

  /** When `a` holds no marker, the first marker of `a + CHOICES: + rest`
      is the one right after `a`. */
  lemma FirstMarker(a: string, rest: string)
    requires NoMarker(a)
    ensures IndexOf(a + Marker + rest, Marker) == Some(|a|)
  {
    var s := a + Marker + rest;
    assert s[|a|..|a| + |Marker|] == Marker;
    assert MatchAt(s, Marker, |a|);
    forall j: nat | j < |a| ensures !MatchAt(s, Marker, j) {
      if j + |Marker| <= |a| {
        assert s[j..j + |Marker|] == a[j..j + |Marker|];
        assert !MatchAt(a, Marker, j);
      } else {
        NoStraddle(a, rest, j);
      }
    }
  }

  lemma SplitAtFirstMarker(a: string, rest: string)
    requires NoMarker(a)
    ensures SplitFirst(a + Marker + rest, Marker) == a
    ensures SplitSecond(a + Marker + rest, Marker) == SplitFirst(rest, Marker)
  {
    FirstMarker(a, rest);
    var s := a + Marker + rest;
    assert s[..|a|] == a;
    assert s[|a| + |Marker|..] == rest;
  }

  /** The piece before a marker-free text ends is all of it. */
  lemma SplitFirstPlain(s: string)
    requires NoMarker(s)
    ensures SplitFirst(s, Marker) == s
  {
  }

  lemma SliceOfSlice(s: string, i: nat, j: nat, a: nat, b: nat)
    requires i <= j <= |s| && a <= b <= j - i
    ensures s[i..j][a..b] == s[i + a..i + b]
  {
    forall x | 0 <= x < b - a ensures s[i..j][a..b][x] == s[i + a..i + b][x] {
    }
  }

  /** A factor of a marker-free text is marker-free. */
  lemma NoMarkerFactor(s: string, i: nat, j: nat)
    requires NoMarker(s) && i <= j <= |s|
    ensures NoMarker(s[i..j])
  {
    var f := s[i..j];
    forall k: nat | k < |f| ensures !MatchAt(f, Marker, k) {
      if k + |Marker| <= |f| {
        SliceOfSlice(s, i, j, k, k + |Marker|);
        assert !MatchAt(s, Marker, i + k);
      }
    }
    NoMarkerIfNoMatch(f);
  }

  /** A character outside the marker glues two marker-free texts into a
      marker-free text. */
  lemma NoMarkerJoin(x: string, c: char, y: string)
    requires NoMarker(x) && NoMarker(y) && c !in Marker
    ensures NoMarker(x + [c] + y)
  {
    var s := x + [c] + y;
    forall j: nat | j < |s| ensures !MatchAt(s, Marker, j) {
      if j + |Marker| <= |s| {
        if j + |Marker| <= |x| {
          assert s[j..j + |Marker|] == x[j..j + |Marker|];
          assert !MatchAt(x, Marker, j);
        } else if j > |x| {
          assert s[j..j + |Marker|] == y[j - |x| - 1..j - |x| - 1 + |Marker|];
          assert !MatchAt(y, Marker, j - |x| - 1);
        } else {
          assert s[j..j + |Marker|][|x| - j] == c;
        }
      }
    }
    NoMarkerIfNoMatch(s);
  }

  // ---------------------------------------------------------------------
  // Properties of parseResponse

  /** `story` sits at index `i` of the text `pre` before the marker, with
      only whitespace after it and, before it, only whitespace when `pre`
      does not start with the label, or the label followed by whitespace
      when it does. */
  predicate StoryAt(pre: string, story: string, i: nat) {
    && i + |story| <= |pre| && pre[i..i + |story|] == story
    && (forall k :: i + |story| <= k < |pre| ==> IsWs(pre[k]))
    && ((!HasLabel(pre) && forall k :: 0 <= k < i ==> IsWs(pre[k]))
        || (HasLabel(pre) && |Label| <= i && forall k :: |Label| <= k < i ==> IsWs(pre[k])))
  }

  /** The story is the trimmed text before the first `CHOICES:`; the label
      and the whitespace after it are dropped only when the reply starts
      with the label. */
  lemma StoryIsFactor(response: string)
    ensures IsTrimmed(StoryText(response)) && NoMarker(StoryText(response))
    ensures exists i: nat :: StoryAt(SplitFirst(response, Marker), StoryText(response), i)
  {
    var pre := SplitFirst(response, Marker);
    var story := StoryText(response);
    assert story == Trim(StripStoryLabel(pre));
    NoMatchInPrefix(response, pre, Marker);
    var i := StoryPosition(pre);
    assert StoryAt(pre, story, i);
    StoryNoMarker(pre, story, i);
  }

  lemma StoryNoMarker(pre: string, story: string, i: nat)
    requires NoMarker(pre) && StoryAt(pre, story, i)
    ensures NoMarker(story)
  {
    NoMarkerFactor(pre, i, i + |story|);
  }

  /** Where the story of a marker-free prefix starts. */
  lemma StoryPosition(pre: string) returns (i: nat)
    ensures StoryAt(pre, Trim(StripStoryLabel(pre)), i)
  {
    var t := StripStoryLabel(pre);
    var o := |pre| - |t|;
    assert t == pre[o..];
    TrimInSuffix(pre, o, t, SkipWs(t, 0), Trim(t));
    i := o + SkipWs(t, 0);
    if HasLabel(pre) {
      assert SkipWs(t, 0) == 0;
    }
  }

  /** Where the trimmed form of a suffix sits in the whole text. */
  lemma TrimInSuffix(pre: string, o: nat, t: string, lo: nat, story: string)
    requires o <= |pre| && t == pre[o..] && lo == SkipWs(t, 0) && story == Trim(t)
    ensures o + lo + |story| <= |pre| && pre[o + lo..o + lo + |story|] == story
    ensures forall k :: o + lo + |story| <= k < |pre| ==> IsWs(pre[k])
    ensures forall k :: o <= k < o + lo ==> IsWs(pre[k])
  {
    assert lo + |story| <= |t| && story == t[lo..lo + |story|];
    SliceOfSlice(pre, o, |pre|, lo, lo + |story|);
    assert pre[o..|pre|] == t;
    WsInSuffix(pre, o, t, lo + |story|, |t|);
    WsInSuffix(pre, o, t, 0, lo);
  }

  /** Whitespace in a suffix is whitespace in the whole text. */
  lemma WsInSuffix(pre: string, o: nat, t: string, a: nat, b: nat)
    requires o <= |pre| && t == pre[o..] && a <= b <= |t|
    requires forall k :: a <= k < b ==> IsWs(t[k])
    ensures forall k :: o + a <= k < o + b ==> IsWs(pre[k])
  {
    forall k | o + a <= k < o + b ensures IsWs(pre[k]) {
      assert pre[k] == t[k - o];
    }
  }

  /** Choices come only from the text between the first and the second
      `CHOICES:`; the story only from the text before the first. Whatever
      follows a second marker is ignored. */
  lemma ParseOfPieces(a: string, b: string, c: string)
    requires NoMarker(a) && NoMarker(b)
    ensures ParseResponse(a + Marker + b) == Parsed(StoryText(a), ChoiceList(b))
    ensures ParseResponse(a + Marker + b + Marker + c) == Parsed(StoryText(a), ChoiceList(b))
  {
    ParseOfTwo(a, b);
    ParseOfThree(a, b, c);
  }

  lemma ParseOfTwo(a: string, b: string)
    requires NoMarker(a) && NoMarker(b)
    ensures ParseResponse(a + Marker + b) == Parsed(StoryText(a), ChoiceList(b))
  {
    PiecesOfReply(a, b);
    SplitFirstPlain(b);
  }

  lemma ParseOfThree(a: string, b: string, c: string)
    requires NoMarker(a) && NoMarker(b)
    ensures ParseResponse(a + Marker + b + Marker + c) == Parsed(StoryText(a), ChoiceList(b))
  {
    var rest := b + Marker + c;
    assert a + Marker + b + Marker + c == a + Marker + rest;
    PiecesOfReply(a, rest);
    SplitAtFirstMarker(b, c);
  }

  lemma PiecesOfReply(a: string, rest: string)
    requires NoMarker(a)
    ensures ParseResponse(a + Marker + rest) == Parsed(StoryText(a), ChoiceList(SplitFirst(rest, Marker)))
  {
    var s := a + Marker + rest;
    SplitFirstPlain(a);
    SplitAtFirstMarker(a, rest);
    assert SplitFirst(s, Marker) == a;
    assert StoryText(s) == StoryText(a);
    assert SplitSecond(s, Marker) == SplitFirst(rest, Marker);
  }

  /** Without a marker every choice is a placeholder. */
  lemma ParseWithoutMarker(response: string)
    requires response != [] && NoMarker(response)
    ensures ParseResponse(response).choices == [Placeholder(1), Placeholder(2), Placeholder(3), Placeholder(4)]
  {
    assert SplitSecond(response, Marker) == [];
    ChoicesOfBlank();
  }

  lemma ChoicesOfBlank()
    ensures ChoiceList([]) == [Placeholder(1), Placeholder(2), Placeholder(3), Placeholder(4)]
  {
    assert Fragments([]) == [[]];
    assert Cleaned([[]]) == [] by {
      assert Trim([]) == [];
    }
    PadEmpty();
  }

  lemma PadEmpty()
    ensures Pad([]) == [Placeholder(1), Placeholder(2), Placeholder(3), Placeholder(4)]
  {
    var r := Pad([]);
    assert r[0] == Placeholder(1) && r[1] == Placeholder(2) && r[2] == Placeholder(3) && r[3] == Placeholder(4);
  }

  // ---------------------------------------------------------------------
  // The reply layout the prompts ask for

  /** One numbered choice line, `\n<n>) <c>`. */
  function Item(n: nat, c: string): string
    requires n < 10
  {
    "\n" + [DigitChar(n), ')', ' '] + c
  }

  /** The reply layout both prompts request: a labelled story, the marker,
      then the four choices numbered 1 to 4 on lines of their own. */
  function Format(story: string, choices: seq<string>): string
    requires |choices| == 4
  {
    "STORY: " + story + "\n" + Marker
      + Item(1, choices[0]) + Item(2, choices[1]) + Item(3, choices[2]) + Item(4, choices[3])
  }

  /** A reply in the requested layout parses back into its story and its
      four choices, provided none of them could be mistaken for layout. */
  lemma ParseFormat(story: string, choices: seq<string>)
    requires |choices| == 4
    requires IsTrimmed(story) && NoMarker(story)
    requires forall i :: 0 <= i < 4 ==> WellFormedChoice(choices[i]) && NoMarker(choices[i])
    ensures ParseResponse(Format(story, choices)) == Parsed(story, choices)
  {
    var a := "STORY: " + story + "\n";
    var b := Item(1, choices[0]) + Item(2, choices[1]) + Item(3, choices[2]) + Item(4, choices[3]);
    assert Format(story, choices) == a + Marker + b;
    LabelledNoMarker(story);
    ItemsNoMarker(choices);
    ParseOfTwo(a, b);
    LabelledStory(story);
    ItemsChoices(choices);
  }

  /** Texts shorter than the marker cannot hold it. */
  lemma ShortNoMarker(s: string)
    requires |s| < |Marker|
    ensures NoMarker(s)
  {
  }

  /** A text lacking one of the characters of the marker cannot hold it. */
  lemma MissingMarkerChar(s: string, t: nat)
    requires t < |Marker| && Marker[t] !in s
    ensures NoMarker(s)
  {
    forall j: nat | j < |s| ensures !MatchAt(s, Marker, j) {
      if j + |Marker| <= |s| {
        assert s[j..j + |Marker|][t] == s[j + t];
      }
    }
    NoMarkerIfNoMatch(s);
  }

  /** A text without a colon cannot hold the marker. */
  lemma NoColonNoMarker(s: string)
    requires ':' !in s
    ensures NoMarker(s)
  {
    MissingMarkerChar(s, 7);
  }

  /** A text without `)` holds no choice number. */
  lemma NoParenNoMark(s: string)
    requires ')' !in s
    ensures NoMark(s)
  {
  }

  lemma LabelledNoMarker(story: string)
    requires NoMarker(story)
    ensures NoMarker("STORY: " + story + "\n")
  {
    ShortNoMarker("STORY:");
    ShortNoMarker([]);
    NoMarkerJoin("STORY:", ' ', story);
    NoMarkerJoin("STORY:" + [' '] + story, '\n', []);
    assert "STORY:" + [' '] + story + ['\n'] + [] == "STORY: " + story + "\n";
  }

  lemma ItemsNoMarker(choices: seq<string>)
    requires |choices| == 4
    requires forall i :: 0 <= i < 4 ==> NoMarker(choices[i])
    ensures NoMarker(Item(1, choices[0]) + Item(2, choices[1]) + Item(3, choices[2]) + Item(4, choices[3]))
  {
    var x1 := Item(1, choices[0]);
    ShortNoMarker([]);
    ItemJoin([], 1, choices[0]);
    assert [] + x1 == x1;
    var x2 := x1 + Item(2, choices[1]);
    ItemJoin(x1, 2, choices[1]);
    var x3 := x2 + Item(3, choices[2]);
    ItemJoin(x2, 3, choices[2]);
    ItemJoin(x3, 4, choices[3]);
  }

  /** Appending an item keeps a marker-free text marker-free. */
  lemma ItemJoin(x: string, n: nat, c: string)
    requires n < 10 && NoMarker(c) && NoMarker(x)
    ensures NoMarker(x + Item(n, c))
  {
    var y := x + Item(n, c);
    var tail := [DigitChar(n), ')', ' '] + c;
    assert y == x + ['\n'] + tail;
    ShortNoMarker([DigitChar(n), ')']);
    NoMarkerJoin([DigitChar(n), ')'], ' ', c);
    assert [DigitChar(n), ')'] + [' '] + c == tail;
    NoMarkerJoin(x, '\n', tail);
  }

  /** The story of the layout is the story that was laid out. */
  lemma LabelledStory(story: string)
    requires IsTrimmed(story) && NoMarker(story)
    ensures StoryText("STORY: " + story + "\n") == story
  {
    var a := "STORY: " + story + "\n";
    LabelledNoMarker(story);
    SplitFirstPlain(a);
    assert HasLabel(a) by {
      assert a[..6] == Label;
    }
    if story == [] {
      SkipWsIs(a, |Label|, |a|);
      assert StripStoryLabel(a) == [];
    } else {
      SkipWsIs(a, |Label|, |Label| + 1);
      assert StripStoryLabel(a) == [] + story + "\n";
      TrimOfPadded([], story, "\n");
    }
  }

  /** A choice padded by the layout's space and newline has no choice number. */
  lemma PaddedNoMark(c: string, tail: string)
    requires NoMark(c) && (tail == [] || tail == "\n")
    ensures NoMark(" " + c + tail)
  {
    var x := " " + c + tail;
    forall p: nat | p < |x| ensures !IsMarkAt(x, p) {
      if 0 < p && p + 1 < |x| {
        if p < |c| {
          assert x[p] == c[p - 1] && x[p + 1] == c[p];
          assert !IsMarkAt(c, p - 1);
        } else {
          assert x[p + 1] == '\n';
        }
      }
    }
  }

  /** The choice section of the layout yields exactly the four choices. */
  lemma ItemsChoices(cs: seq<string>)
    requires |cs| == 4
    requires forall i :: 0 <= i < 4 ==> WellFormedChoice(cs[i])
    ensures ChoiceList(Item(1, cs[0]) + Item(2, cs[1]) + Item(3, cs[2]) + Item(4, cs[3])) == cs
  {
    var p1, p2, p3, p4 := " " + cs[0] + "\n", " " + cs[1] + "\n", " " + cs[2] + "\n", " " + cs[3] + [];
    var b := Item(1, cs[0]) + Item(2, cs[1]) + Item(3, cs[2]) + Item(4, cs[3]);
    ItemsFragments(cs);
    TrimPiece(cs[0], "\n");
    TrimPiece(cs[1], "\n");
    TrimPiece(cs[2], "\n");
    TrimPiece(cs[3], []);
    TrimNewline();
    FourOf(cs);
    ChoicesOfPieces(b, cs[0], cs[1], cs[2], cs[3], "\n", p1, p2, p3, p4);
  }

  lemma FourOf(cs: seq<string>)
    requires |cs| == 4
    ensures cs == [cs[0]] + ([cs[1]] + ([cs[2]] + [cs[3]]))
  {
  }

  /** Text that splits into a blank piece and four pieces trimming to
      non-blank labels yields exactly those labels. */
  lemma ChoicesOfPieces(b: string, c0: string, c1: string, c2: string, c3: string, n: string, p1: string, p2: string, p3: string, p4: string)
    requires Fragments(b) == [n] + ([p1] + ([p2] + ([p3] + [p4])))
    requires Trim(p1) == c0 && Trim(p2) == c1 && Trim(p3) == c2 && Trim(p4) == c3
    requires c0 != [] && c1 != [] && c2 != [] && c3 != []
    requires Trim(n) == []
    ensures ChoiceList(b) == [c0] + ([c1] + ([c2] + [c3]))
  {
    var cs := [c0] + ([c1] + ([c2] + [c3]));
    CleanedItems(c0, c1, c2, c3, n, p1, p2, p3, p4);
    assert ChoiceList(b) == Pad(TakeFour(cs));
    assert TakeFour(cs) == cs && Pad(cs) == cs;
  }

  /** The choice section splits at its four numbers into a blank line and
      the four padded choices. */
  lemma ItemsFragments(cs: seq<string>)
    requires |cs| == 4
    requires forall i :: 0 <= i < 4 ==> WellFormedChoice(cs[i])
    ensures Fragments(Item(1, cs[0]) + Item(2, cs[1]) + Item(3, cs[2]) + Item(4, cs[3]))
      == ["\n"] + ([" " + cs[0] + "\n"] + ([" " + cs[1] + "\n"] + ([" " + cs[2] + "\n"] + [" " + cs[3] + []])))
  {
    var p1, p2, p3, p4 := " " + cs[0] + "\n", " " + cs[1] + "\n", " " + cs[2] + "\n", " " + cs[3] + [];
    var b := Item(1, cs[0]) + Item(2, cs[1]) + Item(3, cs[2]) + Item(4, cs[3]);
    var r3 := p3 + [DigitChar(4), ')'] + p4;
    var r2 := p2 + [DigitChar(3), ')'] + r3;
    var r1 := p1 + [DigitChar(2), ')'] + r2;
    assert b == "\n" + [DigitChar(1), ')'] + r1;
    PaddedNoMark(cs[0], "\n");
    PaddedNoMark(cs[1], "\n");
    PaddedNoMark(cs[2], "\n");
    PaddedNoMark(cs[3], []);
    NoParenNoMark("\n");
    FragmentsOfPlain("\n");
    FragmentsOfPlain(p1);
    FragmentsOfPlain(p2);
    FragmentsOfPlain(p3);
    FragmentsOfPlain(p4);
    FragmentsAtMark(p3, DigitChar(4), p4);
    FragmentsAtMark(p2, DigitChar(3), r3);
    FragmentsAtMark(p1, DigitChar(2), r2);
    FragmentsAtMark("\n", DigitChar(1), r1);
  }

  lemma TrimNewline()
    ensures Trim("\n") == []
  {
    TrimOfPadded("\n", [], []);
    assert "\n" + [] + [] == "\n";
  }

  /** Cleaning a blank piece followed by four pieces that trim to non-blank
      choices keeps exactly those choices. */
  lemma CleanedItems(c0: string, c1: string, c2: string, c3: string, n: string, p1: string, p2: string, p3: string, p4: string)
    requires Trim(p1) == c0 && Trim(p2) == c1 && Trim(p3) == c2 && Trim(p4) == c3
    requires c0 != [] && c1 != [] && c2 != [] && c3 != []
    requires Trim(n) == []
    ensures Cleaned([n] + ([p1] + ([p2] + ([p3] + [p4])))) == [c0] + ([c1] + ([c2] + [c3]))
  {
    var r3 := [p4];
    var r2 := [p3] + r3;
    var r1 := [p2] + r2;
    var r0 := [p1] + r1;
    CleanedKeep(p4, [], c3, []);
    assert [p4] + [] == [p4];
    CleanedKeep(p3, r3, c2, [c3]);
    CleanedKeep(p2, r2, c1, [c2] + [c3]);
    CleanedKeep(p1, r1, c0, [c1] + ([c2] + [c3]));
    CleanedDrop(n, r0);
  }

  /** A trimmed choice between a space and an optional newline trims back. */
  lemma TrimPiece(c: string, tail: string)
    requires IsTrimmed(c) && (tail == [] || tail == "\n")
    ensures Trim(" " + c + tail) == c
  {
    TrimOfPadded(" ", c, tail);
  }

  lemma CleanedKeep(x: string, rest: seq<string>, c: string, cr: seq<string>)
    requires Trim(x) == c && c != [] && Cleaned(rest) == cr
    ensures Cleaned([x] + rest) == [c] + cr
  {
    assert ([x] + rest)[1..] == rest;
  }

  lemma CleanedDrop(x: string, rest: seq<string>)
    requires Trim(x) == []
    ensures Cleaned([x] + rest) == Cleaned(rest)
  {
    assert ([x] + rest)[1..] == rest;
  }

  /** A concrete reply in the layout of `Format`: a labelled one-sentence
      story and four one-word choices. */
  lemma SampleReply()
    ensures ParseResponse(Format("You smash a grot.", ["Run", "Loot", "Taunt", "Flee"]))
      == Parsed("You smash a grot.", ["Run", "Loot", "Taunt", "Flee"])
  {
    var story, cs := "You smash a grot.", ["Run", "Loot", "Taunt", "Flee"];
    SampleWellFormed(story, cs);
    ParseFormat(story, cs);
  }

  lemma SampleWellFormed(story: string, cs: seq<string>)
    requires story == "You smash a grot." && cs == ["Run", "Loot", "Taunt", "Flee"]
    ensures IsTrimmed(story) && NoMarker(story)
    ensures |cs| == 4 && forall i :: 0 <= i < 4 ==> WellFormedChoice(cs[i]) && NoMarker(cs[i])
  {
    NoColonNoMarker(story);
    forall i | 0 <= i < 4 ensures WellFormedChoice(cs[i]) && NoMarker(cs[i]) {
      NoColonNoMarker(cs[i]);
      NoParenNoMark(cs[i]);
    }
  }
}
