/** What the page shows: the four choice buttons (`updateChoices`), the
    story box with its `current-segment` paragraph (`updateStoryText` and
    the final write of `generateStorySegment`), and the streaming loop that
    feeds the story box while a reply arrives. */
module StoryDisplay {
  import opened Wrappers
  import opened JsString
  import opened StoryParser

  // ---------------------------------------------------------------------
  // Choice buttons

  /** `choices[index] || `Choice ${index + 1}``: a missing entry
      (`undefined`) and an empty one are both falsy and fall back to the
      numbered placeholder. */
  function SlotLabel(choices: seq<string>, i: nat): (r: string)
    requires i < 4
    ensures r != []
    ensures r == Placeholder(i + 1) || (i < |choices| && r == choices[i])
  {
    if i < |choices| && choices[i] != [] then choices[i] else Placeholder(i + 1)
  }

  /** `updateChoices`: every one of the four buttons gets a label. */
  function UpdateChoices(choices: seq<string>): (slots: seq<string>)
    ensures |slots| == 4
    ensures forall i :: 0 <= i < 4 ==> slots[i] != []
    ensures forall i :: 0 <= i < 4 && i < |choices| && choices[i] != [] ==> slots[i] == choices[i]
    ensures forall i :: 0 <= i < 4 && (|choices| <= i || choices[i] == []) ==> slots[i] == Placeholder(i + 1)
  {
    [SlotLabel(choices, 0), SlotLabel(choices, 1), SlotLabel(choices, 2), SlotLabel(choices, 3)]
  }

  /** A list is left as it is exactly when it already has four non-empty
      labels. */
  lemma UpdateChoicesFixed(choices: seq<string>)
    ensures UpdateChoices(choices) == choices <==> |choices| == 4 && forall i :: 0 <= i < 4 ==> choices[i] != []
  {
    if |choices| == 4 && forall i :: 0 <= i < 4 ==> choices[i] != [] {
      var s := UpdateChoices(choices);
      assert forall i :: 0 <= i < 4 ==> s[i] == choices[i];
    }
  }

  /** Updating twice labels the buttons as updating once. */
  lemma UpdateChoicesIdempotent(choices: seq<string>)
    ensures UpdateChoices(UpdateChoices(choices)) == UpdateChoices(choices)
  {
    UpdateChoicesFixed(UpdateChoices(choices));
  }

  /** Entries after the fourth never reach a button. */
  lemma UpdateChoicesIgnoresRest(choices: seq<string>, rest: seq<string>)
    requires |choices| >= 4
    ensures UpdateChoices(choices + rest) == UpdateChoices(choices)
  {
    var a, b := UpdateChoices(choices + rest), UpdateChoices(choices);
    forall i | 0 <= i < 4 ensures a[i] == b[i] {
      assert (choices + rest)[i] == choices[i];
    }
  }

  /** The choices of a non-empty reply land on the buttons unchanged. */
  lemma UpdateChoicesOfParse(response: string)
    requires response != []
    ensures UpdateChoices(ParseResponse(response).choices) == ParseResponse(response).choices
  {
    var cs := ParseResponse(response).choices;
    UpdateChoicesFixed(cs);
    assert forall i :: 0 <= i < 4 ==> WellFormedChoice(cs[i]);
  }

  /** With no list at all every button shows its placeholder. */
  lemma UpdateChoicesOfNothing()
    ensures UpdateChoices([]) == [Placeholder(1), Placeholder(2), Placeholder(3), Placeholder(4)]
  {
  }

  // ---------------------------------------------------------------------
  // The story box

  /** The paragraphs of the story box, in order, and the index of the one
      carrying the `current-segment` class, if any. */
  datatype Box = Box(paras: seq<string>, current: Option<nat>) {
    predicate Valid() {
      current.Some? ==> current.value < |paras|
    }
  }

  /** The box of a freshly loaded page. */
  const EmptyBox: Box := Box([], None)

  /** `previousSegment.classList.remove('current-segment')`. */
  function Release(box: Box): (r: Box)
    ensures r.paras == box.paras && r.current.None?
  {
    box.(current := None)
  }

  /** The text `updateStoryText(text)` would show: `None` when the story
      of `text` is blank (nothing is written), otherwise the story with a
      further leading label removed, cut at `CHOICES:` and trimmed. */
  function StreamView(text: string): (r: Option<string>)
    ensures r.None? <==> ParseResponse(text).story == []
    ensures r.Some? ==> IsTrimmed(r.value) && NoMarker(r.value)
  {
    var story := ParseResponse(text).story;
    if story == [] then None
    else
      var cut := SplitFirst(StripStoryLabel(story), Marker);
      NoMatchInPrefix(StripStoryLabel(story), cut, Marker);
      TrimNoMarker(cut);
      Some(Trim(cut))
  }

  /** A story never holds the marker, so the cut is a no-op: the streamed
      view is the story with one more leading label removed. */
  lemma StreamViewIsRestripped(text: string)
    ensures ParseResponse(text).story != [] ==>
      StreamView(text) == Some(Trim(StripStoryLabel(ParseResponse(text).story)))
  {
    var story := ParseResponse(text).story;
    if story != [] {
      assert StreamView(text) == Some(Trim(SplitFirst(StripStoryLabel(story), Marker)));
      RestripUncut(story);
    }
  }

  lemma RestripUncut(story: string)
    requires NoMarker(story)
    ensures SplitFirst(StripStoryLabel(story), Marker) == StripStoryLabel(story)
  {
    var t := StripStoryLabel(story);
    SuffixNoMarker(story, t);
    SplitFirstPlain(t);
  }

  /** A suffix of a marker-free text is marker-free. */
  lemma SuffixNoMarker(s: string, t: string)
    requires NoMarker(s) && |t| <= |s| && t == s[|s| - |t|..]
    ensures NoMarker(t)
  {
    NoMarkerFactor(s, |s| - |t|, |s|);
    assert s[|s| - |t|..|s|] == t;
  }

  /** `updateStoryText(text)`: write the view of `text` into the current
      segment, creating that paragraph at the end when there is none. */
  function ShowStory(box: Box, text: string): (r: Box)
    requires box.Valid()
    ensures r.Valid()
    ensures StreamView(text).None? ==> r == box
    ensures StreamView(text).Some? ==> r.current.Some? && r.paras[r.current.value] == StreamView(text).value
    ensures box.current.Some? ==> r.current == box.current && |r.paras| == |box.paras|
    ensures box.current.None? && StreamView(text).Some? ==> r.current == Some(|box.paras|) && |r.paras| == |box.paras| + 1
    ensures forall k :: 0 <= k < |box.paras| && Some(k) != box.current ==> r.paras[k] == box.paras[k]
  {
    match StreamView(text)
    case None => box
    case Some(clean) =>
      match box.current
      case None => Box(box.paras + [clean], Some(|box.paras|))
      case Some(k) => Box(box.paras[k := clean], Some(k))
  }

  // ---------------------------------------------------------------------
  // Streaming

  /** `chunk.choices[0].delta.content`: absent or a piece of text. */
  datatype Delta = Undefined | Chunk(text: string)

  /** The text a delta contributes: nothing for a missing one. */
  function DeltaText(d: Delta): string {
    match d
    case Undefined => []
    case Chunk(t) => t
  }

  /** Everything the deltas carry, joined in arrival order. */
  function Joined(ds: seq<Delta>): string {
    if ds == [] then [] else DeltaText(ds[0]) + Joined(ds[1..])
  }

  /** `curMessage` and the story box during the `for await` loop. */
  datatype Stream = Stream(text: string, box: Box)

  /** One iteration: a falsy delta is skipped; otherwise it is appended,
      and the box is refreshed only while the text lacks `CHOICES:`. */
  function Feed(st: Stream, d: Delta): (r: Stream)
    requires st.box.Valid()
    ensures r.box.Valid()
    ensures r.text == st.text + DeltaText(d)
    ensures DeltaText(d) == [] ==> r == st
    ensures Contains(r.text, Marker) ==> r.box == st.box
    ensures !Contains(r.text, Marker) && DeltaText(d) != [] ==> r.box == ShowStory(st.box, r.text)
  {
    match d
    case Undefined => st
    case Chunk(t) =>
      if t == [] then st
      else
        var text := st.text + t;
        if Contains(text, Marker) then Stream(text, st.box)
        else Stream(text, ShowStory(st.box, text))
  }

  /** The whole loop. */
  function FeedAll(st: Stream, ds: seq<Delta>): (r: Stream)
    requires st.box.Valid()
    ensures r.box.Valid()
    decreases |ds|
  {
    if ds == [] then st else FeedAll(Feed(st, ds[0]), ds[1..])
  }

  /** The accumulated text is the join of all the deltas, whatever the
      falsy ones among them. */
  lemma {:induction false} FeedAllText(st: Stream, ds: seq<Delta>)
    requires st.box.Valid()
    decreases |ds|
    ensures FeedAll(st, ds).text == st.text + Joined(ds)
  {
    if ds != [] {
      var d, rest := ds[0], ds[1..];
      var next := Feed(st, d);
      assert next.text == st.text + DeltaText(d);
      assert FeedAll(st, ds) == FeedAll(next, rest);
      assert Joined(ds) == DeltaText(d) + Joined(rest);
      FeedAllText(next, rest);
      JoinAssoc(st.text, DeltaText(d), Joined(rest));
    }
  }

  lemma JoinAssoc(a: string, b: string, c: string)
    ensures (a + b) + c == a + (b + c)
  {
  }

  /** Deltas that carry no text, missing or empty, change nothing. */
  lemma {:induction false} FeedAllBlank(st: Stream, ds: seq<Delta>)
    requires st.box.Valid()
    requires forall k :: 0 <= k < |ds| ==> DeltaText(ds[k]) == []
    decreases |ds|
    ensures FeedAll(st, ds) == st
  {
    if ds != [] {
      assert Feed(st, ds[0]) == st;
      FeedAllBlank(st, ds[1..]);
    }
  }

  /** Once `CHOICES:` has arrived the story box is frozen for the rest of
      the reply. */
  lemma {:induction false} FeedAllFrozen(st: Stream, ds: seq<Delta>)
    requires st.box.Valid() && Contains(st.text, Marker)
    decreases |ds|
    ensures FeedAll(st, ds).box == st.box
  {
    if ds != [] {
      var next := Feed(st, ds[0]);
      ContainsExtend(st.text, DeltaText(ds[0]), Marker);
      FeedAllFrozen(next, ds[1..]);
    }
  }

  /** The loop only ever touches the current segment: the paragraphs before
      it stay, and at most one paragraph is added at the end. Every text the
      loop writes is a trimmed story without `CHOICES:`. */
  predicate Grows(before: Box, after: Box) {
    && before.current.None? && after.Valid()
    && |before.paras| <= |after.paras| <= |before.paras| + 1
    && after.paras[..|before.paras|] == before.paras
    && (after.current.None? ==> after == before)
    && (after.current.Some? ==>
          after.current.value == |before.paras| && IsTrimmed(after.paras[|before.paras|]) && NoMarker(after.paras[|before.paras|]))
  }

  lemma {:induction false} FeedAllGrows(start: Box, st: Stream, ds: seq<Delta>)
    requires start.Valid() && st.box.Valid() && (st.box == start || Grows(start, st.box))
    requires start.current.None?
    decreases |ds|
    ensures Grows(start, FeedAll(st, ds).box) || FeedAll(st, ds).box == start
  {
    if ds != [] {
      var next := Feed(st, ds[0]);
      FeedStepGrows(start, st, ds[0]);
      FeedAllGrows(start, next, ds[1..]);
    }
  }

  lemma FeedStepGrows(start: Box, st: Stream, d: Delta)
    requires start.Valid() && st.box.Valid() && (st.box == start || Grows(start, st.box))
    requires start.current.None?
    ensures Feed(st, d).box == start || Grows(start, Feed(st, d).box)
  {
    var r := Feed(st, d);
    if DeltaText(d) != [] && !Contains(r.text, Marker) {
      ShowGrows(start, st.box, r.text);
    }
  }

  lemma ShowGrows(start: Box, box: Box, text: string)
    requires start.Valid() && box.Valid() && (box == start || Grows(start, box))
    requires start.current.None?
    ensures ShowStory(box, text) == start || Grows(start, ShowStory(box, text))
  {
    var r := ShowStory(box, text);
    var n := |start.paras|;
    if StreamView(text).Some? {
      var v := StreamView(text).value;
      assert r.paras[r.current.value] == v;
      if box.current.None? {
        assert box == start;
        assert r.current.value == n;
      } else {
        assert r.current.value == n;
      }
      forall k | 0 <= k < n ensures r.paras[k] == start.paras[k] {
        assert r.paras[k] == box.paras[k];
      }
      assert r.paras[..n] == start.paras;
    }
  }

  // ---------------------------------------------------------------------
  // The final write

  /** After the reply: the current segment, if the loop created one, gets
      the parsed story with a leading label removed once more, and loses the
      `current-segment` class. Without a segment nothing is written. */
  function FinalDisplay(box: Box, story: string): (r: Box)
    requires box.Valid()
    ensures r.current.None? && |r.paras| == |box.paras|
    ensures box.current.Some? ==> r.paras[box.current.value] == StripStoryLabel(story)
    ensures forall k :: 0 <= k < |box.paras| && Some(k) != box.current ==> r.paras[k] == box.paras[k]
  {
    match box.current
    case None => box
    case Some(k) => Box(box.paras[k := StripStoryLabel(story)], None)
  }

  /** The final write can differ from the parsed story: when a reply has
      a space before its label, the label is not at index 0 and stays in
      the story, and the final write then removes it. */
  lemma FinalDisplayRestrips(s: string, box: Box)
    requires HasLabel(s) && IsTrimmed(s) && NoMarker(s)
    requires box.Valid() && box.current.Some?
    ensures ParseResponse(" " + s).story == s
    ensures FinalDisplay(box, ParseResponse(" " + s).story).paras[box.current.value] == StripStoryLabel(s)
    ensures |StripStoryLabel(s)| <= |s| - |Label|
  {
    var r := " " + s;
    ShortNoMarker([]);
    NoMarkerJoin([], ' ', s);
    assert [] + [' '] + s == r;
    assert !HasLabel(r) by {
      assert AsciiUpper(r[0]) == ' ';
    }
    SplitFirstPlain(r);
    assert StripStoryLabel(r) == r;
    TrimOfPadded(" ", s, []);
    assert " " + s + [] == r;
    assert StoryText(r) == s;
  }
}
