# Ork story game: reply parser and turn controller

A Dafny model of the core of `script.js`, the browser game in which a local
language model narrates a Warhammer 40,000 Ork adventure. Each turn the
player gets a short story segment and four choice buttons. The model covers
the following parts.

- **The reply parser.** `parseResponse` turns the model's raw reply into a
  story and four choices. The reply layout is
  `STORY: … CHOICES: 1) … 2) … 3) … 4) …`.
  - Module `StoryParser` holds the parser.
  - Module `JsString` holds the JavaScript string primitives the parser
    uses: `trim`, `\s`, `\d`, `indexOf`/`includes` and the first two pieces
    of `split`. `trim` and `\s` use one exact list of ECMAScript WhiteSpace
    and LineTerminator code points.
- **The page.** Module `StoryDisplay` covers:
  - `updateChoices`, which writes the four button labels;
  - `updateStoryText`, which writes the story box's `current-segment`
    paragraph;
  - the streaming loop, which feeds that paragraph while a reply arrives;
  - the final write of the story.
- **The controller.** Module `StoryGame` covers the chat history, the button
  labels, the disabled flag and the story box, stepped by `startStory`,
  `handleChoice` and `generateStorySegment`.
  - The inference engine is an input value, `Reply`. It is one of:
    - `Success(deltas, final)`: it streams deltas and hands back a final
      message;
    - `RequestFailed`: `chat.completions.create` throws;
    - `StreamFailed(deltas)`: the stream or `getMessage` throws after some
      deltas have been consumed.
  - A session is a sequence of button events, each carrying the engine's
    reply to the turn it starts.

A failed turn never re-enables the choice buttons. The `catch` block at
`script.js:252-256` writes the fallback labels but never touches
`disabled`, and the buttons were disabled at line 206, so they stay
disabled. Only a successful turn enables them again (line 251). After a
failure the start button is the only way to begin one, because it is never
disabled. `StoryGame.FailureLocksChoices` and `StoryGame.StartAfterFailure`
state this behaviour.

## Model

| member | source | states |
|---|---|---|
| JsString.SkipWs | script.js:138 | the first non-whitespace index at or after `i`; everything skipped is whitespace |
| JsString.SkipWsBack | script.js:138 | the end of the last non-whitespace run before `j`; everything after it up to `j` is whitespace |
| JsString.SkipWsIs | script.js:138 | `SkipWs` returns exactly the index bounded by whitespace and a non-whitespace character, and no other |
| JsString.SkipWsBackIs | script.js:138 | `SkipWsBack` returns exactly the index after the last non-whitespace character |
| JsString.Trim | script.js:138 | `trim` returns a factor of its input with no whitespace at either end, after the leading whitespace and followed only by whitespace |
| JsString.TrimOfPadded | script.js:138 | trimming a trimmed word padded with whitespace on both sides gives the word back |
| JsString.FindFrom | script.js:136 | a found index holds an occurrence, and no earlier index from the start position does |
| JsString.ContainsIff | script.js:230 | `includes` holds exactly when some index carries an occurrence |
| JsString.ContainsExtend | script.js:228-230 | appending text never removes an occurrence |
| JsString.IndexOf | script.js:136-140 | `indexOf` as the first occurrence from index 0; its meaning is stated by `JsString.FindFrom` |
| JsString.Contains | script.js:230 | `includes`; `JsString.ContainsIff` states when it holds and `JsString.ContainsExtend` that it survives appending |
| JsString.SplitFirst | script.js:136 | `split(sep)[0]` is the prefix before the first occurrence of `sep`, or the whole text when there is none |
| JsString.AfterFirst | script.js:140 | the text after the first separator, where `split` starts its second piece; `JsString.AfterFirstIs` places it right after the first piece and the separator |
| JsString.AfterFirstIs | script.js:140 | with a separator present, the text after it starts at the length of the first piece plus the separator length |
| JsString.SplitSecond | script.js:140 | `split(sep)[1] \|\| ''`; `JsString.SplitSecondSpec` states its value |
| JsString.SplitSecondSpec | script.js:140 | `split(sep)[1] \|\| ''` is empty without a separator; otherwise it is the text from right after the first separator up to the next separator or the end, so it holds no separator itself |
| JsString.NoMatchInPrefix | script.js:136 | a prefix cut before the first occurrence contains none |
| StoryParser.StripStoryLabel | script.js:137 | `replace(/^STORY:\s*/i, '')` removes a case-insensitive label at index 0 and the whitespace after it; text without the label is unchanged |
| StoryParser.Fragments | script.js:143 | `split(/\d\)/)` always yields at least one piece, and the first piece is a prefix of the text |
| StoryParser.FragmentsOfPlain | script.js:143 | text without a choice number splits into itself alone |
| StoryParser.FragmentsAtMark | script.js:143 | splitting distributes over a choice number: `a + d) + b` splits into the pieces of `a` followed by the pieces of `b` |
| StoryParser.FragmentsNoMark | script.js:143 | no piece of the split contains a digit followed by `)` |
| StoryParser.Cleaned | script.js:144-145 | filter-then-trim keeps at most as many pieces, each non-empty and trimmed; `CleanedAppend` and `CleanedOne` pin down which pieces and in what order |
| StoryParser.CleanedAppend | script.js:144-145 | filter-then-trim works piece by piece: cleaning a concatenation concatenates the cleaned parts, so order is kept |
| StoryParser.CleanedCons | script.js:144-145 | a first piece is dropped when it trims to nothing and kept, trimmed, otherwise |
| StoryParser.CleanedOne | script.js:144-145 | a single piece is dropped when blank and kept trimmed otherwise; with `CleanedAppend` this fixes the result on every list |
| StoryParser.CleanedNoMark | script.js:144-145 | filtering and trimming introduce no choice number |
| StoryParser.Pad | script.js:148-150 | the padding loop yields four entries: the kept choices in place, then `Choice n` at 1-based position n |
| StoryParser.TakeFour | script.js:146 | `slice(0, 4)` is a prefix of length min(4, length) |
| StoryParser.ChoiceList | script.js:142-150 | the choice list has four entries: the first ≤4 non-blank trimmed pieces in order, then placeholders |
| StoryParser.ChoicesWellFormed | script.js:143-150 | every choice is non-empty, trimmed and free of `digit)` |
| StoryParser.PlaceholderWellFormed | script.js:149 | a placeholder `Choice n` is itself a well-formed choice |
| StoryParser.Placeholder | script.js:149 | the template `Choice ${n}`; `StoryParser.PlaceholderWellFormed` states that it is a usable label |
| StoryParser.ParseResponse | script.js:132-158 | empty input gives an empty story and no choices; otherwise four well-formed choices; the story is always trimmed and never contains `CHOICES:` |
| StoryParser.StoryText | script.js:136-138 | the story piece of `parseResponse`; `StoryParser.StoryIsFactor` and `StoryParser.LabelledStory` state its value |
| StoryParser.StoryIsFactor | script.js:136-138 | the story is a trimmed factor of the text before the first `CHOICES:`, followed only by whitespace; before it is only whitespace when that text does not start with `STORY:` (any case), and the label plus whitespace when it does |
| StoryParser.FirstMarker | script.js:136 | when `a` holds no marker, the first `CHOICES:` of `a + CHOICES: + rest` is at index \|a\| |
| StoryParser.SplitAtFirstMarker | script.js:136-140 | the story source is `a` and the choice source is the part of `rest` before any further marker |
| StoryParser.ParseOfPieces | script.js:136-150 | choices come only from between the first and second `CHOICES:`; text after a second marker is ignored; the story comes only from before the first |
| StoryParser.ParseWithoutMarker | script.js:140-150 | a non-empty reply without `CHOICES:` yields exactly `Choice 1` to `Choice 4` |
| StoryParser.LabelledStory | script.js:136-138 | a labelled trimmed story line parses back to the story |
| StoryParser.ItemsChoices | script.js:142-150 | four numbered lines of well-formed choices parse back to those four choices, in order |
| StoryParser.ParseFormat | script.js:132-158 | a reply in the layout the prompts request parses back to exactly its story and its four choices |
| StoryParser.SampleReply | script.js:132-158 | a concrete reply with a labelled story and four numbered choices parses to that story and those choices |
| StoryDisplay.SlotLabel | script.js:261 | a label is never empty; it is the given choice or the numbered placeholder |
| StoryDisplay.UpdateChoices | script.js:259-263 | all four slots are set; slot i gets `choices[i]` when present and non-empty, else `Choice i+1` |
| StoryDisplay.UpdateChoicesFixed | script.js:259-263 | a list is written unchanged exactly when it has four non-empty entries |
| StoryDisplay.UpdateChoicesIdempotent | script.js:259-263 | writing the written labels again changes nothing |
| StoryDisplay.UpdateChoicesIgnoresRest | script.js:259-263 | entries after the fourth never reach a button |
| StoryDisplay.UpdateChoicesOfParse | script.js:259-263 | the choices parsed from a non-empty reply land on the buttons exactly |
| StoryDisplay.UpdateChoicesOfNothing | script.js:261 | with an empty list every button shows its placeholder |
| StoryDisplay.Release | script.js:220-223 | releasing the current segment keeps every paragraph and leaves none current |
| StoryDisplay.StreamView | script.js:187-194 | nothing is shown exactly when the parsed story is empty; anything shown is trimmed and free of `CHOICES:` |
| StoryDisplay.StreamViewIsRestripped | script.js:188-193 | the cut at `CHOICES:` is a no-op: the streamed view is the parsed story with a leading label removed once more, trimmed |
| StoryDisplay.ShowStory | script.js:187-202 | a blank story leaves the box alone; otherwise the current segment shows the view, created at the end if missing; no other paragraph changes |
| StoryDisplay.Feed | script.js:226-233 | a falsy delta changes nothing; the text grows by the delta; the box is refreshed only while the text lacks `CHOICES:` |
| StoryDisplay.FeedAll | script.js:225-234 | the whole `for await` loop; it keeps the story box well formed, and `FeedAllText`, `FeedAllBlank`, `FeedAllFrozen` and `FeedAllGrows` state what it does |
| StoryDisplay.FeedAllText | script.js:225-234 | after the loop the text is the join of all deltas in arrival order |
| StoryDisplay.FeedAllBlank | script.js:227 | deltas that are missing or empty leave the stream state unchanged |
| StoryDisplay.FeedAllFrozen | script.js:230 | once `CHOICES:` has arrived, the story box is frozen for the rest of the reply |
| StoryDisplay.FeedAllGrows | script.js:225-234 | the loop keeps the earlier paragraphs and adds at most one, the current segment, holding a trimmed marker-free story |
| StoryDisplay.FinalDisplay | script.js:244-248 | the segment the loop created, if any, gets the story with its label re-stripped; no paragraph stays current; others are unchanged |
| StoryDisplay.FinalDisplayRestrips | script.js:244-248 | a reply with a space before its label keeps the label in the parsed story, and the final write removes it |
| StoryGame.AskKeepsHistory | script.js:208-212 | a user prompt may be appended to a well-formed history |
| StoryGame.Valid | script.js:7-19 | the history starts with the one system message, no later message is a system message, every assistant message follows a user message, and there are four buttons; every step keeps it |
| StoryGame.SystemPrompt | script.js:9-16 | the game-master instructions, as the source's template literal; `StoryGame.RunFromStart` keeps them first in the history |
| StoryGame.OpeningPrompt | script.js:116-127 | the opening prompt, as the source's template literal; `StoryGame.StartStory` sends it |
| StoryGame.ContinuationPrompt | script.js:168-182 | the continuation prompt with the chosen label quoted; `StoryGame.ChoiceIsQuoted` shows the label can be read back |
| StoryGame.AnswerKeepsHistory | script.js:237-240 | an assistant reply may follow the user message it answers |
| StoryGame.FallbackLabels | script.js:255 | the fallback labels go on the buttons exactly as listed |
| StoryGame.Init | script.js:7-19 | a new game's history is the single system message, and the game state is valid, whatever the page markup supplies for the buttons and the story box |
| StoryGame.UnquoteQuote | script.js:168-170 | the chosen label can be read back verbatim from the continuation prompt |
| StoryGame.QuoteInjective | script.js:168-170 | different labels give different continuation prompts |
| StoryGame.Begin | script.js:206-212 | the buttons are disabled, and exactly one user message with the prompt is appended |
| StoryGame.Streamed | script.js:220-234 | the stream releases the previous segment, then adds at most one new current segment |
| StoryGame.Finish | script.js:236-256 | success appends the final message, shows the parsed choices and enables the buttons; failure appends no message, shows the fallback labels and leaves the disabled flag as it was |
| StoryGame.Generate | script.js:204-257 | a turn appends one user message, then one assistant message only on success; earlier messages are unchanged |
| StoryGame.StartStory | script.js:112-130 | the start button sends the opening prompt as the next user message |
| StoryGame.HandleChoice | script.js:160-185 | the next user message is the continuation prompt quoting the clicked label |
| StoryGame.Click | script.js:56-61 | a click while the buttons are disabled is a no-op; otherwise it handles the choice |
| StoryGame.Step | script.js:51-61 | an event keeps the earlier history and adds at most two messages |
| StoryGame.Run | script.js:51-61 | a session of button events in order; it keeps the game state valid, and `StoryGame.RunKeepsHistory` states that it only appends to the history |
| StoryGame.RunKeepsHistory | script.js:204-257 | a session only appends to the history, at most two messages per event |
| StoryGame.RunFromStart | script.js:7-19 | the system message of a fresh game is still first after any session |
| StoryGame.SuccessShowsChoices | script.js:242-251 | a successful turn shows the reply's parsed choices and enables the buttons |
| StoryGame.EmptyReplyShowsPlaceholders | script.js:259-263 | a successful but empty reply shows `Choice 1` to `Choice 4` |
| StoryGame.FailureLocksChoices | script.js:204-257 | after a failure the buttons show the fallback labels, stay disabled and ignore clicks |
| StoryGame.StartAfterFailure | script.js:112-130 | the start button still works after a failure, and a successful start re-enables the buttons |
| StoryGame.ClickWhileWaiting | script.js:206 | while a request is in flight a click changes nothing |
| StoryGame.ChoiceIsQuoted | script.js:160-185 | the prompt sent after a click is a user message from which removing the fixed head and tail gives back the clicked label verbatim |
| StoryGame.SuccessStoryBox | script.js:220-248 | after success the earlier paragraphs stay, at most one is added (the streamed segment, holding the re-stripped story), and none is current |
| StoryGame.FailureStoryBox | script.js:220-256 | after a failure the box ends with the error paragraph after the earlier ones; a failed request adds only that paragraph |

## Left out

- The inference engine (`MLCEngine`, `reload`, `chat.completions.create`,
  `getMessage`, progress callbacks, `prebuiltAppConfig`) is foreign code. It
  is an input value (`Reply`): the model does not tie the streamed deltas to
  the final message, since the engine does not promise any relation.
- The model loading flow, `initializeModel` (script.js:85-110), is engine
  set-up and status text only.
- `setupModelSelection` (script.js:74-83) fills a select list from the
  engine's catalogue, which is foreign code.
- `playButtonSound` (script.js:65-72) plays audio.
- DOM details are not modelled. This covers element lookup, CSS classes
  other than `current-segment`, `hidden` toggling, and the HTML
  interpretation of `innerHTML +=`. The story box is a sequence of paragraph
  texts plus the index of the current one.
- `async`/`await` interleaving is not modelled: each turn is atomic and
  runs to completion before the next event. For the choice buttons this
  loses nothing, because they are disabled for the whole turn
  (`StoryGame.ClickWhileWaiting`). The start button (script.js:51-54) is the
  exception: it is never disabled. A press during a turn starts a second
  `generateStorySegment` alongside the first, which pushes its user message
  before the first reply arrives (script.js:212). The history can then hold
  two user messages followed by two assistant messages. The model does not
  cover this, and `StoryGame.Valid`'s rule that every assistant message
  follows a user message rests on turns being atomic.
- The initial button labels, whether the buttons start disabled, and the
  initial story box are parameters of `StoryGame.Init`. They come from the
  page markup, which is not part of this model.
- The `catch` branch of `parseResponse` (script.js:153-157) cannot be
  reached for a string argument, so `StoryParser.ParseResponse` is total
  and has no error result.
- The genre selector (script.js:33) is never read. This file has no turn
  budget or session end.
- `console.log` and `console.error` output is not modelled.

