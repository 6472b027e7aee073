/** The controller of the story game (`StoryGame` in script.js): the chat
    history sent to the language model, the labels of the four choice
    buttons, whether those buttons are disabled, and the story box. A turn
    (`generateStorySegment`) sends a prompt and consumes the engine's reply;
    the engine itself is an input to the model. */
module StoryGame {
  import opened Wrappers
  import opened StoryParser
  import opened StoryDisplay

  datatype Role = System | User | Assistant

  /** One entry of `this.messages`. */
  datatype Message = Message(role: Role, content: string)

  // The prompt texts below are the template literals of script.js character
  // for character, trailing spaces and line breaks included; they are
  // written as word pieces joined with `+`, which the verifier handles far
  // more cheaply than one long literal.

  /** The game-master instructions the history starts with. */
  function SystemPrompt(): string {
    "\n"
    + "You " + "are " + "an " + "expert " + "Warhammer " + "40,000 " + "Ork " + "RPG " + "game " + "master. " + "\n"
    + "The " + "entire " + "story, " + "setting, " + "and " + "characters\U{2014}including " + "the " + "player\U{2014}must " + "be " + "set " + "in " + "the " + "grimdark " + "Warhammer " + "40k " + "universe, " + "focusing " + "on " + "Ork " + "culture. " + "\n"
    + "Write " + "in " + "second " + "person " + "perspective " + "(\"you\") " + "as " + "if " + "the " + "player " + "is " + "an " + "Ork " + "Boy " + "in " + "a " + "warband. " + "\n"
    + "Include " + "vivid " + "descriptions " + "of " + "brutal " + "Ork " + "life, " + "rough " + "Ork " + "speech " + "patterns, " + "improvised " + "weapons, " + "and " + "constant " + "threats " + "of " + "violence. " + "\n"
    + "After " + "each " + "short " + "narrative " + "segment " + "(2-3 " + "sentences), " + "provide " + "exactly " + "4 " + "possible " + "actions " + "(choices) " + "that " + "fit " + "the " + "Ork " + "theme. " + "\n"
    + "Keep " + "descriptions " + "concise " + "but " + "intense, " + "and " + "reflect " + "the " + "brutal, " + "chaotic " + "nature " + "of " + "the " + "Orks.\n"
  }

  function SystemMessage(): Message {
    Message(System, SystemPrompt())
  }

  /** The prompt of `startStory`: an opening scene in the reply layout. */
  function OpeningPrompt(): string {
    "\n"
    + "STORY:\n"
    + "You " + "stand " + "amidst " + "a " + "broken " + "battlefield " + "littered " + "with " + "scrap " + "metal, " + "spored " + "mushrooms, " + "and " + "the " + "groaning " + "remains " + "of " + "defeated " + "foes. " + "\n"
    + "As " + "a " + "fresh " + "Ork " + "Boy, " + "your " + "Choppa " + "gripped " + "tight, " + "you " + "snarl " + "at " + "the " + "distant " + "flashes " + "of " + "gunfire " + "where " + "humies " + "and " + "other " + "gitz " + "might " + "be " + "found. " + "\n"
    + "The " + "air " + "reeks " + "of " + "fungus " + "and " + "burnt " + "promethium, " + "and " + "your " + "Warboss " + "barks " + "orders " + "somewhere " + "behind " + "you.\n"
    + "\n"
    + "CHOICES:\n"
    + "1) " + "Charge " + "headlong " + "at " + "the " + "nearest " + "sound " + "of " + "gunfire.\n"
    + "2) " + "Smash " + "a " + "pile " + "of " + "scrap " + "to " + "see " + "if " + "you " + "can " + "find " + "something " + "choppy.\n"
    + "3) " + "Yell " + "at " + "a " + "nearby " + "Grot " + "to " + "fetch " + "you " + "something " + "useful.\n"
    + "4) " + "Try " + "to " + "sneak " + "closer " + "and " + "listen " + "for " + "your " + "Warboss\U{2019}s " + "orders.\n"
  }

  /** The prompt of `handleChoice` around the quoted choice. */
  function ContinuationHead(): string {
    "\n"
    + "Continue " + "the " + "Warhammer " + "40k " + "Ork " + "RPG " + "story, " + "focusing " + "on " + "brutal, " + "Ork-centered " + "action. " + "\n"
    + "You " + "have " + "chosen: " + "\""
  }
  function ContinuationTail(): string {
    "\"\n"
    + "\n"
    + "STORY:\n"
    + "[Describe " + "in " + "2-3 " + "sentences " + "what " + "immediately " + "happens " + "due " + "to " + "that " + "choice, " + "\n"
    + "keeping " + "the " + "grim, " + "Orky " + "tone " + "and " + "second-person " + "perspective. " + "\n"
    + "Show " + "the " + "consequences, " + "maybe " + "finding " + "loot, " + "crushing " + "an " + "enemy, " + "or " + "preparing " + "for " + "bigger " + "fights.]\n"
    + "\n"
    + "CHOICES:\n"
    + "1) " + "[Another " + "violent " + "or " + "cunning " + "Ork " + "action]\n"
    + "2) " + "[Something " + "reckless " + "but " + "possibly " + "rewarding]\n"
    + "3) " + "[Something " + "more " + "strategic " + "or " + "manipulative]\n"
    + "4) " + "[A " + "bizarre " + "Orky " + "idea, " + "risky " + "but " + "fun]\n"
  }

  /** The button labels written when a turn fails. */
  const Fallback: seq<string> := ["Try again", "Restart", "Continue anyway", "Start over"]

  /** The paragraph appended to the story box when a turn fails. */
  const ErrorNotice: string := "An error occurred while generating the story."

  /** The four choice buttons. */
  newtype Slot = i: int | 0 <= i < 4

  /** What the engine does with one request: it streams deltas and then
      hands back the final message, or `chat.completions.create` throws
      before anything streams, or the stream (or `getMessage`) throws after
      some deltas have been consumed. */
  datatype Reply =
    | Success(deltas: seq<Delta>, final: string)
    | RequestFailed
    | StreamFailed(deltas: seq<Delta>)

  /** The state the controller keeps between events. */
  datatype Game = Game(messages: seq<Message>, slots: seq<string>, disabled: bool, box: Box)

  /** The history opens with the one system message, and every reply
      directly follows the user message it answers; there are always four
      buttons. (That the system message keeps its text follows from the
      history only ever growing at the end.) */
  predicate Valid(g: Game) {
    WellFormedHistory(g.messages) && |g.slots| == 4 && g.box.Valid()
  }

  predicate WellFormedHistory(ms: seq<Message>) {
    && |ms| >= 1 && ms[0].role == System
    && (forall k :: 1 <= k < |ms| ==> ms[k].role != System)
    && (forall k :: 1 <= k < |ms| && ms[k].role == Assistant ==> ms[k - 1].role == User)
  }

  /** A prompt may follow anything. */
  lemma AskKeepsHistory(ms: seq<Message>, prompt: string)
    requires WellFormedHistory(ms)
    ensures WellFormedHistory(ms + [Message(User, prompt)])
  {
  }

  /** A reply may follow a prompt. */
  lemma AnswerKeepsHistory(ms: seq<Message>, final: string)
    requires WellFormedHistory(ms) && ms[|ms| - 1].role == User
    ensures WellFormedHistory(ms + [Message(Assistant, final)])
  {
  }

  /** The fallback labels go on the buttons as they are. */
  lemma FallbackLabels()
    ensures UpdateChoices(Fallback) == Fallback
  {
    UpdateChoicesFixed(Fallback);
  }

  /** The freshly constructed game. The initial button labels, whether the
      buttons start disabled and what the story box holds come from the page
      markup, so they are parameters. */
  function Init(slots: seq<string>, disabled: bool, box: Box): (g: Game)
    requires |slots| == 4 && box.Valid()
    ensures Valid(g) && g.messages == [SystemMessage()]
  {
    Game([SystemMessage()], slots, disabled, box)
  }

  /** A text placed between a fixed head and tail. */
  function Quote(head: string, text: string, tail: string): string {
    head + text + tail
  }

  /** The text between a head of `h` and a tail of `t` characters; empty
      when `r` is too short to hold both. */
  function Unquote(r: string, h: nat, t: nat): string {
    if h + t <= |r| then r[h..|r| - t] else []
  }

  /** Quoting keeps the text verbatim: it can be read back out. */
  lemma UnquoteQuote(head: string, text: string, tail: string)
    ensures Unquote(Quote(head, text, tail), |head|, |tail|) == text
  {
    var r := Quote(head, text, tail);
    assert r == head + text + tail;
    assert r[|head|..|r| - |tail|] == text;
  }

  /** Different texts give different quotes. */
  lemma QuoteInjective(head: string, a: string, b: string, tail: string)
    requires Quote(head, a, tail) == Quote(head, b, tail)
    ensures a == b
  {
    UnquoteQuote(head, a, tail);
    UnquoteQuote(head, b, tail);
  }

  /** `handleChoice`'s prompt: the label of the chosen button, quoted. */
  function ContinuationPrompt(choice: string): string {
    Quote(ContinuationHead(), choice, ContinuationTail())
  }

  // ---------------------------------------------------------------------
  // A turn

  /** The start of `generateStorySegment`: the buttons are disabled and the
      prompt joins the history as a user message. */
  function Begin(g: Game, prompt: string): (r: Game)
    requires Valid(g)
    ensures Valid(r) && r.disabled
    ensures r.messages == g.messages + [Message(User, prompt)]
    ensures r.slots == g.slots && r.box == g.box
  {
    AskKeepsHistory(g.messages, prompt);
    Game(g.messages + [Message(User, prompt)], g.slots, true, g.box)
  }

  /** The streaming loop, started once the request is accepted: the
      previous segment is released and the deltas are consumed. */
  function Streamed(box: Box, ds: seq<Delta>): (r: Box)
    requires box.Valid()
    ensures r.Valid()
    ensures r == Release(box) || Grows(Release(box), r)
  {
    FeedAllGrows(Release(box), Stream([], Release(box)), ds);
    FeedAll(Stream([], Release(box)), ds).box
  }

  /** The rest of `generateStorySegment`, given what the engine does. On
      success the reply joins the history, its story is written into the
      segment the loop created, its choices go on the buttons and the
      buttons are enabled. On failure the error paragraph is appended, the
      fallback labels go on the buttons, and the buttons stay as they
      were. */
  function Finish(g: Game, reply: Reply): (r: Game)
    requires Valid(g) && g.messages[|g.messages| - 1].role == User
    ensures Valid(r)
    ensures reply.Success? ==> r.messages == g.messages + [Message(Assistant, reply.final)]
    ensures !reply.Success? ==> r.messages == g.messages
    ensures reply.Success? ==> r.slots == UpdateChoices(ParseResponse(reply.final).choices) && !r.disabled
    ensures !reply.Success? ==> r.slots == Fallback && r.disabled == g.disabled
  {
    match reply
    case Success(ds, final) =>
      var p := ParseResponse(final);
      AnswerKeepsHistory(g.messages, final);
      Game(g.messages + [Message(Assistant, final)], UpdateChoices(p.choices), false,
           FinalDisplay(Streamed(g.box, ds), p.story))
    case RequestFailed =>
      FallbackLabels();
      Game(g.messages, UpdateChoices(Fallback), g.disabled, Box(g.box.paras + [ErrorNotice], g.box.current))
    case StreamFailed(ds) =>
      var b := Streamed(g.box, ds);
      FallbackLabels();
      Game(g.messages, UpdateChoices(Fallback), g.disabled, Box(b.paras + [ErrorNotice], b.current))
  }

  /** `generateStorySegment(prompt)` with the engine's reply. Exactly one
      user message is added, then one assistant message only on success;
      earlier messages are kept as they are. */
  function Generate(g: Game, prompt: string, reply: Reply): (r: Game)
    requires Valid(g)
    ensures Valid(r)
    ensures r.messages == g.messages + [Message(User, prompt)]
      + (if reply.Success? then [Message(Assistant, reply.final)] else [])
  {
    Finish(Begin(g, prompt), reply)
  }

  /** `startStory`: a turn with the opening prompt. */
  function StartStory(g: Game, reply: Reply): (r: Game)
    requires Valid(g)
    ensures Valid(r) && |r.messages| > |g.messages| && r.messages[|g.messages|] == Message(User, OpeningPrompt())
  {
    Generate(g, OpeningPrompt(), reply)
  }

  /** `handleChoice(i)`: the label on button `i` is quoted into the next
      prompt, all labels are cleared, and a turn follows. */
  function HandleChoice(g: Game, i: Slot, reply: Reply): (r: Game)
    requires Valid(g)
    ensures Valid(r)
    ensures |r.messages| > |g.messages| && r.messages[|g.messages|] == Message(User, ContinuationPrompt(g.slots[i as int]))
  {
    var choice := g.slots[i as int];
    Generate(g.(slots := ["", "", "", ""]), ContinuationPrompt(choice), reply)
  }

  /** A click on button `i`: a disabled button fires no event. */
  function Click(g: Game, i: Slot, reply: Reply): (r: Game)
    requires Valid(g)
    ensures Valid(r)
    ensures g.disabled ==> r == g
    ensures !g.disabled ==> r == HandleChoice(g, i, reply)
  {
    if g.disabled then g else HandleChoice(g, i, reply)
  }

  /** What the player does: press the start button or a choice button; each
      event carries the engine's reply to the turn it starts. */
  datatype Event = Start(reply: Reply) | Choose(slot: Slot, reply: Reply)

  function Step(g: Game, e: Event): (r: Game)
    requires Valid(g)
    ensures Valid(r)
    ensures |g.messages| <= |r.messages| <= |g.messages| + 2 && r.messages[..|g.messages|] == g.messages
  {
    match e
    case Start(reply) => StartStory(g, reply)
    case Choose(i, reply) => Click(g, i, reply)
  }

  /** A session: the events in order. */
  function Run(g: Game, es: seq<Event>): (r: Game)
    requires Valid(g)
    ensures Valid(r)
    decreases |es|
  {
    if es == [] then g else Run(Step(g, es[0]), es[1..])
  }

  // ---------------------------------------------------------------------
  // Properties of turns and sessions

  /** A session never rewrites the history: it only appends, so the system
      message of a fresh game is still first at the end. */
  lemma {:induction false} RunKeepsHistory(g: Game, es: seq<Event>)
    requires Valid(g)
    decreases |es|
    ensures |g.messages| <= |Run(g, es).messages| <= |g.messages| + 2 * |es|
    ensures Run(g, es).messages[..|g.messages|] == g.messages
  {
    if es != [] {
      var h := Step(g, es[0]);
      assert Run(g, es) == Run(h, es[1..]);
      RunKeepsHistory(h, es[1..]);
      var r := Run(h, es[1..]);
      assert r.messages[..|g.messages|] == r.messages[..|h.messages|][..|g.messages|];
    }
  }

  lemma RunFromStart(slots: seq<string>, disabled: bool, box: Box, es: seq<Event>)
    requires |slots| == 4 && box.Valid()
    ensures Run(Init(slots, disabled, box), es).messages[0] == SystemMessage()
  {
    var g := Init(slots, disabled, box);
    RunKeepsHistory(g, es);
    assert Run(g, es).messages[..1][0] == SystemMessage();
  }

  /** A successful turn puts the reply's four parsed choices on the buttons
      and enables them. */
  lemma SuccessShowsChoices(g: Game, prompt: string, ds: seq<Delta>, final: string)
    requires Valid(g) && final != []
    ensures Generate(g, prompt, Success(ds, final)).slots == ParseResponse(final).choices
    ensures !Generate(g, prompt, Success(ds, final)).disabled
  {
    UpdateChoicesOfParse(final);
  }

  /** A successful turn whose final message is empty shows the four
      placeholders. */
  lemma EmptyReplyShowsPlaceholders(g: Game, prompt: string, ds: seq<Delta>)
    requires Valid(g)
    ensures Generate(g, prompt, Success(ds, [])).slots == [Placeholder(1), Placeholder(2), Placeholder(3), Placeholder(4)]
  {
    UpdateChoicesOfNothing();
  }

  /** After a failed turn the buttons show the fallback labels and stay
      disabled, so no click has any effect until a turn succeeds. */
  lemma FailureLocksChoices(g: Game, prompt: string, reply: Reply, i: Slot, next: Reply)
    requires Valid(g) && !reply.Success?
    ensures Generate(g, prompt, reply).slots == Fallback
    ensures Generate(g, prompt, reply).disabled
    ensures Click(Generate(g, prompt, reply), i, next) == Generate(g, prompt, reply)
  {
  }

  /** The start button still works after a failure, and a successful start
      enables the buttons again. */
  lemma StartAfterFailure(g: Game, prompt: string, reply: Reply, ds: seq<Delta>, final: string)
    requires Valid(g) && !reply.Success?
    ensures var h := Generate(g, prompt, reply);
      && StartStory(h, Success(ds, final)).messages == h.messages + [Message(User, OpeningPrompt()), Message(Assistant, final)]
      && !StartStory(h, Success(ds, final)).disabled
  {
  }

  /** While a request is in flight the buttons are disabled, so a click
      changes nothing. */
  lemma ClickWhileWaiting(g: Game, prompt: string, i: Slot, reply: Reply)
    requires Valid(g)
    ensures Click(Begin(g, prompt), i, reply) == Begin(g, prompt)
  {
  }

  /** The prompt sent after a click quotes the clicked label verbatim
      between the fixed head and tail of the continuation prompt, so the
      label can be read back out of the history. */
  lemma ChoiceIsQuoted(g: Game, i: Slot, reply: Reply)
    requires Valid(g) && !g.disabled
    ensures var r := Click(g, i, reply);
      && |r.messages| > |g.messages|
      && r.messages[|g.messages|].role == User
      && Unquote(r.messages[|g.messages|].content, |ContinuationHead()|, |ContinuationTail()|) == g.slots[i as int]
  {
    var head, tail := ContinuationHead(), ContinuationTail();
    var q := Quote(head, g.slots[i as int], tail);
    assert Click(g, i, reply).messages[|g.messages|] == Message(User, q);
    UnquoteQuote(head, g.slots[i as int], tail);
  }

  /** The story box after a successful turn: the earlier paragraphs stay;
      at most one is added, the segment the stream created, and it ends up
      holding the parsed story with a leading label removed once more. No
      paragraph is marked current any longer. */
  lemma SuccessStoryBox(g: Game, prompt: string, ds: seq<Delta>, final: string)
    requires Valid(g)
    ensures var b := Generate(g, prompt, Success(ds, final)).box; var n := |g.box.paras|;
      && b.current.None?
      && n <= |b.paras| <= n + 1
      && b.paras[..n] == g.box.paras
      && (|b.paras| == n + 1 ==> b.paras[n] == StripStoryLabel(ParseResponse(final).story))
  {
    var n := |g.box.paras|;
    var s := Streamed(g.box, ds);
    var p := ParseResponse(final);
    var b := FinalDisplay(s, p.story);
    assert Generate(g, prompt, Success(ds, final)).box == b;
    if s.current.Some? {
      assert Grows(Release(g.box), s);
      assert b.paras == s.paras[n := StripStoryLabel(p.story)];
      assert b.paras[..n] == s.paras[..n];
    } else {
      assert s == Release(g.box) || Grows(Release(g.box), s);
    }
  }

  /** A failed turn ends the story box with the error paragraph, after the
      earlier paragraphs; a request that fails before streaming adds only
      that paragraph. */
  lemma FailureStoryBox(g: Game, prompt: string, reply: Reply)
    requires Valid(g) && !reply.Success?
    ensures var b := Generate(g, prompt, reply).box; var n := |g.box.paras|;
      && n + 1 <= |b.paras| <= n + 2
      && b.paras[..n] == g.box.paras
      && b.paras[|b.paras| - 1] == ErrorNotice
      && (reply.RequestFailed? ==> b.paras == g.box.paras + [ErrorNotice])
  {
    var n := |g.box.paras|;
    if reply.StreamFailed? {
      var s := Streamed(g.box, reply.deltas);
      assert s == Release(g.box) || Grows(Release(g.box), s);
      assert (s.paras + [ErrorNotice])[..n] == s.paras[..n];
    }
  }
}
