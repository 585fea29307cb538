/**
 * The event handlers of discord_gemini_bot.py: `on_ready` and `on_message`.
 *
 * `Route` is the routing decision as a value. From the configuration, the bot's state,
 * the incoming message and what the outside world answers, it gives the ordered list of
 * effects the handler performs. `Apply` is what those effects do to the bot's state.
 * The class `Bot` performs the same handler step by step on its fields, and its
 * contracts tie each step to `Route` and `Apply`.
 */
module Orchestrator {
  import opened Wrappers
  import opened Text
  import Classifier
  import Redaction
  import BrandContext
  import Gemini
  import Stats

  datatype Channel = Channel(id: nat, name: string)

  datatype Message = Message(author: string, content: string, channel: Channel, jumpUrl: Option<string>)

  /** The environment settings the handlers read. */
  datatype Config = Config(
    moderatorChannelName: string,
    autoPost: bool,
    brandName: string,
    brandTone: string,
    apiKeyConfigured: bool)

  /**
   * What the outside world supplies while one message is handled: the text the model
   * calls produce, the three clock readings, whether the moderator-channel send raises,
   * and the brand file's contents (`None` when it is missing).
   */
  datatype World = World(
    backendText: string,
    sentAt: int,
    receivedAt: int,
    loggedAt: int,
    moderatorSendFails: bool,
    brandFile: Option<string>)

  /** One persisted line of the interaction log. */
  datatype Interaction = Interaction(
    timestamp: int,
    sentAt: int,
    receivedAt: int,
    user: string,
    content: string,
    reply: string,
    channel: string,
    model: string)

  /** The parts `make_prompt` splices into its template; the text sent is `PromptText`. */
  datatype PromptRequest = PromptRequest(message: string, brandName: string, brandTone: string, brandInfo: string)

  function PromptText(req: PromptRequest): string {
    BrandContext.MakePrompt(req.message, req.brandName, req.brandTone, req.brandInfo)
  }

  /** The parts of the suggestion shown to moderators; the text is `SuggestionText`. */
  datatype Suggestion = Suggestion(model: string, reply: string, author: string, redacted: string, jumpUrl: Option<string>)

  /**
   * The effects of the handler, in order: a stats report or a brand reload, a model call,
   * a persisted record, and the messages sent or printed.
   */
  datatype Action =
    | ReportStats(total: nat, average: real)
    | ReloadBrand(info: string)
    | Generate(model: string, request: PromptRequest)
    | Persist(record: Interaction)
    | SendModerator(suggestion: Suggestion)
    | LogConsole(suggestion: Suggestion)
    | SendOrigin(text: string)

  /** The bot's mutable state: the selected model, the loaded brand context, the channels found at start-up and the log file. */
  datatype State = State(
    selectedModel: string,
    brandInfo: string,
    target: Option<Channel>,
    moderator: Option<Channel>,
    log: Option<seq<Stats.LogLine>>)

  const StatsCommand := "!stats"
  const RefreshCommand := "!refresh"
  const RefreshNotice := "Brand info reloaded."
  const DeliveryErrorNotice := "Error delivering suggestion to moderator channel; see logs."

  /** The message text the handler works on. */
  function Stripped(msg: Message): string {
    Strip(msg.content)
  }

  /** A moderator command: the command word, in any letter case, posted in the moderator-named channel. */
  predicate IsCommand(cfg: Config, msg: Message, command: string) {
    msg.channel.name == cfg.moderatorChannelName && Lower(Stripped(msg)) == command
  }

  /** The record persisted for a handled question. */
  function LineOf(record: Interaction): Stats.LogLine {
    Stats.Parsed(Some(record.sentAt), Some(record.receivedAt))
  }

  // The fixed parts of the suggestion text.
  const OutputHead := "**Suggested Reply (model: "
  const OutputQuote := ")**\n> "
  const OutputFrom := "\n\n\U{1F464} From: "
  const OutputMessage := "\n\U{1F4AC} Message: "
  const OutputLink := "\n\U{1F4CE} Link: "

  function OutputFooter(author: string, redacted: string, jumpUrl: Option<string>): string {
    OutputFrom + author + OutputMessage + redacted + OutputLink + jumpUrl.GetOr("n/a")
  }

  /** The suggestion text: the model, the quoted reply, the author, the redacted message and the link. */
  function SuggestionText(s: Suggestion): string {
    OutputHead + s.model + OutputQuote + s.reply + OutputFooter(s.author, s.redacted, s.jumpUrl)
  }

  /** The suggestion shows the reply and the redacted message verbatim. */
  lemma SuggestionShows(s: Suggestion)
    ensures Contains(SuggestionText(s), s.reply)
    ensures Contains(SuggestionText(s), s.redacted)
  {
    var head := OutputHead + s.model + OutputQuote;
    var link := OutputLink + s.jumpUrl.GetOr("n/a");
    var footer := OutputFooter(s.author, s.redacted, s.jumpUrl);
    ContainsSelf(s.reply);
    ContainsPrepend(head, s.reply, s.reply);
    ContainsAppend(head + s.reply, s.reply, footer);
    ContainsSelf(s.redacted);
    ContainsPrepend(OutputFrom + s.author + OutputMessage, s.redacted, s.redacted);
    ContainsAppend(OutputFrom + s.author + OutputMessage + s.redacted, s.redacted, link);
    assert footer == OutputFrom + s.author + OutputMessage + s.redacted + link;
    ContainsPrepend(head + s.reply, footer, s.redacted);
  }

  /**
   * Where the suggestion goes: to the moderator channel, with an error notice to the origin
   * channel if that send fails; or, with no moderator channel, to the console, and with
   * auto-posting on, the reply to the origin channel. Then, with auto-posting on, the reply
   * goes to the origin channel (again).
   */
  function Deliver(suggestion: Suggestion, moderatorFound: bool, sendFails: bool, autoPost: bool): (r: seq<Action>)
    ensures 1 <= |r| <= 3
    ensures (SendModerator(suggestion) in r) == moderatorFound
    ensures (LogConsole(suggestion) in r) == !moderatorFound
    ensures moderatorFound && sendFails ==> SendOrigin(DeliveryErrorNotice) in r
    ensures autoPost ==> r[|r| - 1] == SendOrigin(suggestion.reply)
    ensures forall k :: 0 <= k < |r| ==> Inert(r[k]) && IsSend(r[k])
  {
    (if moderatorFound then
       [SendModerator(suggestion)] + (if sendFails then [SendOrigin(DeliveryErrorNotice)] else [])
     else
       [LogConsole(suggestion)] + (if autoPost then [SendOrigin(suggestion.reply)] else []))
    + (if autoPost then [SendOrigin(suggestion.reply)] else [])
  }

  /** The effects of answering: the model call, the persisted record, then the deliveries. */
  function Answer(model: string, request: PromptRequest, record: Interaction, suggestion: Suggestion,
                  moderatorFound: bool, sendFails: bool, autoPost: bool): seq<Action> {
    [Generate(model, request), Persist(record)] + Deliver(suggestion, moderatorFound, sendFails, autoPost)
  }

  /** The message as it is logged, sent to the model and shown to moderators. */
  function Redacted(msg: Message): string {
    Redaction.RedactPii(Stripped(msg))
  }

  function ReplyFor(cfg: Config, w: World): string {
    Gemini.GeminiReply(cfg.apiKeyConfigured, w.backendText)
  }

  function RequestFor(cfg: Config, st: State, msg: Message): PromptRequest {
    PromptRequest(Redacted(msg), cfg.brandName, cfg.brandTone, st.brandInfo)
  }

  function RecordFor(cfg: Config, st: State, msg: Message, w: World): Interaction {
    Interaction(w.loggedAt, w.sentAt, w.receivedAt, msg.author, Redacted(msg), ReplyFor(cfg, w), msg.channel.name, st.selectedModel)
  }

  function SuggestionFor(cfg: Config, st: State, msg: Message, w: World): Suggestion {
    Suggestion(st.selectedModel, ReplyFor(cfg, w), msg.author, Redacted(msg), msg.jumpUrl)
  }

  /** The effects of handling a product question. */
  function Respond(cfg: Config, st: State, msg: Message, w: World): seq<Action> {
    Answer(st.selectedModel, RequestFor(cfg, st, msg), RecordFor(cfg, st, msg, w), SuggestionFor(cfg, st, msg, w),
           st.moderator.Some?, w.moderatorSendFails, cfg.autoPost)
  }

  /**
   * The decision `on_message` takes, as the ordered list of its effects. Messages the bot
   * wrote itself cause nothing, and a message that is not a command causes something only
   * when it is answered.
   */
  function Route(cfg: Config, self: string, st: State, msg: Message, w: World): (r: seq<Action>)
    ensures msg.author == self ==> r == []
    ensures NotACommand(cfg, msg) && |r| > 0 ==> Answered(cfg, self, st, msg)
  {
    if msg.author == self then []
    else if IsCommand(cfg, msg, StatsCommand) then
      var lines := Stats.LogLines(st.log);
      [ReportStats(Stats.ParsedCount(lines), Stats.Mean(Stats.Latencies(lines)))]
    else if IsCommand(cfg, msg, RefreshCommand) then
      [ReloadBrand(BrandContext.LoadBrandInfo(w.brandFile)), SendOrigin(RefreshNotice)]
    else if st.target.Some? && msg.channel.id != st.target.value.id then []
    else if !Classifier.IsProductQuestion(Stripped(msg)) then []
    else Respond(cfg, st, msg, w)
  }

  /** What one effect does to the state: reloading replaces the brand context, persisting appends a log line. */
  function Step(st: State, a: Action): (r: State)
    ensures r.selectedModel == st.selectedModel && r.target == st.target && r.moderator == st.moderator
    ensures Inert(a) ==> r == st
  {
    match a
    case ReloadBrand(info) => st.(brandInfo := info)
    case Persist(record) => st.(log := Some(Stats.LogLines(st.log) + [LineOf(record)]))
    case _ => st
  }

  /** The effects in order; none of them changes the selected model or the channels. */
  function Apply(st: State, acts: seq<Action>): (r: State)
    ensures r.selectedModel == st.selectedModel && r.target == st.target && r.moderator == st.moderator
    decreases |acts|
  {
    if |acts| == 0 then st else Apply(Step(st, acts[0]), acts[1..])
  }

  /** An effect that leaves the state alone. */
  predicate Inert(a: Action) {
    !a.ReloadBrand? && !a.Persist?
  }

  /** A message sent somewhere, or printed. */
  predicate IsSend(a: Action) {
    a.SendModerator? || a.SendOrigin? || a.LogConsole?
  }

  lemma {:induction false} ApplyConcat(st: State, a: seq<Action>, b: seq<Action>)
    ensures Apply(st, a + b) == Apply(Apply(st, a), b)
    decreases |a|
  {
    if |a| == 0 {
      assert a + b == b;
    } else {
      assert (a + b)[0] == a[0];
      assert (a + b)[1..] == a[1..] + b;
      ApplyConcat(Step(st, a[0]), a[1..], b);
    }
  }

  lemma ApplyTwo(st: State, x: Action, y: Action)
    ensures Apply(st, [x, y]) == Step(Step(st, x), y)
  {
    assert [x, y][0] == x && [x, y][1..] == [y];
    assert Apply(st, [x, y]) == Apply(Step(st, x), [y]);
    assert [y][0] == y && [y][1..] == [];
    assert Apply(Step(st, x), [y]) == Apply(Step(Step(st, x), y), []);
  }

  lemma {:induction false} ApplyInert(st: State, acts: seq<Action>)
    requires forall k :: 0 <= k < |acts| ==> Inert(acts[k])
    ensures Apply(st, acts) == st
    decreases |acts|
  {
    if |acts| > 0 {
      ApplyInert(Step(st, acts[0]), acts[1..]);
    }
  }

  /**
   * The six delivery cases. With no moderator channel and auto-posting on, the reply
   * reaches the origin channel twice; with a moderator channel it goes there and, with
   * auto-posting on, once to the origin; a failed moderator send puts the error notice in
   * the origin channel before any auto-post.
   */
  lemma DeliverCases(sg: Suggestion, moderatorFound: bool, sendFails: bool, autoPost: bool)
    ensures var d := Deliver(sg, moderatorFound, sendFails, autoPost);
      && (!moderatorFound && autoPost ==> d == [LogConsole(sg), SendOrigin(sg.reply), SendOrigin(sg.reply)])
      && (!moderatorFound && !autoPost ==> d == [LogConsole(sg)])
      && (moderatorFound && !sendFails && autoPost ==> d == [SendModerator(sg), SendOrigin(sg.reply)])
      && (moderatorFound && !sendFails && !autoPost ==> d == [SendModerator(sg)])
      && (moderatorFound && sendFails && autoPost ==>
            d == [SendModerator(sg), SendOrigin(DeliveryErrorNotice), SendOrigin(sg.reply)])
      && (moderatorFound && sendFails && !autoPost ==> d == [SendModerator(sg), SendOrigin(DeliveryErrorNotice)])
  {
  }

  /**
   * Answering calls the model first and persists the record second; every later effect is
   * a send, none earlier is; and the only change to the state is the appended log line.
   */
  lemma AnswerShape(st: State, model: string, request: PromptRequest, record: Interaction, sg: Suggestion,
                    moderatorFound: bool, sendFails: bool, autoPost: bool)
    ensures var acts := Answer(model, request, record, sg, moderatorFound, sendFails, autoPost);
      && |acts| >= 3
      && acts[0] == Generate(model, request)
      && acts[1] == Persist(record)
      && acts[2..] == Deliver(sg, moderatorFound, sendFails, autoPost)
      && (forall k :: 0 <= k < |acts| ==> (IsSend(acts[k]) <==> 2 <= k))
      && (forall k :: 0 <= k < |acts| ==> !acts[k].ReportStats? && !acts[k].ReloadBrand?)
      && Apply(st, acts) == st.(log := Some(Stats.LogLines(st.log) + [LineOf(record)]))
  {
    var acts := Answer(model, request, record, sg, moderatorFound, sendFails, autoPost);
    var head := [Generate(model, request), Persist(record)];
    var tail := Deliver(sg, moderatorFound, sendFails, autoPost);
    DeliverCases(sg, moderatorFound, sendFails, autoPost);
    assert acts[2..] == tail;
    forall k | 2 <= k < |acts|
      ensures Inert(acts[k]) && IsSend(acts[k])
    {
      assert acts[k] == tail[k - 2];
    }
    ApplyTwo(st, head[0], head[1]);
    ApplyConcat(st, head, tail);
    ApplyInert(Apply(st, head), tail);
  }

  /** `AnswerShape` for the parts of an actual message. */
  lemma RespondShape(cfg: Config, st: State, msg: Message, w: World)
    ensures var acts := Respond(cfg, st, msg, w);
      && |acts| >= 3
      && acts[0] == Generate(st.selectedModel, RequestFor(cfg, st, msg))
      && acts[1] == Persist(RecordFor(cfg, st, msg, w))
      && acts[2..] == Deliver(SuggestionFor(cfg, st, msg, w), st.moderator.Some?, w.moderatorSendFails, cfg.autoPost)
      && (forall k :: 0 <= k < |acts| ==> (IsSend(acts[k]) <==> 2 <= k))
      && (forall k :: 0 <= k < |acts| ==> !acts[k].ReportStats? && !acts[k].ReloadBrand?)
      && Apply(st, acts) == st.(log := Some(Stats.LogLines(st.log) + [LineOf(RecordFor(cfg, st, msg, w))]))
  {
    AnswerShape(st, st.selectedModel, RequestFor(cfg, st, msg), RecordFor(cfg, st, msg, w), SuggestionFor(cfg, st, msg, w),
                st.moderator.Some?, w.moderatorSendFails, cfg.autoPost);
  }

  // ---------------------------------------------------------------------------------------
  // Routing properties.

  /** Neither command: the message goes down the question path. */
  predicate NotACommand(cfg: Config, msg: Message) {
    !IsCommand(cfg, msg, StatsCommand) && !IsCommand(cfg, msg, RefreshCommand)
  }

  /** Stats reports and brand reloads happen only for the matching command in the moderator channel. */
  lemma CommandsOnlyInModeratorChannel(cfg: Config, self: string, st: State, msg: Message, w: World, k: nat)
    requires k < |Route(cfg, self, st, msg, w)|
    ensures Route(cfg, self, st, msg, w)[k].ReportStats? ==>
      msg.author != self && IsCommand(cfg, msg, StatsCommand)
    ensures Route(cfg, self, st, msg, w)[k].ReloadBrand? ==>
      msg.author != self && IsCommand(cfg, msg, RefreshCommand)
  {
    if msg.author != self && NotACommand(cfg, msg) {
      RespondShape(cfg, st, msg, w);
    }
  }

  /** `!stats` in the moderator channel reports the log's counted lines and mean latency, and does nothing else. */
  lemma StatsCommandReports(cfg: Config, self: string, st: State, msg: Message, w: World)
    requires msg.author != self && IsCommand(cfg, msg, StatsCommand)
    ensures Route(cfg, self, st, msg, w) == [ReportStats(
      Stats.ParsedCount(Stats.LogLines(st.log)), Stats.Mean(Stats.Latencies(Stats.LogLines(st.log))))]
    ensures Apply(st, Route(cfg, self, st, msg, w)) == st
  {
  }

  /** `!refresh` in the moderator channel reloads the brand context, acknowledges, and changes nothing else. */
  lemma RefreshCommandReloads(cfg: Config, self: string, st: State, msg: Message, w: World)
    requires msg.author != self && IsCommand(cfg, msg, RefreshCommand)
    ensures Route(cfg, self, st, msg, w)
      == [ReloadBrand(BrandContext.LoadBrandInfo(w.brandFile)), SendOrigin(RefreshNotice)]
    ensures Apply(st, Route(cfg, self, st, msg, w)) == st.(brandInfo := BrandContext.LoadBrandInfo(w.brandFile))
  {
    ApplyTwo(st, ReloadBrand(BrandContext.LoadBrandInfo(w.brandFile)), SendOrigin(RefreshNotice));
  }

  /** With a target channel found, messages elsewhere are ignored. */
  lemma OtherChannelIgnored(cfg: Config, self: string, st: State, msg: Message, w: World)
    requires NotACommand(cfg, msg)
    requires st.target.Some? && msg.channel.id != st.target.value.id
    ensures Route(cfg, self, st, msg, w) == []
  {
  }

  /** Messages that do not look like product questions are ignored. */
  lemma NonQuestionIgnored(cfg: Config, self: string, st: State, msg: Message, w: World)
    requires NotACommand(cfg, msg)
    requires !Classifier.IsProductQuestion(Stripped(msg))
    ensures Route(cfg, self, st, msg, w) == []
  {
  }

  /** The message is one the bot answers. */
  predicate Answered(cfg: Config, self: string, st: State, msg: Message) {
    msg.author != self && NotACommand(cfg, msg)
    && (st.target.None? || msg.channel.id == st.target.value.id)
    && Classifier.IsProductQuestion(Stripped(msg))
  }

  /**
   * An answered question first asks the selected model with a prompt built from the
   * redacted message, then persists the record, and only after that sends anything.
   */
  lemma AnsweredPersistsBeforeSending(cfg: Config, self: string, st: State, msg: Message, w: World)
    requires Answered(cfg, self, st, msg)
    ensures var acts := Route(cfg, self, st, msg, w);
      && |acts| >= 3
      && acts[0] == Generate(st.selectedModel, PromptRequest(Redacted(msg), cfg.brandName, cfg.brandTone, st.brandInfo))
      && acts[1].Persist?
      && acts[1].record.content == Redacted(msg)
      && acts[1].record.reply == Gemini.GeminiReply(cfg.apiKeyConfigured, w.backendText)
      && acts[1].record.model == st.selectedModel
      && acts[1].record.sentAt == w.sentAt && acts[1].record.receivedAt == w.receivedAt
      && (forall k :: 0 <= k < |acts| ==> (IsSend(acts[k]) <==> 2 <= k))
  {
    RespondShape(cfg, st, msg, w);
  }

  /**
   * The prompt sent for an answered question holds the brand name, tone and context, and
   * the redacted message, capped, between triple quotes.
   */
  lemma PromptCarriesRedactedMessage(cfg: Config, self: string, st: State, msg: Message, w: World)
    requires Answered(cfg, self, st, msg)
    ensures Route(cfg, self, st, msg, w)[0].Generate?
    ensures var prompt := PromptText(Route(cfg, self, st, msg, w)[0].request);
      && Contains(prompt, BrandContext.TripleQuote + BrandContext.CapUserMessage(Redacted(msg)) + BrandContext.TripleQuote)
      && Contains(prompt, cfg.brandName) && Contains(prompt, cfg.brandTone) && Contains(prompt, st.brandInfo)
  {
    assert Route(cfg, self, st, msg, w)[0] == Generate(st.selectedModel, RequestFor(cfg, st, msg));
  }

  /**
   * After the record is persisted, an answered question is delivered as `Deliver` says for
   * whether a moderator channel was found, whether sending there fails and whether
   * auto-posting is on (the cases are spelled out by `DeliverCases`), and the suggestion
   * carries the selected model, the reply, the author, the redacted message and the link.
   */
  lemma DeliveryFollowsChannels(cfg: Config, self: string, st: State, msg: Message, w: World)
    requires Answered(cfg, self, st, msg)
    ensures Route(cfg, self, st, msg, w)[2..] == Deliver(
      Suggestion(st.selectedModel, Gemini.GeminiReply(cfg.apiKeyConfigured, w.backendText), msg.author, Redacted(msg), msg.jumpUrl),
      st.moderator.Some?, w.moderatorSendFails, cfg.autoPost)
  {
    RespondShape(cfg, st, msg, w);
  }

  /**
   * An answered question appends its record's line, with the two clock readings, to the
   * log; `Stats.AppendTimed` says that such a line adds one to the count and its latency,
   * the reply's arrival minus the request's departure, to the latencies.
   */
  lemma AnsweredAppendsLine(cfg: Config, self: string, st: State, msg: Message, w: World)
    requires Answered(cfg, self, st, msg)
    ensures Apply(st, Route(cfg, self, st, msg, w)).log
      == Some(Stats.LogLines(st.log) + [Stats.Parsed(Some(w.sentAt), Some(w.receivedAt))])
  {
    RespondShape(cfg, st, msg, w);
  }

  /** An answered question adds one counted line to the log. */
  lemma AnsweredIsCounted(cfg: Config, self: string, st: State, msg: Message, w: World)
    requires Answered(cfg, self, st, msg)
    ensures Stats.ParsedCount(Stats.LogLines(Apply(st, Route(cfg, self, st, msg, w)).log))
      == Stats.ParsedCount(Stats.LogLines(st.log)) + 1
  {
    AnsweredAppendsLine(cfg, self, st, msg, w);
    Stats.AppendTimed(st.log, Apply(st, Route(cfg, self, st, msg, w)).log, w.sentAt, w.receivedAt);
  }

  /** Only `!refresh` changes the brand context, and only an answered question changes the log. */
  lemma StateChanges(cfg: Config, self: string, st: State, msg: Message, w: World)
    ensures var after := Apply(st, Route(cfg, self, st, msg, w));
      && after.selectedModel == st.selectedModel
      && after.target == st.target && after.moderator == st.moderator
      && (after.brandInfo != st.brandInfo ==> msg.author != self && IsCommand(cfg, msg, RefreshCommand))
      && (after.log != st.log ==> Answered(cfg, self, st, msg))
  {
    if msg.author == self {
    } else if IsCommand(cfg, msg, StatsCommand) {
    } else if IsCommand(cfg, msg, RefreshCommand) {
      RefreshCommandReloads(cfg, self, st, msg, w);
    } else if st.target.Some? && msg.channel.id != st.target.value.id {
    } else if !Classifier.IsProductQuestion(Stripped(msg)) {
    } else {
      RespondShape(cfg, st, msg, w);
    }
  }

  // ---------------------------------------------------------------------------------------
  // The handlers, performed on the bot's fields.

  class Bot {
    const config: Config
    const selfUser: string
    var selectedModel: string
    var brandInfo: string
    var targetChannel: Option<Channel>
    var moderatorChannel: Option<Channel>
    /** The interaction log file, `None` while it does not exist. */
    var log: Option<seq<Stats.LogLine>>

    /** The selected model is always one of the preferences, so it is never empty. */
    ghost predicate Valid()
      reads this
    {
      selectedModel in Gemini.PreferredModels
    }

    function View(): State
      reads this
    {
      State(selectedModel, brandInfo, targetChannel, moderatorChannel, log)
    }

    /** The bot before start-up: the default model, no brand context and no channels yet. */
    constructor(config: Config, selfUser: string, log: Option<seq<Stats.LogLine>>)
      ensures Valid()
      ensures this.config == config && this.selfUser == selfUser
      ensures View() == State(Gemini.InitialModel, "", None, None, log)
    {
      this.config := config;
      this.selfUser := selfUser;
      selectedModel := Gemini.InitialModel;
      brandInfo := "";
      targetChannel := None;
      moderatorChannel := None;
      this.log := log;
    }

    /** `pick_model`: walk the preferences in order and select the first one listed. */
    method PickModel(names: seq<string>) returns (m: string)
      modifies this
      ensures Valid()
      ensures m == Gemini.ChooseModel(Gemini.PreferredModels, names)
      ensures View() == old(View()).(selectedModel := m)
    {
      var prefs := Gemini.PreferredModels;
      var i := 0;
      while i < |prefs|
        invariant 0 <= i <= |prefs|
        invariant forall j :: 0 <= j < i ==> !Gemini.Listed(prefs[j], names)
        invariant View() == old(View())
      {
        if Gemini.Listed(prefs[i], names) {
          Gemini.FirstListedAt(prefs, names, i);
          selectedModel := prefs[i];
          m := selectedModel;
          return;
        }
        i := i + 1;
      }
      Gemini.ChooseModelFirstListed(prefs, names);
      selectedModel := prefs[0];
      m := selectedModel;
    }

    /** `on_ready`: select the model, load the brand context and remember the channels found by name. */
    method OnReady(names: seq<string>, brandFile: Option<string>, target: Option<Channel>, moderator: Option<Channel>)
      modifies this
      ensures Valid()
      ensures View() == State(Gemini.ChooseModel(Gemini.PreferredModels, names),
        BrandContext.LoadBrandInfo(brandFile), target, moderator, old(log))
    {
      var _ := PickModel(names);
      brandInfo := BrandContext.LoadBrandInfo(brandFile);
      targetChannel := target;
      moderatorChannel := moderator;
    }

    /** `on_message`: the effects performed are those `Route` decides, and the new state is what they do. */
    method OnMessage(msg: Message, w: World) returns (acts: seq<Action>)
      requires Valid()
      modifies this
      ensures Valid()
      ensures acts == Route(config, selfUser, old(View()), msg, w)
      ensures View() == Apply(old(View()), acts)
    {
      if msg.author == selfUser {
        return [];
      }
      var stripped := Strip(msg.content);
      if msg.channel.name == config.moderatorChannelName {
        if Lower(stripped) == StatsCommand {
          var total, average := Stats.ComputeStats(log);
          return [ReportStats(total, average)];
        }
        if Lower(stripped) == RefreshCommand {
          ApplyTwo(View(), ReloadBrand(BrandContext.LoadBrandInfo(w.brandFile)), SendOrigin(RefreshNotice));
          brandInfo := BrandContext.LoadBrandInfo(w.brandFile);
          return [ReloadBrand(brandInfo), SendOrigin(RefreshNotice)];
        }
      }
      if targetChannel.Some? && msg.channel.id != targetChannel.value.id {
        return [];
      }
      if !Classifier.IsProductQuestion(stripped) {
        return [];
      }
      acts := AnswerQuestion(msg, w);
    }

    /** The sends after the record is persisted, as `on_message` performs them. */
    method DeliverSuggestion(suggestion: Suggestion, sendFails: bool) returns (delivered: seq<Action>)
      ensures delivered == Deliver(suggestion, moderatorChannel.Some?, sendFails, config.autoPost)
    {
      if moderatorChannel.Some? {
        delivered := [SendModerator(suggestion)];
        if sendFails {
          delivered := delivered + [SendOrigin(DeliveryErrorNotice)];
        }
      } else {
        delivered := [LogConsole(suggestion)];
        if config.autoPost {
          delivered := delivered + [SendOrigin(suggestion.reply)];
        }
      }
      if config.autoPost {
        delivered := delivered + [SendOrigin(suggestion.reply)];
      }
      DeliverCases(suggestion, moderatorChannel.Some?, sendFails, config.autoPost);
    }

    /** The question path of `on_message`: redact, build the prompt, call the model, persist, deliver. */
    method AnswerQuestion(msg: Message, w: World) returns (acts: seq<Action>)
      modifies this
      ensures acts == Respond(config, old(View()), msg, w)
      ensures View() == Apply(old(View()), acts)
      ensures selectedModel == old(selectedModel)
    {
      ghost var st := View();
      var redacted := Redaction.RedactPii(Strip(msg.content));
      var request := PromptRequest(redacted, config.brandName, config.brandTone, brandInfo);
      var reply := Gemini.GeminiReply(config.apiKeyConfigured, w.backendText);
      var record := Interaction(w.loggedAt, w.sentAt, w.receivedAt, msg.author, redacted, reply, msg.channel.name, selectedModel);
      log := Some(Stats.LogLines(log) + [LineOf(record)]);
      var suggestion := Suggestion(selectedModel, reply, msg.author, redacted, msg.jumpUrl);
      var delivered := DeliverSuggestion(suggestion, w.moderatorSendFails);
      acts := [Generate(selectedModel, request), Persist(record)] + delivered;
      assert request == RequestFor(config, st, msg) && record == RecordFor(config, st, msg, w);
      assert suggestion == SuggestionFor(config, st, msg, w);
      assert acts == Respond(config, st, msg, w);
      AnswerShape(st, selectedModel, request, record, suggestion, moderatorChannel.Some?, w.moderatorSendFails, config.autoPost);
    }
  }
}
