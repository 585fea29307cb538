# Discord product-question triage bot, modelled in Dafny

The bot watches a Discord server for customer questions. It decides with a cheap keyword
heuristic whether a message is a product question. For one that is, it redacts e-mail
addresses and long digit runs, and splices the redacted message and a local brand-context
file into a fixed instruction prompt. It asks a Gemini model for a suggested reply, appends
a record of the exchange to a JSON-lines log, and forwards the suggestion to a moderator
channel. Without a moderator channel it prints the suggestion to the console. With
auto-posting enabled it also posts the reply in the channel the question came from.
Moderators have two commands:

- `!stats` reports how many interactions the log holds and their average model latency;
- `!refresh` reloads the brand context.

The project models:

- **`Text`**: the string operations the bot relies on, on an ASCII view of characters:
  lower-casing, stripping whitespace, and the substring test.
- **`Regex`**: the two redaction patterns and Python's `re.sub` over them, as a
  left-to-right scanner. A declarative description of the matched shapes is proved to agree
  with the scanner.
- **`Helper` and `Redaction`**: the helper module's `redact_pii`, and the bot's own copy of
  it, which adds a guard for empty text. The two are proved to agree.
- **`Classifier`**: `is_product_question`.
- **`BrandContext`**: loading and capping the brand context, and composing the prompt.
- **`Gemini`**: model selection by preference order, and the missing-key reply of the model
  call.
- **`Stats`**: the `!stats` scan of the interaction log, as an imperative loop proved
  against a fold.
- **`Orchestrator`**: the event handlers. `Route` is the routing decision of `on_message`
  as the ordered list of effects it performs, and `Apply` is what those effects do to the
  bot's state. The class `Orchestrator.Bot` keeps that state in fields. Its `OnReady` and
  `OnMessage` methods update the fields step by step, and their contracts tie the result to
  `Route` and `Apply`.

Effects (`Orchestrator.Action`) are values: a stats report, a brand reload, a model call, a
persisted record, a moderator-channel send, a console print and a send to the origin
channel. Everything the handler learns from outside is a parameter
(`Orchestrator.World`):

- the text the model call produces;
- the three clock readings;
- whether the moderator send raises;
- the contents of the brand file.

With no moderator channel and auto-posting on, the handler, as written, posts the reply to
the origin channel twice: once in the fallback branch (`discord_gemini_bot.py:404-405`) and
once in the auto-post block that follows it (`discord_gemini_bot.py:408-410`). The model
keeps this behaviour, and `Orchestrator.DeliverCases` states it.

Where the code and its surrounding description differ, the model follows the code. For
example, `!refresh` is a command only in the channel named like the moderator channel. It
is compared by name, not against the channel found at start-up. The target-channel check
compares channels by id, as Discord channel objects compare.

## Model

| member | source | states |
|---|---|---|
| Text.LowerChar | discord_gemini_bot.py:97 | an upper-case ASCII letter maps to its lower-case letter (code + 32), every other character to itself, and the result is never upper case |
| Text.Lower | discord_gemini_bot.py:97 | lower-casing keeps the length and maps each character by `LowerChar` |
| Text.LowerOfLowercase | discord_gemini_bot.py:315 | text without upper-case letters is its own lower case, so `!stats` typed in lower case is recognised as is |
| Text.LowerIdempotent | discord_gemini_bot.py:97 | lower-casing twice equals lower-casing once |
| Text.TrimStart | discord_gemini_bot.py:313 | the result is a suffix of the input; everything dropped is whitespace; a non-empty result does not start with whitespace |
| Text.TrimEnd | discord_gemini_bot.py:313 | the result is a prefix of the input; everything dropped is whitespace; a non-empty result does not end with whitespace |
| Text.Strip | discord_gemini_bot.py:313 | stripping never lengthens the text, and a non-empty stripped text neither starts nor ends with whitespace |
| Text.StripIsTrimmedSlice | discord_gemini_bot.py:125 | the stripped text is a contiguous slice of the input, and every character outside the slice is whitespace |
| Text.StripIdempotent | discord_gemini_bot.py:142 | stripping an already stripped text changes nothing |
| Text.Contains | discord_gemini_bot.py:100-105 | a substring is never longer than the text it occurs in, and the empty string occurs in every text, as with Python's `in` |
| Regex.RunEnd | utils/helper.py:4 | a greedy character-class run ends at or after its start; every character it covers is in the class; the character after it is not |
| Regex.RunEndExact | utils/helper.py:4 | a run known to stop at `j` is found to end exactly at `j` |
| Regex.RunEndAtLeast | utils/helper.py:4 | the maximal run reaches at least as far as any run of the class from the same start |
| Regex.RunEndStopsAt | utils/helper.py:4 | a run cannot pass a character outside its class |
| Regex.TldSearch | utils/helper.py:4 | a found top-level-domain end is at least three characters after the domain start and within the text |
| Regex.TldSearchSound | utils/helper.py:4 | a found end is where the maximal word run after some dot strictly inside the domain run stops, two or more characters after that dot |
| Regex.TldSearchLongest | utils/helper.py:4 | any dot strictly inside the domain run that is followed by two or more word characters guarantees a match, ending no earlier than that dot's word run |
| Regex.EmailMatchAt | utils/helper.py:4 | an e-mail match starting at `i` is non-empty and ends within the text |
| Regex.EmailMatchSound | utils/helper.py:4 | every reported e-mail match has the pattern's shape: local part, `@`, domain, dot, a top-level part of two or more word characters, and `\b` at both ends |
| Regex.EmailMatchLongest | utils/helper.py:4 | every e-mail-shaped span is found by the scanner, and the scanner's greedy match is at least as long |
| Regex.EmailMatchHasAt | utils/helper.py:4 | every e-mail match contains an `@` |
| Regex.NumberMatchAt | utils/helper.py:5 | a number match starting at `i` is non-empty and ends within the text |
| Regex.NumberMatchIff | utils/helper.py:5 | the scanner reports a number match from `i` to `e` exactly when `s[i..e]` is six or more digits with `\b` on both sides (both directions) |
| Regex.NoNumberMatchAtNonDigit | utils/helper.py:5 | no number match starts at a non-digit |
| Regex.NoNumberMatchInsideWord | utils/helper.py:5 | no number match starts right after a word character, so digits glued to letters are never a number match |
| Regex.NumberMatchHasRun | utils/helper.py:5 | every number match starts with at least six digits |
| Regex.MatchAt | utils/helper.py:4-5 | a match of either pattern is non-empty: neither pattern matches the empty string |
| Regex.SubFrom | utils/helper.py:4-5 | with a non-empty replacement, the substituted rest of the text is empty exactly when the scan starts at the end of the text |
| Regex.SubFromNoMatch | utils/helper.py:4-5 | where no match starts at any position from the scan point on, substitution copies the rest of the text unchanged |
| Regex.Sub | utils/helper.py:4-5 | after a pass whose replacement is a bracketed placeholder, no match of the pattern is left in the result |
| Regex.SubFromKeep | utils/helper.py:4-5 | a position where no match starts keeps its character, and scanning moves on by one |
| Regex.SubFromReplace | utils/helper.py:4-5 | a match is replaced by the replacement text, and scanning resumes where the match ended (matches do not overlap) |
| Regex.SubFromFirstMatch | utils/helper.py:4-5 | the leftmost match is replaced: the text before it is kept verbatim, the match becomes the replacement, and the rest is substituted from the end of the match |
| Regex.EmailSubWithoutAt | utils/helper.py:4 | the e-mail pass leaves text without `@` unchanged |
| Regex.NumberSubWithoutRun | utils/helper.py:5 | the number pass leaves text without six consecutive digits unchanged |
| Regex.NumberSubWithoutSpan | utils/helper.py:5 | the number pass leaves text without a number-shaped span unchanged |
| Regex.NextMatch | utils/helper.py:4-5 | the first position from the scan point where a match starts: none starts before it, and one starts there unless it is the end of the text |
| Regex.MatchBounds | utils/helper.py:4-5 | every match of either pattern starts at a word boundary and is followed by the end of the text or a non-word character |
| Regex.NoMatchInPlaceholder | utils/helper.py:4-5 | no match of either pattern starts at a bracket or inside a placeholder such as `[REDACTED_EMAIL]`, whatever text surrounds it |
| Regex.SubLeavesNoMatch | utils/helper.py:4-5 | a pass with a bracketed placeholder leaves no match of its own pattern, because every match is replaced and no new one can start in or across a placeholder |
| Regex.SubKeepsNoMatch | utils/helper.py:4-5 | a pass with a bracketed placeholder creates no match of another pattern in text that had none |
| Regex.NumberMatchBeforeNonWord | utils/helper.py:5 | before a non-word character, a number match starts and ends exactly where it does in the text before that character alone: the digit run stops at the character, and `\b` there is as at the end of the text |
| Regex.NumberMatchAfterNonWord | utils/helper.py:5 | after a text ending in a non-word character, a number match exists exactly when it does in the rest alone, and ends at the same place shifted by the length of that text |
| Regex.NumberSubKeepsRange | utils/helper.py:5 | a stretch of positions where no number match starts is copied unchanged by the number pass |
| Regex.NumberSubBeforeNonWord | utils/helper.py:5 | the number pass over a text followed by a non-word character outputs the pass over that text alone, then continues from the non-word character |
| Regex.NumberSubAfterNonWord | utils/helper.py:5 | the number pass from any position after a text ending in a non-word character outputs what the pass over the rest alone outputs from the matching position |
| Regex.NumberSubKeepsPlaceholder | utils/helper.py:5 | the number pass copies a bracketed placeholder unchanged, whatever text surrounds it |
| Regex.NumberSubBeforePlaceholder | utils/helper.py:5 | the number pass over the text before a placeholder is the pass over that text alone |
| Regex.NumberSubAfterPlaceholder | utils/helper.py:5 | the number pass over the text after a placeholder is the pass over that text alone |
| Regex.NumberSubAroundPlaceholder | utils/helper.py:5 | the number pass over `u + placeholder + v` is the pass over `u`, then the placeholder unchanged, then the pass over `v` |
| Helper.RedactPii | utils/helper.py:3-6 | the redacted text holds no e-mail match and no number match |
| Helper.RedactIdempotent | utils/helper.py:3-6 | redacting a redacted text changes nothing |
| Helper.RedactLeavesNoShape | utils/helper.py:3-6 | the redacted text contains no e-mail-shaped span and no number-shaped span anywhere |
| Helper.RedactUnchanged | utils/helper.py:3-6 | text with no `@` and no six-digit run comes back unchanged |
| Helper.WholeEmailRedacted | utils/helper.py:3-6 | a text that is one e-mail-shaped token becomes exactly `[REDACTED_EMAIL]` (the single-address case of `Helper.RedactKeepsEmailToken`) |
| Helper.NumberPassKeepsEmailToken | utils/helper.py:4-5 | for any text before and after a `[REDACTED_EMAIL]`, the number pass keeps the placeholder and redacts the two sides exactly as it would each side alone, so digits of a replaced address never become `[REDACTED_NUMBER]` and a number next to the placeholder is still redacted |
| Helper.RedactKeepsEmailToken | utils/helper.py:3-6 | wherever the e-mail pass writes `[REDACTED_EMAIL]`, the redacted text has it at the same place, between the number-redacted text before it and the number-redacted text after it |
| Helper.GluedDigitsKept | utils/helper.py:3-6 | a single word of word characters that does not start with a digit (such as `abc1234567`) is kept |
| Helper.TrailingNumberRedacted | utils/helper.py:3-6 | in a digit-free, `@`-free word followed by a space and six or more digits, exactly the digits become `[REDACTED_NUMBER]` |
| Helper.ShortDigitsKept | utils/helper.py:5 | a run of five digits (`pin 12345`) is too short to be redacted |
| Redaction.RedactPii | discord_gemini_bot.py:109-115 | empty text comes back as it is; the result holds no e-mail match and no number match |
| Redaction.AgreesWithHelper | discord_gemini_bot.py:109-115 | the bot's guarded `redact_pii` and the helper's unguarded one give the same result on every string, and both map the empty text to itself |
| Classifier.IsProductQuestion | discord_gemini_bot.py:93-106 | text shorter than five characters, the empty text included, is never a product question; longer text with a question keyword in its lower case always is |
| Classifier.IsProductQuestionIff | discord_gemini_bot.py:93-106 | a text is a product question exactly when it has at least five characters and either a `?` or a question keyword occurs in its lower case, or no casual token does (both directions) |
| Classifier.KeywordBeatsCasual | discord_gemini_bot.py:102-105 | a question keyword accepts even when a casual token is also present, because the keyword check comes first |
| Classifier.DefaultAccept | discord_gemini_bot.py:106 | long text without `?`, keyword or casual token is accepted by default |
| Classifier.CaseInsensitive | discord_gemini_bot.py:97 | two texts with the same lower case get the same decision |
| Classifier.UpperKeywordFound | discord_gemini_bot.py:97-102 | a keyword occurring in the lower-cased text in any original letter case counts as found |
| Classifier.AbsentCharBlocks | discord_gemini_bot.py:102 | a word with a character the text lacks does not occur in it |
| Classifier.WhatLolAccepted | discord_gemini_bot.py:102-103 | `what lol` is accepted |
| Classifier.NoKeywordWithoutLetters | discord_gemini_bot.py:73-76 | text with none of the letters w, i, b, e, u, p, f holds none of the twelve keywords |
| Classifier.CasualRejected | discord_gemini_bot.py:104-105 | long text without `?` or keyword but with a casual token is rejected |
| Classifier.ThanksLolLetters | discord_gemini_bot.py:104 | `thanks lol` holds no `?` and none of the keyword letters |
| Classifier.ThanksLolRejected | discord_gemini_bot.py:104-105 | `thanks lol` is rejected |
| Classifier.FeesQuestionAccepted | discord_gemini_bot.py:100-101 | `What are the fees?` is accepted |
| BrandContext.LoadBrandInfo | discord_gemini_bot.py:118-134 | a missing file gives the fixed default; otherwise the stripped text when at most 18000 characters; a longer text gives a result that starts with the first 18000 stripped characters; never more than 18000 characters plus the marker |
| BrandContext.OversizedBrandInfo | discord_gemini_bot.py:127-130 | an oversized file yields exactly its first 18000 stripped characters followed by `\n\n[TRUNCATED]`, 18013 characters in all |
| BrandContext.CapUserMessage | discord_gemini_bot.py:142-144 | the message is stripped; kept whole when at most 2000 characters; a longer one gives a result that starts with its first 2000 characters; never more than 2015 characters |
| BrandContext.OversizedUserMessage | discord_gemini_bot.py:143-144 | an oversized message is embedded as exactly its first 2000 stripped characters followed by ` ...[truncated]`, 2015 characters in all |
| BrandContext.CapIgnoresSurroundingSpace | discord_gemini_bot.py:142 | surrounding whitespace never reaches the prompt: capping a stripped message equals capping the message |
| BrandContext.MakePrompt | discord_gemini_bot.py:137-164 | the prompt contains the brand name, the tone and the brand context verbatim, and the capped message verbatim between triple quotes |
| BrandContext.PromptLength | discord_gemini_bot.py:137-164 | the prompt's length is the fixed template's plus the parts', with the message part at most 2015 characters |
| BrandContext.PromptBounded | discord_gemini_bot.py:137-164 | with the brand context as loaded, the prompt's length is bounded whatever the file and the message hold |
| Gemini.Listed | discord_gemini_bot.py:207 | an empty listing lists no preference, and the empty preference is listed exactly when some name is (substring match) |
| Gemini.FirstListed | discord_gemini_bot.py:206-210 | the index found is of a listed preference with no listed preference before it; when none is found, no preference is listed |
| Gemini.ChooseModel | discord_gemini_bot.py:197-218 | the chosen model is always one of the preferences |
| Gemini.ChooseModelFirstListed | discord_gemini_bot.py:206-214 | when some preference is listed, the choice is a listed preference with every earlier preference unlisted; when none is, the choice is the first preference |
| Gemini.FirstListedAt | discord_gemini_bot.py:206-210 | a listed preference with no listed one before it is the one found and the one selected |
| Gemini.EmptyListingFallsBack | discord_gemini_bot.py:212-217 | an empty listing, which is also what a failed listing returns, selects the first preference |
| Gemini.No25Model | discord_gemini_bot.py:207 | a model name without `2` lists neither 2.5 model |
| Gemini.ThirdPreferenceChosen | discord_gemini_bot.py:206-210 | when the first two preferences are unlisted and the third is listed, the third is chosen |
| Gemini.FlashFallback | discord_gemini_bot.py:206-210 | when only `models/gemini-1.5-flash` is listed, the name match is by substring, so `gemini-1.5-flash` is chosen |
| Gemini.GeminiReply | discord_gemini_bot.py:228-229 | without an API key the reply is exactly `Error: GEMINI_API_KEY not configured.`; with one, it is the text the SDK attempts produced |
| Stats.ParsedCount | discord_gemini_bot.py:323-325 | no more lines are counted than the log has |
| Stats.Latencies | discord_gemini_bot.py:326-332 | there are no more latencies than counted lines |
| Stats.ComputeStats | discord_gemini_bot.py:317-337 | the scan's total is the number of lines that parse, and its average is the mean of the latencies of the records with both timestamps (0 when there are none); a missing log has no lines |
| Stats.ParsedCountAppend | discord_gemini_bot.py:323-325 | appending a line raises the count by one exactly when the line parses |
| Stats.LatenciesAppend | discord_gemini_bot.py:326-332 | appending a line adds its latency exactly when it has both timestamps |
| Stats.AppendTimed | discord_gemini_bot.py:322-336 | a log that gained one record with both timestamps counts one more line and has that record's latency, arrival minus departure, appended to its latencies |
| Stats.ParsedCountConcat | discord_gemini_bot.py:322-336 | the count over two concatenated logs is the sum of their counts |
| Stats.LatenciesConcat | discord_gemini_bot.py:322-336 | the latencies of two concatenated logs are the concatenation of their latencies |
| Stats.EveryLineAccounted | discord_gemini_bot.py:323-336 | every line is either counted or malformed: count plus malformed lines equals the number of lines |
| Stats.MalformedSkipped | discord_gemini_bot.py:335-336 | a malformed line anywhere in the log changes neither the count nor the latencies |
| Stats.Mean | discord_gemini_bot.py:337 | the mean of no values is 0; otherwise the mean times the number of values is their sum |
| Stats.SumBounds | discord_gemini_bot.py:337 | when every value lies between two bounds, the sum lies between the count times each bound |
| Stats.DivideBounds | discord_gemini_bot.py:337 | dividing by a positive count keeps both bounds |
| Stats.MeanBetween | discord_gemini_bot.py:337 | the reported average lies between any lower and any upper bound on the latencies |
| Stats.EmptyLogReportsZero | discord_gemini_bot.py:320-337 | a missing or empty log reports zero interactions and a zero average |
| Stats.NoTimestampsZeroAverage | discord_gemini_bot.py:328-337 | a log without a complete pair of timestamps has no latencies and reports a zero average, however many lines it counts |
| Orchestrator.SuggestionShows | discord_gemini_bot.py:388-393 | the moderator suggestion text shows the reply and the redacted message verbatim |
| Orchestrator.Deliver | discord_gemini_bot.py:395-412 | one to three sends; the suggestion goes to the moderator channel exactly when one was found and to the console exactly when none was; a failed moderator send puts the error notice in the origin channel; with auto-post on the last send is the reply to the origin channel; every delivery is a send and changes no state |
| Orchestrator.Route | discord_gemini_bot.py:307-412 | messages the bot wrote itself cause no effect; a message that is not a command causes an effect only when it is answered |
| Orchestrator.Step | discord_gemini_bot.py:307-412 | no effect changes the selected model or the channels, and sends, model calls and stats reports change nothing |
| Orchestrator.Apply | discord_gemini_bot.py:307-412 | performing effects never changes the selected model or the channels |
| Orchestrator.ApplyConcat | discord_gemini_bot.py:307-412 | performing two lists of effects one after the other is performing their concatenation |
| Orchestrator.ApplyTwo | discord_gemini_bot.py:307-412 | two effects act one after the other |
| Orchestrator.ApplyInert | discord_gemini_bot.py:307-412 | effects other than a reload or a persist leave the state alone |
| Orchestrator.DeliverCases | discord_gemini_bot.py:395-412 | the six delivery cases exactly; a failed moderator send puts the error notice in the origin channel before any auto-post; without a moderator channel and with auto-post on, the reply reaches the origin channel twice |
| Orchestrator.AnswerShape | discord_gemini_bot.py:360-412 | answering first calls the model and then persists the record; exactly the effects after those two are sends; no stats report or reload occurs; the only state change is the appended log line |
| Orchestrator.RespondShape | discord_gemini_bot.py:355-412 | the shape of `AnswerShape` holds for the prompt, record and suggestion built from an actual message |
| Orchestrator.CommandsOnlyInModeratorChannel | discord_gemini_bot.py:314-345 | a stats report occurs only for `!stats`, and a brand reload only for `!refresh`, each in any letter case, from someone other than the bot, in the channel named like the moderator channel |
| Orchestrator.StatsCommandReports | discord_gemini_bot.py:315-339 | `!stats` reports exactly the log's counted lines and mean latency, does nothing else, and leaves the state unchanged |
| Orchestrator.RefreshCommandReloads | discord_gemini_bot.py:341-345 | `!refresh` reloads the brand context from the file, answers `Brand info reloaded.`, and changes nothing else |
| Orchestrator.OtherChannelIgnored | discord_gemini_bot.py:348-349 | once a target channel is known, non-command messages in a channel with another id cause no effect |
| Orchestrator.NonQuestionIgnored | discord_gemini_bot.py:352-353 | non-command messages that are not product questions cause no effect |
| Orchestrator.AnsweredPersistsBeforeSending | discord_gemini_bot.py:355-412 | an answered question first asks the selected model, with a prompt built from the redacted message, and then persists a record holding the redacted message, the reply, the model and the two timestamps; only after that does anything get sent |
| Orchestrator.PromptCarriesRedactedMessage | discord_gemini_bot.py:356-360 | the prompt for an answered question holds the brand name, tone and context, and the redacted message, capped, between triple quotes |
| Orchestrator.DeliveryFollowsChannels | discord_gemini_bot.py:388-412 | after the record, an answered question is delivered as `Deliver` says for the moderator channel, the send failure and auto-posting, with a suggestion carrying the selected model, reply, author, redacted message and link |
| Orchestrator.AnsweredAppendsLine | discord_gemini_bot.py:372-385 | an answered question appends exactly one line to the log, a record holding the two clock readings |
| Orchestrator.AnsweredIsCounted | discord_gemini_bot.py:372-385 | an answered question adds one line to the count `!stats` reports |
| Orchestrator.StateChanges | discord_gemini_bot.py:307-412 | handling a message never changes the model or the channels; only `!refresh` changes the brand context; only an answered question changes the log |
| Orchestrator.Bot.constructor | discord_gemini_bot.py:86-87 | before start-up the bot uses `gemini-2.5-flash`, has an empty brand context and knows no channels |
| Orchestrator.Bot.PickModel | discord_gemini_bot.py:197-218 | the loop selects `ChooseModel` of the preferences and the listing, returns it, and changes nothing else |
| Orchestrator.Bot.OnReady | discord_gemini_bot.py:291-303 | after start-up the state holds the chosen model, the loaded brand context and the channels found, and the log is unchanged |
| Orchestrator.Bot.OnMessage | discord_gemini_bot.py:307-412 | the effects performed are exactly those `Route` decides for the old state, the new state is what `Apply` makes of them, and the selected model stays a preference |
| Orchestrator.Bot.DeliverSuggestion | discord_gemini_bot.py:395-412 | the sends performed are exactly `Deliver` for the moderator channel found, the send failure and the auto-post setting |
| Orchestrator.Bot.AnswerQuestion | discord_gemini_bot.py:355-412 | the question path performs exactly `Respond`; the new state is what those effects make of the old one; the model is unchanged |

## Left out

- The SDK attempts of `call_gemini` (`discord_gemini_bot.py:230-284`) are not modelled: the text they produce, error texts included, is the parameter `World.backendText`.
- `list_models_available` is not modelled: its outcome is the list of model names passed to `PickModel`, empty when the listing fails.
- The fallback `SELECTED_MODEL or pick_model()` at the start of `call_gemini` is not modelled. `Bot.Valid` keeps the selected model a non-empty preference, so under the model that fallback never runs.
- Discord itself is not modelled: the client, the event loop, and the transport of sends. Sends are `Action` values in the order the handler performs them.
- Channel lookup by name in `on_ready` is not modelled: the channels found are parameters of `OnReady`.
- Before `on_ready` has run, the model treats the target channel as unknown (`None`); in the source, reading the client attribute before then would raise.
- Only a failing moderator-channel send is modelled as raising. A failure of the other sends is not modelled, which covers the unguarded origin-channel sends and the auto-post send whose exception is logged and swallowed.
- File I/O and JSON are not modelled. The brand file is an `Option<string>` (`None` when missing). The log is a sequence of parsed lines, and a persisted record becomes one line with both timestamps. `os.makedirs` and JSON serialisation are not modelled.
- Timestamps are integers on one clock, not `datetime` values. A timestamp that is missing, empty or not ISO-formatted is `None`, and latencies are integer differences rather than float seconds.
- The `.2f` formatting of the `!stats` answer is not modelled: `ReportStats` carries the count and the unrounded average.
- `SuggestionText` is used only by `SuggestionShows`: `SendModerator` and `LogConsole` carry the parts of the suggestion, not the rendered text.
- `Generate` carries the parts of the prompt (`PromptRequest`), not the rendered text; `PromptText` renders it.
- Logging is not modelled, except for the console print of the suggestion when there is no moderator channel (`LogConsole`); the "New question" log line at `discord_gemini_bot.py:357` is one of the lines left out.
- The coercion of a non-string reply (`discord_gemini_bot.py:366-370`) is not modelled: replies are always strings.
- A message whose content is `None`, and a message without a channel, are not modelled: content is always a string, and a message always has a channel.
- Unicode is not modelled. `\w`, `\d`, `\b`, `str.lower()` and `str.strip()` are modelled on ASCII; other characters are non-word, non-space and unchanged by lower-casing.
- Loading configuration from the environment, the entry point, and `gemini-api-model.py` are not part of this model.
- Concurrency between event handlers is not modelled: each message is handled to completion before the next.
