/**
 * `load_brand_info` and `make_prompt` of discord_gemini_bot.py: how the grounding text
 * and the user's message are capped and spliced into the fixed instruction template.
 * The file read itself is outside the model: its outcome is an `Option<string>`, with
 * `None` for a missing file.
 */
module BrandContext {
  import opened Wrappers
  import opened Text

  const MaxBrandChars := 18000
  const BrandTruncationMarker := "\n\n[TRUNCATED]"
  const DefaultBrandInfo := "No detailed brand info available. Use brief, factual tone."

  /**
   * The stripped file text, cut to 18000 characters with a marker when longer; the
   * fixed default when the file is missing.
   */
  function LoadBrandInfo(file: Option<string>): (r: string)
    ensures file.None? ==> r == DefaultBrandInfo
    ensures file.Some? ==> |r| <= MaxBrandChars + |BrandTruncationMarker|
    ensures file.Some? && |Strip(file.value)| <= MaxBrandChars ==> r == Strip(file.value)
    ensures file.Some? && |Strip(file.value)| > MaxBrandChars ==> IsPrefix(Strip(file.value)[..MaxBrandChars], r)
  {
    match file
    case None => DefaultBrandInfo
    case Some(text) =>
      var raw := Strip(text);
      if |raw| > MaxBrandChars then raw[..MaxBrandChars] + BrandTruncationMarker else raw
  }

  /** An oversized file yields exactly its first 18000 stripped characters and the marker: 18013 characters. */
  lemma OversizedBrandInfo(text: string)
    requires |Strip(text)| > MaxBrandChars
    ensures LoadBrandInfo(Some(text)) == Strip(text)[..MaxBrandChars] + BrandTruncationMarker
    ensures |LoadBrandInfo(Some(text))| == 18013
  {
  }

  const MaxUserChars := 2000
  const UserTruncationMarker := " ...[truncated]"

  /** The stripped user message, cut to 2000 characters with a marker when longer. */
  function CapUserMessage(message: string): (r: string)
    ensures |r| <= MaxUserChars + |UserTruncationMarker|
    ensures |Strip(message)| <= MaxUserChars ==> r == Strip(message)
    ensures |Strip(message)| > MaxUserChars ==> IsPrefix(Strip(message)[..MaxUserChars], r)
  {
    var trimmed := Strip(message);
    if |trimmed| > MaxUserChars then trimmed[..MaxUserChars] + UserTruncationMarker else trimmed
  }

  /** An oversized message is embedded as exactly its first 2000 stripped characters and the marker. */
  lemma OversizedUserMessage(message: string)
    requires |Strip(message)| > MaxUserChars
    ensures CapUserMessage(message) == Strip(message)[..MaxUserChars] + UserTruncationMarker
    ensures |CapUserMessage(message)| == 2015
  {
  }

  /** Leading and trailing whitespace never reaches the prompt: capping a stripped message is capping the message. */
  lemma CapIgnoresSurroundingSpace(message: string)
    ensures CapUserMessage(Strip(message)) == CapUserMessage(message)
  {
    StripIdempotent(message);
  }

  // The fixed parts of the prompt template, in order.
  const PromptIntro := "\nYou are a customer success assistant for "
  const PromptTone := ".\nTone: "
  const PromptContext := ".\n\nBrand context (do not invent facts; use only what's below; if info is missing, ask a clarifying question):\n"
  const PromptUser := "\n\nUser message:\n"
  const TripleQuote := "\"\"\""
  const PromptInstructions := "\n\nInstructions:\n"
    + "1) Answer concisely and accurately using ONLY the Brand context above when available.\n"
    + "2) If the exact answer is not in the Brand context, say you don't know and ask for clarifying info (e.g., tx hash, network).\n"
    + "3) Do NOT request private keys or sensitive data.\n"
    + "4) End with a suggested next step (e.g., \"Please share your tx hash\" or \"Escalate to ops\").\n"
    + "\nFormat: Plain text reply, one paragraph. Keep it under 150 words.\n"

  function TemplateLength(): nat {
    |PromptIntro| + |PromptTone| + |PromptContext| + |PromptUser| + 2 * |TripleQuote| + |PromptInstructions|
  }

  /**
   * The instruction block sent to the model. It holds the brand name, the tone and the
   * brand context verbatim, and the capped message verbatim between triple quotes.
   */
  function MakePrompt(message: string, brandName: string, brandTone: string, brandInfo: string): (r: string)
    ensures Contains(r, brandName) && Contains(r, brandTone) && Contains(r, brandInfo)
    ensures Contains(r, TripleQuote + CapUserMessage(message) + TripleQuote)
  {
    TemplateEmbeds(PromptIntro, brandName, PromptTone, brandTone, PromptContext, brandInfo,
                   PromptUser, TripleQuote, CapUserMessage(message), PromptInstructions);
    PromptIntro + brandName + PromptTone + brandTone + PromptContext + brandInfo
      + PromptUser + TripleQuote + CapUserMessage(message) + TripleQuote + PromptInstructions
  }

  /** The shape of the template, for arbitrary fixed parts. */
  lemma TemplateEmbeds(i0: string, n: string, i1: string, t: string, i2: string, b: string,
                       i3: string, q: string, m: string, i4: string)
    ensures var p := i0 + n + i1 + t + i2 + b + i3 + q + m + q + i4;
      Contains(p, n) && Contains(p, t) && Contains(p, b) && Contains(p, q + m + q)
  {
    // Each part occurs in the prefix ending with it; appending the later parts one at a
    // time keeps it, following the left-nested shape of `p`.
    ContainsSelf(n);
    ContainsPrepend(i0, n, n);
    ContainsAppend(i0 + n, n, i1);
    ContainsAppend(i0 + n + i1, n, t);
    ContainsSelf(t);
    ContainsPrepend(i0 + n + i1, t, t);
    ContainsAppend(i0 + n + i1 + t, n, i2);
    ContainsAppend(i0 + n + i1 + t, t, i2);
    ContainsAppend(i0 + n + i1 + t + i2, n, b);
    ContainsAppend(i0 + n + i1 + t + i2, t, b);
    ContainsSelf(b);
    ContainsPrepend(i0 + n + i1 + t + i2, b, b);
    var p0 := i0 + n + i1 + t + i2 + b;
    ContainsAppend(p0, n, i3);
    ContainsAppend(p0, t, i3);
    ContainsAppend(p0, b, i3);
    ContainsAppend(p0 + i3, n, q);
    ContainsAppend(p0 + i3, t, q);
    ContainsAppend(p0 + i3, b, q);
    ContainsAppend(p0 + i3 + q, n, m);
    ContainsAppend(p0 + i3 + q, t, m);
    ContainsAppend(p0 + i3 + q, b, m);
    ContainsAppend(p0 + i3 + q + m, n, q);
    ContainsAppend(p0 + i3 + q + m, t, q);
    ContainsAppend(p0 + i3 + q + m, b, q);
    var p1 := p0 + i3;
    var qmq := q + m + q;
    ContainsSelf(qmq);
    ContainsPrepend(p1, qmq, qmq);
    assert p1 + q + m + q == p1 + qmq;
    ContainsAppend(p1 + q + m + q, n, i4);
    ContainsAppend(p1 + q + m + q, t, i4);
    ContainsAppend(p1 + q + m + q, b, i4);
    ContainsAppend(p1 + q + m + q, qmq, i4);
  }

  /** The prompt's size is the template's plus the parts'; the message part is at most 2015 characters. */
  lemma PromptLength(message: string, brandName: string, brandTone: string, brandInfo: string)
    ensures |MakePrompt(message, brandName, brandTone, brandInfo)|
      == TemplateLength() + |brandName| + |brandTone| + |brandInfo| + |CapUserMessage(message)|
    ensures |MakePrompt(message, brandName, brandTone, brandInfo)|
      <= TemplateLength() + |brandName| + |brandTone| + |brandInfo| + MaxUserChars + |UserTruncationMarker|
  {
  }

  /** With the brand context from `LoadBrandInfo`, the prompt is bounded whatever the file and the message hold. */
  lemma PromptBounded(message: string, brandName: string, brandTone: string, file: Option<string>)
    ensures |MakePrompt(message, brandName, brandTone, LoadBrandInfo(file))|
      <= TemplateLength() + |brandName| + |brandTone| + 18013 + 2015
  {
    PromptLength(message, brandName, brandTone, LoadBrandInfo(file));
  }
}
