/**
 * `redact_pii` of discord_gemini_bot.py: the same two substitutions as utils/helper.py,
 * behind an early return for empty text.
 */
module Redaction {
  import opened Regex
  import Helper

  /** Empty text comes back as is; otherwise no e-mail or number match is left. */
  function RedactPii(text: string): (r: string)
    ensures |text| == 0 ==> r == text
    ensures NoMatch(EmailPattern, r) && NoMatch(NumberPattern, r)
  {
    if |text| == 0 then text
    else
      Helper.PlaceholdersBracketed();
      var emailsGone := Sub(EmailPattern, text, Helper.EmailToken);
      SubKeepsNoMatch(NumberPattern, EmailPattern, emailsGone, Helper.NumberToken);
      Sub(NumberPattern, emailsGone, Helper.NumberToken)
  }

  /** The guarded copy and the helper agree on every string; both map "" to "". */
  lemma AgreesWithHelper(text: string)
    ensures RedactPii(text) == Helper.RedactPii(text)
    ensures RedactPii("") == "" && Helper.RedactPii("") == ""
  {
  }
}
