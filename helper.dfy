/**
 * `redact_pii` of utils/helper.py: the email pass, then the number pass, over any
 * string (this copy has no guard for empty or missing text).
 */
module Helper {
  import opened Text
  import opened Regex

  const EmailToken := "[REDACTED_EMAIL]"
  const NumberToken := "[REDACTED_NUMBER]"

  /** Neither placeholder can start or continue an e-mail address or a number. */
  lemma PlaceholdersBracketed()
    ensures Bracketed(EmailToken) && Bracketed(NumberToken)
  {
  }

  /**
   * The e-mail pass, then the number pass. No e-mail or number match is left in the
   * result: the number pass creates no e-mail match, because its placeholder starts with
   * `[` and ends with `]`. What each pass computes is fixed by `Regex.SubFromFirstMatch`
   * (the leftmost match is replaced) and `Regex.SubFromNoMatch` (text without a match is
   * copied); `RedactUnchanged` and `NumberPassKeepsEmailToken` apply them to the two
   * passes together.
   */
  function RedactPii(text: string): (r: string)
    ensures NoMatch(EmailPattern, r) && NoMatch(NumberPattern, r)
  {
    PlaceholdersBracketed();
    var emailsGone := Sub(EmailPattern, text, EmailToken);
    SubKeepsNoMatch(NumberPattern, EmailPattern, emailsGone, NumberToken);
    Sub(NumberPattern, emailsGone, NumberToken)
  }

  /** Redacting a redacted text changes nothing. */
  lemma RedactIdempotent(text: string)
    ensures RedactPii(RedactPii(text)) == RedactPii(text)
  {
    var r := RedactPii(text);
    SubFromNoMatch(EmailPattern, r, 0, EmailToken);
    SubFromNoMatch(NumberPattern, r, 0, NumberToken);
  }

  /** No e-mail-shaped and no number-shaped span is left in a redacted text. */
  lemma RedactLeavesNoShape(text: string, i: nat, e: nat)
    ensures !EmailSpan(RedactPii(text), i, e)
    ensures !NumberSpan(RedactPii(text), i, e)
  {
    var r := RedactPii(text);
    if i < |r| {
      assert MatchAt(EmailPattern, r, i).None? && MatchAt(NumberPattern, r, i).None?;
      if EmailSpan(r, i, e) {
        EmailMatchLongest(r, i, e);
      }
      NumberMatchIff(r, i, e);
    }
  }

  /** Text with no `@` and no run of six digits comes back unchanged. */
  lemma RedactUnchanged(text: string)
    requires '@' !in text
    requires !HasDigitRun(text, 6)
    ensures RedactPii(text) == text
  {
    EmailSubWithoutAt(text, EmailToken);
    NumberSubWithoutRun(text, NumberToken);
  }

  /**
   * A text that is one email-shaped token becomes exactly `[REDACTED_EMAIL]`: the email
   * pass runs first, so digits inside the address can never become `[REDACTED_NUMBER]`.
   */
  lemma WholeEmailRedacted(text: string)
    requires EmailSpan(text, 0, |text|)
    ensures RedactPii(text) == EmailToken
  {
    EmailMatchLongest(text, 0, |text|);
    SubFromFirstMatch(EmailPattern, text, 0, 0, |text|, EmailToken);
    assert Sub(EmailPattern, text, EmailToken) == [] + EmailToken + [];
    RedactKeepsEmailToken(text, [], []);
  }

  /**
   * The number pass keeps every `[REDACTED_EMAIL]` the e-mail pass wrote and redacts the
   * text on either side of it as if that text stood alone: digits of an address that the
   * e-mail pass replaced can never become `[REDACTED_NUMBER]`, and a number right next to
   * the placeholder is still redacted.
   */
  lemma NumberPassKeepsEmailToken(u: string, v: string)
    ensures Sub(NumberPattern, u + EmailToken + v, NumberToken) ==
            Sub(NumberPattern, u, NumberToken) + EmailToken + Sub(NumberPattern, v, NumberToken)
  {
    PlaceholdersBracketed();
    NumberSubAroundPlaceholder(u, EmailToken, v, NumberToken);
    assert Sub(NumberPattern, u + EmailToken + v, NumberToken) == SubFrom(NumberPattern, u + EmailToken + v, 0, NumberToken);
  }

  /**
   * Wherever the e-mail pass leaves `[REDACTED_EMAIL]`, the redacted text has it at the
   * same place between the number-redacted text before and after it.
   */
  lemma RedactKeepsEmailToken(text: string, u: string, v: string)
    requires Sub(EmailPattern, text, EmailToken) == u + EmailToken + v
    ensures RedactPii(text) == Sub(NumberPattern, u, NumberToken) + EmailToken + Sub(NumberPattern, v, NumberToken)
  {
    NumberPassKeepsEmailToken(u, v);
  }

  /**
   * Digits glued to letters are not a number match: a single word that does not start
   * with a digit, such as "abc1234567", is kept.
   */
  lemma GluedDigitsKept(s: string)
    requires |s| > 0 && !IsDigit(s[0])
    requires forall k :: 0 <= k < |s| ==> IsWordChar(s[k])
    ensures RedactPii(s) == s
  {
    EmailSubWithoutAt(s, EmailToken);
    forall t | 0 <= t < |s| ensures MatchAt(NumberPattern, s, t).None? {
      if t == 0 {
        NoNumberMatchAtNonDigit(s, t);
      } else {
        NoNumberMatchInsideWord(s, t);
      }
    }
    SubFromNoMatch(NumberPattern, s, 0, NumberToken);
  }

  /**
   * A trailing run of six or more digits after a space is replaced, and the text before
   * it is kept: "id 1234567" becomes "id [REDACTED_NUMBER]".
   */
  lemma TrailingNumberRedacted(w: string, d: string)
    requires '@' !in w
    requires forall k :: 0 <= k < |w| ==> !IsDigit(w[k])
    requires |d| >= 6 && forall k :: 0 <= k < |d| ==> IsDigit(d[k])
    ensures RedactPii(w + " " + d) == w + " " + NumberToken
  {
    var s := w + " " + d;
    var q := |w| + 1;
    assert '@' !in s by {
      assert forall k :: 0 <= k < |s| ==> s[k] != '@' by {
        forall k | 0 <= k < |s| ensures s[k] != '@' {
          if k < |w| { assert s[k] == w[k]; }
        }
      }
    }
    EmailSubWithoutAt(s, EmailToken);
    assert AllIn(s, q, |s|, Digit) by {
      forall t | q <= t < |s| ensures InClass(Digit, s[t]) {
        assert s[t] == d[t - q];
      }
    }
    assert NumberSpan(s, q, |s|);
    NumberMatchIff(s, q, |s|);
    forall t | 0 <= t < q ensures MatchAt(NumberPattern, s, t).None? {
      if t < |w| {
        assert s[t] == w[t];
      }
      NoNumberMatchAtNonDigit(s, t);
    }
    SubFromFirstMatch(NumberPattern, s, 0, q, |s|, NumberToken);
    assert s[0..q] == w + " ";
  }

  /** A run of five digits is too short: "pin 12345" is kept. */
  lemma ShortDigitsKept(s: string)
    requires s == "pin 12345"
    ensures RedactPii(s) == s
  {
    EmailSubWithoutAt(s, EmailToken);
    forall t: nat | t <= |s| ensures !DigitRunAt(s, t, 6) {
      if t + 6 <= |s| {
        assert !InClass(Digit, s[t]);
      }
    }
    NumberSubWithoutRun(s, NumberToken);
  }
}
