/**
 * `is_product_question` of discord_gemini_bot.py: an ordered chain of cheap checks on
 * the lower-cased text.
 */
module Classifier {
  import opened Text

  const QuestionKeywords: seq<string> := [
    "how", "what", "why", "when", "where", "issue",
    "bug", "error", "help", "support", "price", "fees"
  ]

  /** Casual or closing words that reject a message with no question keyword. */
  const CasualTokens: seq<string> := ["lol", "haha", "thanks", "gg"]

  /** `any(w in text for w in words)` */
  predicate ContainsAny(text: string, words: seq<string>) {
    exists k :: 0 <= k < |words| && Contains(text, words[k])
  }

  /**
   * Empty and short text is rejected; a `?` or a question keyword accepts; otherwise a
   * casual token rejects; everything else is accepted by default.
   */
  predicate IsProductQuestion(text: string): (r: bool)
    ensures |text| < 5 ==> !r
    ensures |text| >= 5 && ContainsAny(Lower(text), QuestionKeywords) ==> r
  {
    if |text| == 0 then false
    else
      var lowered := Lower(text);
      if |lowered| < 5 then false
      else if Contains(lowered, "?") then true
      else if ContainsAny(lowered, QuestionKeywords) then true
      else if ContainsAny(lowered, CasualTokens) then false
      else true
  }

  /** The whole decision, checks in order: accepted exactly when long enough and a question mark or keyword occurs, or no casual token does. */
  lemma IsProductQuestionIff(text: string)
    ensures IsProductQuestion(text) <==>
      |text| >= 5 &&
      ('?' in Lower(text) || ContainsAny(Lower(text), QuestionKeywords) || !ContainsAny(Lower(text), CasualTokens))
  {
    ContainsCharIff(Lower(text), '?');
  }

  /** The keyword check comes before the casual-token check: a keyword wins over "lol". */
  lemma KeywordBeatsCasual(text: string)
    requires |text| >= 5
    requires ContainsAny(Lower(text), QuestionKeywords)
    requires ContainsAny(Lower(text), CasualTokens)
    ensures IsProductQuestion(text)
  {
  }

  /** Long text with no `?`, keyword or casual token is accepted by default. */
  lemma DefaultAccept(text: string)
    requires |text| >= 5
    requires '?' !in Lower(text)
    requires !ContainsAny(Lower(text), QuestionKeywords)
    requires !ContainsAny(Lower(text), CasualTokens)
    ensures IsProductQuestion(text)
  {
    ContainsCharIff(Lower(text), '?');
  }

  /** The decision depends only on the lower-cased text. */
  lemma CaseInsensitive(a: string, b: string)
    requires Lower(a) == Lower(b)
    ensures IsProductQuestion(a) == IsProductQuestion(b)
  {
  }

  /** A keyword in any letter case counts: "HOW" is found as "how". */
  lemma UpperKeywordFound(text: string, i: nat, k: nat)
    requires k < |QuestionKeywords|
    requires OccursAt(Lower(text), QuestionKeywords[k], i)
    ensures ContainsAny(Lower(text), QuestionKeywords)
  {
    ContainsAt(Lower(text), QuestionKeywords[k], i);
  }

  /** A needle with a character the text lacks does not occur in it. */
  lemma AbsentCharBlocks(text: string, needle: string, k: nat)
    requires k < |needle| && needle[k] !in text
    ensures !Contains(text, needle)
  {
    if Contains(text, needle) {
      ContainsChars(text, needle, k);
    }
  }

  /** "what lol" is accepted: the keyword check runs first. */
  lemma WhatLolAccepted(text: string)
    requires text == "what lol"
    ensures IsProductQuestion(text)
  {
    assert Lower(text)[..4] == "what";
    ContainsAt(Lower(text), "what", 0);
    assert Contains(Lower(text), QuestionKeywords[1]);
  }

  /**
   * Every keyword has one of the letters w, i, b, e, u, p, f, so text with none of
   * them holds no keyword.
   */
  lemma NoKeywordWithoutLetters(l: string)
    requires 'w' !in l && 'i' !in l && 'b' !in l && 'e' !in l
    requires 'u' !in l && 'p' !in l && 'f' !in l
    ensures !ContainsAny(l, QuestionKeywords)
  {
    AbsentCharBlocks(l, "how", 2);
    AbsentCharBlocks(l, "what", 0);
    AbsentCharBlocks(l, "why", 0);
    AbsentCharBlocks(l, "when", 0);
    AbsentCharBlocks(l, "where", 0);
    AbsentCharBlocks(l, "issue", 0);
    AbsentCharBlocks(l, "bug", 0);
    AbsentCharBlocks(l, "error", 0);
    AbsentCharBlocks(l, "help", 1);
    AbsentCharBlocks(l, "support", 1);
    AbsentCharBlocks(l, "price", 0);
    AbsentCharBlocks(l, "fees", 0);
  }

  /** Long text with no `?` and no keyword but a casual token is rejected. */
  lemma CasualRejected(text: string)
    requires |text| >= 5
    requires '?' !in Lower(text)
    requires !ContainsAny(Lower(text), QuestionKeywords)
    requires ContainsAny(Lower(text), CasualTokens)
    ensures !IsProductQuestion(text)
  {
    ContainsCharIff(Lower(text), '?');
  }

  lemma ThanksLolLetters(text: string)
    requires text == "thanks lol"
    ensures '?' !in text
    ensures 'w' !in text && 'i' !in text && 'b' !in text && 'e' !in text
    ensures 'u' !in text && 'p' !in text && 'f' !in text
  {
  }

  /** "thanks lol" is rejected: no keyword, and a casual token. */
  lemma ThanksLolRejected(text: string)
    requires text == "thanks lol"
    ensures !IsProductQuestion(text)
  {
    LowerOfLowercase(text);
    ThanksLolLetters(text);
    NoKeywordWithoutLetters(text);
    assert OccursAt(text, CasualTokens[2], 0);
    ContainsAt(text, CasualTokens[2], 0);
    CasualRejected(text);
  }

  /** "What are the fees?" is accepted. */
  lemma FeesQuestionAccepted(text: string)
    requires text == "What are the fees?"
    ensures IsProductQuestion(text)
  {
    assert Lower(text)[17] == '?';
    ContainsCharIff(Lower(text), '?');
  }
}
