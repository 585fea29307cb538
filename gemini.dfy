/**
 * Model selection (`pick_model`) and the outward shape of `call_gemini` in
 * discord_gemini_bot.py. Listing the models of the API key is a call into the SDK; its
 * outcome is the list of model names, empty when the listing fails.
 */
module Gemini {
  import opened Wrappers
  import opened Text

  const PreferredModels: seq<string> := [
    "gemini-2.5-flash",
    "gemini-2.5-pro",
    "gemini-1.5-flash",
    "gemini-1.5"
  ]

  /** The model used before any selection has run. */
  const InitialModel := "gemini-2.5-flash"

  /** `any(pref in a for a in available)`: the preference is a substring of some listed name. */
  predicate Listed(pref: string, names: seq<string>): (r: bool)
    ensures |names| == 0 ==> !r
    ensures |pref| == 0 ==> (r <==> |names| > 0)
  {
    assert |pref| == 0 && |names| > 0 ==> Contains(names[0], pref);
    exists k :: 0 <= k < |names| && Contains(names[k], pref)
  }

  /** The first preference that is listed, if any. */
  function FirstListed(prefs: seq<string>, names: seq<string>): (r: Option<nat>)
    ensures r.Some? ==> r.value < |prefs| && Listed(prefs[r.value], names)
    ensures r.Some? ==> forall j :: 0 <= j < r.value ==> !Listed(prefs[j], names)
    ensures r.None? ==> forall j :: 0 <= j < |prefs| ==> !Listed(prefs[j], names)
    decreases |prefs|
  {
    if |prefs| == 0 then None
    else if Listed(prefs[0], names) then Some(0)
    else match FirstListed(prefs[1..], names)
      case None => None
      case Some(i) => Some(i + 1)
  }

  /** The model `pick_model` settles on: the first listed preference, else the head of the list. */
  function ChooseModel(prefs: seq<string>, names: seq<string>): (r: string)
    requires |prefs| > 0
    ensures r in prefs
  {
    match FirstListed(prefs, names)
    case Some(i) => prefs[i]
    case None => prefs[0]
  }

  /**
   * The choice is the earliest listed preference: every earlier preference is unlisted.
   * When no preference is listed, the head of the list is chosen.
   */
  lemma ChooseModelFirstListed(prefs: seq<string>, names: seq<string>)
    requires |prefs| > 0
    ensures (exists i :: 0 <= i < |prefs| && Listed(prefs[i], names)) ==>
      exists i :: 0 <= i < |prefs| && ChooseModel(prefs, names) == prefs[i] && Listed(prefs[i], names)
        && forall j :: 0 <= j < i ==> !Listed(prefs[j], names)
    ensures (forall i :: 0 <= i < |prefs| ==> !Listed(prefs[i], names)) ==> ChooseModel(prefs, names) == prefs[0]
  {
    match FirstListed(prefs, names)
    case Some(i) =>
    case None =>
  }

  /** A listed preference with no listed one before it is the choice. */
  lemma {:induction false} FirstListedAt(prefs: seq<string>, names: seq<string>, i: nat)
    requires i < |prefs| && Listed(prefs[i], names)
    requires forall j :: 0 <= j < i ==> !Listed(prefs[j], names)
    ensures FirstListed(prefs, names) == Some(i)
    ensures ChooseModel(prefs, names) == prefs[i]
    decreases i
  {
    if i > 0 {
      FirstListedAt(prefs[1..], names, i - 1);
    }
  }

  /** An empty listing (including a failed one) falls back to the head of the list. */
  lemma EmptyListingFallsBack(prefs: seq<string>)
    requires |prefs| > 0
    ensures ChooseModel(prefs, []) == prefs[0]
  {
    assert FirstListed(prefs, []).None?;
  }

  /** A name without the character '2' lists none of the 2.5 models. */
  lemma No25Model(name: string, pref: string)
    requires '2' !in name
    requires pref == PreferredModels[0] || pref == PreferredModels[1]
    ensures !Contains(name, pref)
  {
    if Contains(name, pref) {
      assert pref[7] == '2';
      ContainsChars(name, pref, 7);
    }
  }

  /** When exactly the first two preferences are unlisted and the third is listed, the third is chosen. */
  lemma ThirdPreferenceChosen(prefs: seq<string>, names: seq<string>)
    requires |prefs| >= 3
    requires !Listed(prefs[0], names) && !Listed(prefs[1], names) && Listed(prefs[2], names)
    ensures ChooseModel(prefs, names) == prefs[2]
  {
    assert FirstListed(prefs[1..][1..], names) == Some(0);
    assert prefs[1..][1..][0] == prefs[2];
  }

  /**
   * With only the 1.5 flash model listed, under the SDK's `models/` prefix, the choice
   * skips both 2.5 models and lands on it.
   */
  lemma FlashFallback(names: seq<string>, name: string)
    requires name == "models/" + "gemini-1.5-flash"
    requires names == [name]
    ensures ChooseModel(PreferredModels, names) == "gemini-1.5-flash"
  {
    assert names[0] == name;
    No25Model(name, PreferredModels[0]);
    No25Model(name, PreferredModels[1]);
    ContainsSelf(PreferredModels[2]);
    ContainsPrepend("models/", PreferredModels[2], PreferredModels[2]);
    ThirdPreferenceChosen(PreferredModels, names);
  }

  const MissingKeyReply := "Error: GEMINI_API_KEY not configured."

  /**
   * The reply `call_gemini` hands back: the fixed error text when no key is configured,
   * otherwise whatever text the SDK attempts produced (their own error texts included).
   */
  function GeminiReply(keyConfigured: bool, backendText: string): (r: string)
    ensures !keyConfigured ==> r == MissingKeyReply
    ensures keyConfigured ==> r == backendText
  {
    if !keyConfigured then MissingKeyReply else backendText
  }
}
