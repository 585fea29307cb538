/**
 * The two patterns of `redact_pii` and Python's `re.sub` over them, written as a
 * left-to-right scanner.
 *
 *   email:  \b[\w\.-]+@[\w\.-]+\.\w{2,}\b
 *   number: \b\d{6,}\b
 *
 * `MatchAt` says where the backtracking regex engine ends a match that starts at a
 * given position (or that it finds none there); `EmailSpan` and `NumberSpan` say
 * declaratively which substrings have the pattern's shape, and the lemmas connect the two.
 */
module Regex {
  import opened Wrappers
  import opened Text

  /** The character classes the patterns use: `\w`, `\d` and `[\w\.-]`. */
  datatype CharClass = Word | Digit | EmailChar

  predicate InClass(cls: CharClass, c: char) {
    match cls
    case Word => IsWordChar(c)
    case Digit => IsDigit(c)
    case EmailChar => IsWordChar(c) || c == '.' || c == '-'
  }

  /** Every character of `s[lo..hi]` belongs to `cls`. */
  predicate AllIn(s: string, lo: nat, hi: nat, cls: CharClass)
    requires lo <= hi <= |s|
  {
    forall t :: lo <= t < hi ==> InClass(cls, s[t])
  }

  /** `\b`: exactly one of the characters either side of position `i` is a word character. */
  predicate Boundary(s: string, i: nat)
    requires i <= |s|
  {
    (0 < i && IsWordChar(s[i - 1])) != (i < |s| && IsWordChar(s[i]))
  }

  /** Where a greedy `cls+` (or `cls*`) that starts at `i` stops: the end of the maximal run. */
  function RunEnd(s: string, i: nat, cls: CharClass): (j: nat)
    requires i <= |s|
    ensures i <= j <= |s|
    ensures AllIn(s, i, j, cls)
    ensures j < |s| ==> !InClass(cls, s[j])
    decreases |s| - i
  {
    if i < |s| && InClass(cls, s[i]) then RunEnd(s, i + 1, cls) else i
  }

  /** A run that is known to stop at `j` is found to stop there. */
  lemma RunEndExact(s: string, i: nat, j: nat, cls: CharClass)
    requires i <= j <= |s|
    requires AllIn(s, i, j, cls)
    requires j < |s| ==> !InClass(cls, s[j])
    ensures RunEnd(s, i, cls) == j
    decreases j - i
  {
    if i < j {
      RunEndExact(s, i + 1, j, cls);
    }
  }

  /** The maximal run reaches at least as far as any run of the class. */
  lemma RunEndAtLeast(s: string, i: nat, j: nat, cls: CharClass)
    requires i <= j <= |s|
    requires AllIn(s, i, j, cls)
    ensures RunEnd(s, i, cls) >= j
    decreases j - i
  {
    if i < j {
      RunEndAtLeast(s, i + 1, j, cls);
    }
  }

  /** A run stops at the first character outside its class. */
  lemma RunEndStopsAt(s: string, i: nat, k: nat, cls: CharClass)
    requires i <= k < |s|
    requires !InClass(cls, s[k])
    ensures RunEnd(s, i, cls) <= k
    decreases k - i
  {
    if i < k && InClass(cls, s[i]) {
      RunEndStopsAt(s, i + 1, k, cls);
    }
  }

  // ---------------------------------------------------------------------------
  // Email addresses
  // ---------------------------------------------------------------------------

  /**
   * The tail `[\w\.-]+\.\w{2,}\b` of the email pattern, where the domain's run of
   * `[\w\.-]` starts at `lo` and stops at `hi`. Greedy backtracking tries the dot
   * positions `m` from the right: the first `m` whose following word run is at least two
   * characters long wins, and the match ends where that word run ends (the only place
   * inside it where `\b` holds).
   */
  function TldSearch(s: string, lo: nat, hi: nat): (r: Option<nat>)
    requires lo <= hi <= |s|
    ensures r.Some? ==> lo + 3 <= r.value
    ensures r.Some? ==> r.value <= |s|
    decreases hi
  {
    if hi <= lo + 1 then None
    else
      var m := hi - 1;
      if s[m] == '.' && RunEnd(s, m + 1, Word) >= m + 3 then Some(RunEnd(s, m + 1, Word))
      else TldSearch(s, lo, hi - 1)
  }

  /** Where the email pattern's match starting at `i` ends, if there is one. */
  function EmailMatchAt(s: string, i: nat): (r: Option<nat>)
    requires i <= |s|
    ensures r.Some? ==> i < r.value <= |s|
  {
    if !Boundary(s, i) then None
    else
      var j := RunEnd(s, i, EmailChar);
      if j == i || j == |s| || s[j] != '@' then None
      else TldSearch(s, j + 1, RunEnd(s, j + 1, EmailChar))
  }

  /**
   * `s[i..e]` is `local@domain.tld` with the local part and the domain non-empty runs
   * of `[\w\.-]`, a top-level part of two or more word characters, and `\b` at both ends.
   */
  ghost predicate EmailSplit(s: string, i: nat, j: nat, m: nat, e: nat) {
    i < j && j + 1 < m && m + 3 <= e <= |s| &&
    AllIn(s, i, j, EmailChar) && s[j] == '@' &&
    AllIn(s, j + 1, m, EmailChar) && s[m] == '.' &&
    AllIn(s, m + 1, e, Word)
  }

  ghost predicate EmailSpan(s: string, i: nat, e: nat) {
    i < e <= |s| && Boundary(s, i) && Boundary(s, e) &&
    exists j: nat, m: nat :: EmailSplit(s, i, j, m, e)
  }

  lemma {:induction false} TldSearchSound(s: string, lo: nat, hi: nat)
    requires lo <= hi <= |s|
    requires TldSearch(s, lo, hi).Some?
    ensures exists m: nat ::
      lo < m < hi && s[m] == '.' && m + 3 <= TldSearch(s, lo, hi).value &&
      TldSearch(s, lo, hi).value == RunEnd(s, m + 1, Word)
    decreases hi
  {
    var m := hi - 1;
    if !(s[m] == '.' && RunEnd(s, m + 1, Word) >= m + 3) {
      TldSearchSound(s, lo, hi - 1);
    }
  }

  lemma {:induction false} TldSearchLongest(s: string, lo: nat, hi: nat, m: nat)
    requires lo < m < hi <= |s|
    requires s[m] == '.' && RunEnd(s, m + 1, Word) >= m + 3
    ensures TldSearch(s, lo, hi).Some?
    ensures TldSearch(s, lo, hi).value >= RunEnd(s, m + 1, Word)
    decreases hi
  {
    var top := hi - 1;
    if top > m {
      if s[top] == '.' && RunEnd(s, top + 1, Word) >= top + 3 {
        // The word run after `m` cannot pass the dot at `top`.
        assert RunEnd(s, m + 1, Word) <= top;
      } else {
        TldSearchLongest(s, lo, hi - 1, m);
      }
    }
  }

  /** A match the scanner reports has the email shape. */
  lemma EmailMatchSound(s: string, i: nat)
    requires i <= |s|
    requires EmailMatchAt(s, i).Some?
    ensures EmailSpan(s, i, EmailMatchAt(s, i).value)
  {
    var e := EmailMatchAt(s, i).value;
    var j := RunEnd(s, i, EmailChar);
    var k := RunEnd(s, j + 1, EmailChar);
    TldSearchSound(s, j + 1, k);
    var m: nat :| j + 1 < m < k && s[m] == '.' && m + 3 <= e && e == RunEnd(s, m + 1, Word);
    assert AllIn(s, j + 1, m, EmailChar);
    assert EmailSplit(s, i, j, m, e);
    assert IsWordChar(s[e - 1]);
  }

  /**
   * Every email-shaped span starting at `i` is found, and the scanner's match is the
   * longest of them.
   */
  lemma EmailMatchLongest(s: string, i: nat, e: nat)
    requires EmailSpan(s, i, e)
    ensures EmailMatchAt(s, i).Some?
    ensures e <= EmailMatchAt(s, i).value
  {
    var j: nat, m: nat :| EmailSplit(s, i, j, m, e);
    RunEndExact(s, i, j, EmailChar);
    assert AllIn(s, j + 1, m + 1, EmailChar);
    RunEndAtLeast(s, j + 1, m + 1, EmailChar);
    assert IsWordChar(s[e - 1]);
    RunEndExact(s, m + 1, e, Word);
    TldSearchLongest(s, j + 1, RunEnd(s, j + 1, EmailChar), m);
  }

  /** An email match always contains an `@`. */
  lemma EmailMatchHasAt(s: string, i: nat)
    requires i <= |s|
    requires EmailMatchAt(s, i).Some?
    ensures exists j :: i < j < EmailMatchAt(s, i).value && s[j] == '@'
  {
    EmailMatchSound(s, i);
    var e := EmailMatchAt(s, i).value;
    var j: nat, m: nat :| EmailSplit(s, i, j, m, e);
  }

  // ---------------------------------------------------------------------------
  // Long digit runs
  // ---------------------------------------------------------------------------

  /**
   * Where the number pattern's match starting at `i` ends. Backtracking over `\d{6,}`
   * cannot help: strictly inside a digit run `\b` never holds.
   */
  function NumberMatchAt(s: string, i: nat): (r: Option<nat>)
    requires i <= |s|
    ensures r.Some? ==> i < r.value <= |s|
  {
    if !Boundary(s, i) then None
    else
      var d := RunEnd(s, i, Digit);
      if d >= i + 6 && Boundary(s, d) then Some(d) else None
  }

  /** `s[i..e]` is six or more digits with `\b` on both sides. */
  ghost predicate NumberSpan(s: string, i: nat, e: nat) {
    i + 6 <= e <= |s| && Boundary(s, i) && Boundary(s, e) && AllIn(s, i, e, Digit)
  }

  /** The number scanner matches exactly the number-shaped spans. */
  lemma NumberMatchIff(s: string, i: nat, e: nat)
    requires i <= |s|
    ensures NumberMatchAt(s, i) == Some(e) <==> NumberSpan(s, i, e)
  {
    if NumberSpan(s, i, e) {
      RunEndAtLeast(s, i, e, Digit);
    }
  }

  /** `s[t..t + n]` is a run of `n` digits. */
  predicate DigitRunAt(s: string, t: nat, n: nat) {
    t + n <= |s| && AllIn(s, t, t + n, Digit)
  }

  predicate HasDigitRun(s: string, n: nat) {
    exists t: nat :: t <= |s| && DigitRunAt(s, t, n)
  }

  /** No number match starts at a character that is not a digit. */
  lemma NoNumberMatchAtNonDigit(s: string, t: nat)
    requires t < |s| && !IsDigit(s[t])
    ensures NumberMatchAt(s, t).None?
  {
    RunEndExact(s, t, t, Digit);
  }

  /** No number match starts inside a word: the digits of "abc1234567" are glued to letters. */
  lemma NoNumberMatchInsideWord(s: string, t: nat)
    requires 0 < t < |s| && IsWordChar(s[t - 1]) && IsWordChar(s[t])
    ensures NumberMatchAt(s, t).None?
  {
  }

  /** A number match starts with six digits. */
  lemma NumberMatchHasRun(s: string, i: nat)
    requires i <= |s|
    requires NumberMatchAt(s, i).Some?
    ensures DigitRunAt(s, i, 6)
  {
  }

  // ---------------------------------------------------------------------------
  // re.sub
  // ---------------------------------------------------------------------------

  datatype Pattern = EmailPattern | NumberPattern

  function MatchAt(p: Pattern, s: string, i: nat): (r: Option<nat>)
    requires i <= |s|
    ensures r.Some? ==> i < r.value <= |s|
  {
    match p
    case EmailPattern => EmailMatchAt(s, i)
    case NumberPattern => NumberMatchAt(s, i)
  }

  /**
   * `re.sub(p, repl, s)` from position `i` on: try a match at each position from the
   * left; a match is replaced by `repl` and scanning resumes where it ended, otherwise
   * the character is kept. Neither pattern matches the empty string.
   */
  function SubFrom(p: Pattern, s: string, i: nat, repl: string): (r: string)
    requires i <= |s|
    ensures |repl| > 0 ==> (|r| == 0 <==> i == |s|)
    decreases |s| - i
  {
    if i == |s| then ""
    else
      var m := MatchAt(p, s, i);
      if m.Some? then repl + SubFrom(p, s, m.value, repl)
      else [s[i]] + SubFrom(p, s, i + 1, repl)
  }

  /**
   * `re.sub(p, repl, s)`. With a bracketed placeholder as `repl`, no match of `p` is
   * left in the result.
   */
  function Sub(p: Pattern, s: string, repl: string): (r: string)
    ensures Bracketed(repl) ==> NoMatch(p, r)
  {
    if Bracketed(repl) then SubLeavesNoMatch(p, s, repl); SubFrom(p, s, 0, repl)
    else SubFrom(p, s, 0, repl)
  }

  /** Where no match starts from `i` on, substitution copies the rest of the text unchanged. */
  lemma {:induction false} SubFromNoMatch(p: Pattern, s: string, i: nat, repl: string)
    requires i <= |s| && NoMatchFrom(p, s, i)
    ensures SubFrom(p, s, i, repl) == s[i..]
    decreases |s| - i
  {
    if i < |s| {
      SubFromNoMatch(p, s, i + 1, repl);
      assert [s[i]] + s[i + 1..] == s[i..];
    }
  }

  /** A stretch of positions where no number match starts is copied unchanged by the number pass. */
  lemma {:induction false} NumberSubKeepsRange(s: string, a: nat, b: nat, repl: string)
    requires a <= b <= |s|
    requires forall t :: a <= t < b ==> NumberMatchAt(s, t).None?
    ensures SubFrom(NumberPattern, s, a, repl) == s[a..b] + SubFrom(NumberPattern, s, b, repl)
    decreases b - a
  {
    if a < b {
      SubFromKeep(NumberPattern, s, a, repl);
      NumberSubKeepsRange(s, a + 1, b, repl);
      assert s[a..b] == [s[a]] + s[a + 1..b];
      Regroup([], [s[a]], s[a + 1..b], SubFrom(NumberPattern, s, b, repl));
    }
  }

  /** A position where no match starts keeps its character. */
  lemma SubFromKeep(p: Pattern, s: string, i: nat, repl: string)
    requires i < |s|
    requires MatchAt(p, s, i).None?
    ensures SubFrom(p, s, i, repl) == [s[i]] + SubFrom(p, s, i + 1, repl)
  {
  }

  /** A match is replaced and scanning resumes where it ended. */
  lemma SubFromReplace(p: Pattern, s: string, i: nat, e: nat, repl: string)
    requires i < |s|
    requires MatchAt(p, s, i) == Some(e)
    ensures SubFrom(p, s, i, repl) == repl + SubFrom(p, s, e, repl)
  {
  }

  /**
   * The leftmost match is replaced: text before the first position where a match starts
   * is kept, the match becomes `repl`, and scanning resumes at the end of the match.
   */
  lemma {:induction false} SubFromFirstMatch(p: Pattern, s: string, i: nat, q: nat, e: nat, repl: string)
    requires i <= q < |s|
    requires forall t :: i <= t < q ==> MatchAt(p, s, t).None?
    requires MatchAt(p, s, q) == Some(e)
    ensures SubFrom(p, s, i, repl) == s[i..q] + repl + SubFrom(p, s, e, repl)
    decreases q - i
  {
    if i < q {
      var a, b, rest := [s[i]], s[i + 1..q], SubFrom(p, s, e, repl);
      assert SubFrom(p, s, i, repl) == a + SubFrom(p, s, i + 1, repl) by {
        SubFromKeep(p, s, i, repl);
      }
      assert SubFrom(p, s, i + 1, repl) == b + repl + rest by {
        SubFromFirstMatch(p, s, i + 1, q, e, repl);
      }
      assert s[i..q] == a + b;
      Regroup(a, b, repl, rest);
    } else {
      SubFromReplace(p, s, i, e, repl);
      assert s[i..q] == [];
    }
  }

  /** Text without `@` contains no email match, so the email pass keeps it. */
  lemma EmailSubWithoutAt(s: string, repl: string)
    requires '@' !in s
    ensures Sub(EmailPattern, s, repl) == s
  {
    forall t | 0 <= t < |s| ensures MatchAt(EmailPattern, s, t).None? {
      if EmailMatchAt(s, t).Some? {
        EmailMatchHasAt(s, t);
      }
    }
    SubFromNoMatch(EmailPattern, s, 0, repl);
  }

  /** Text without six consecutive digits contains no number match, so the number pass keeps it. */
  lemma NumberSubWithoutRun(s: string, repl: string)
    requires !HasDigitRun(s, 6)
    ensures Sub(NumberPattern, s, repl) == s
  {
    forall t | 0 <= t < |s| ensures MatchAt(NumberPattern, s, t).None? {
      if NumberMatchAt(s, t).Some? {
        NumberMatchHasRun(s, t);
      }
    }
    SubFromNoMatch(NumberPattern, s, 0, repl);
  }

  /** Text with no number-shaped span is kept by the number pass. */
  lemma NumberSubWithoutSpan(s: string, repl: string)
    requires forall i: nat, e: nat :: !NumberSpan(s, i, e)
    ensures Sub(NumberPattern, s, repl) == s
  {
    forall t | 0 <= t < |s| ensures MatchAt(NumberPattern, s, t).None? {
      if NumberMatchAt(s, t).Some? {
        NumberMatchIff(s, t, NumberMatchAt(s, t).value);
      }
    }
    SubFromNoMatch(NumberPattern, s, 0, repl);
  }

  // ---------------------------------------------------------------------------
  // What a pass leaves behind
  // ---------------------------------------------------------------------------

  /** No match of `p` starts anywhere in `s` from `lo` on. */
  predicate NoMatchFrom(p: Pattern, s: string, lo: nat) {
    forall t :: lo <= t < |s| ==> MatchAt(p, s, t).None?
  }

  /** No match of `p` starts anywhere in `s`. */
  predicate NoMatch(p: Pattern, s: string) {
    NoMatchFrom(p, s, 0)
  }

  /** Every position from `i` on where a pass of `p` keeps the character has no match of `q`. */
  predicate KeptHasNoMatch(p: Pattern, q: Pattern, x: string, i: nat) {
    forall t :: i <= t < |x| && MatchAt(p, x, t).None? ==> MatchAt(q, x, t).None?
  }

  /**
   * A placeholder such as `[REDACTED_EMAIL]`: a `[`, letters or underscores, and a `]`.
   * Neither bracket is a word character or may occur in an address.
   */
  predicate Bracketed(r: string) {
    |r| >= 2 && r[0] == '[' && r[|r| - 1] == ']' &&
    forall k :: 0 < k < |r| - 1 ==> IsWordChar(r[k]) && !IsDigit(r[k])
  }

  /** The first position from `i` on where a match starts, or `|s|`. */
  function NextMatch(p: Pattern, s: string, i: nat): (q: nat)
    requires i <= |s|
    ensures i <= q <= |s|
    ensures forall t :: i <= t < q ==> MatchAt(p, s, t).None?
    ensures q < |s| ==> MatchAt(p, s, q).Some?
    decreases |s| - i
  {
    if i == |s| || MatchAt(p, s, i).Some? then i else NextMatch(p, s, i + 1)
  }

  /** A match starts at `\b`, and the character after it, if any, is not a word character. */
  lemma MatchBounds(p: Pattern, s: string, t: nat)
    requires t <= |s| && MatchAt(p, s, t).Some?
    ensures Boundary(s, t)
    ensures MatchAt(p, s, t).value < |s| ==> !IsWordChar(s[MatchAt(p, s, t).value])
  {
    var e := MatchAt(p, s, t).value;
    match p
    case EmailPattern =>
      EmailMatchSound(s, t);
      var j: nat, m: nat :| EmailSplit(s, t, j, m, e);
      assert IsWordChar(s[e - 1]);
    case NumberPattern =>
      assert IsDigit(s[e - 1]);
  }

  /** No match starts at a `[`, a `]` or inside a placeholder, whatever surrounds it. */
  lemma NoMatchInPlaceholder(p: Pattern, pre: string, r: string, post: string, t: nat)
    requires Bracketed(r)
    requires |pre| <= t < |pre| + |r|
    ensures MatchAt(p, pre + r + post, t).None?
  {
    var o := pre + r + post;
    var z := |pre| + |r| - 1;
    assert o[t] == r[t - |pre|];
    assert o[z] == r[|r| - 1] == ']';
    match p
    case EmailPattern =>
      if t == |pre| || t == z {
        RunEndExact(o, t, t, EmailChar);
      } else {
        assert AllIn(o, t, z, EmailChar) by {
          forall k | t <= k < z ensures InClass(EmailChar, o[k]) {
            assert o[k] == r[k - |pre|];
          }
        }
        RunEndExact(o, t, z, EmailChar);
      }
    case NumberPattern =>
      RunEndExact(o, t, t, Digit);
  }

  /**
   * `o[a..a + n]` is a copy of `x[b..b + n]`. In `o` the copy is followed by the end or by
   * a `[`; in `x`, by the end or by a `\b`.
   */
  ghost predicate Copied(o: string, a: nat, x: string, b: nat, n: nat) {
    a + n <= |o| && b + n <= |x| && o[a..a + n] == x[b..b + n] &&
    ((a + n == |o| && b + n == |x|) ||
     (a + n < |o| && o[a + n] == '[' && b + n < |x| && Boundary(x, b + n)))
  }

  /** Position `t` of the copy in `o` corresponds to position `tx` in `x`. */
  ghost predicate Corresponds(a: nat, b: nat, n: nat, t: nat, tx: nat) {
    a <= t <= a + n && tx == b + (t - a)
  }

  lemma CopiedAt(o: string, a: nat, x: string, b: nat, n: nat, t: nat, tx: nat)
    requires Copied(o, a, x, b, n) && Corresponds(a, b, n, t, tx) && t < a + n
    ensures o[t] == x[tx]
  {
    assert o[t] == o[a..a + n][t - a];
    assert x[tx] == x[b..b + n][t - a];
  }

  /** A run inside the copy stops no later in `o` than in `x`, and at the same place if before the copy's end. */
  lemma RunEndCopied(o: string, a: nat, x: string, b: nat, n: nat, t: nat, tx: nat, cls: CharClass)
    requires Copied(o, a, x, b, n) && Corresponds(a, b, n, t, tx)
    ensures RunEnd(o, t, cls) <= a + n
    ensures RunEnd(x, tx, cls) >= tx + (RunEnd(o, t, cls) - t)
    ensures RunEnd(o, t, cls) < a + n ==> RunEnd(x, tx, cls) == tx + (RunEnd(o, t, cls) - t)
  {
    var r := RunEnd(o, t, cls);
    if a + n < |o| && t < a + n {
      RunEndStopsAt(o, t, a + n, cls);
    }
    var rx := tx + (r - t);
    assert AllIn(x, tx, rx, cls) by {
      forall u | tx <= u < rx ensures InClass(cls, x[u]) {
        CopiedAt(o, a, x, b, n, t + (u - tx), u);
      }
    }
    RunEndAtLeast(x, tx, rx, cls);
    if r < a + n {
      CopiedAt(o, a, x, b, n, r, rx);
      RunEndExact(x, tx, rx, cls);
    }
  }

  /** `\b` at a position inside the copy holds in `o` exactly when it holds in `x`. */
  lemma BoundaryCopied(o: string, a: nat, x: string, b: nat, n: nat, t: nat, tx: nat)
    requires Copied(o, a, x, b, n) && Corresponds(a, b, n, t, tx) && t < a + n
    requires t > a || (a == 0 && b == 0)
    ensures Boundary(o, t) == Boundary(x, tx)
  {
    CopiedAt(o, a, x, b, n, t, tx);
    if t > a {
      CopiedAt(o, a, x, b, n, t - 1, tx - 1);
    }
  }

  /** A dot of the domain in `o`, followed by two or more word characters, is one in `x` too. */
  lemma DomainDotCopied(o: string, a: nat, x: string, b: nat, n: nat, j: nat, jx: nat, m: nat, mx: nat)
    requires Copied(o, a, x, b, n) && Corresponds(a, b, n, j, jx) && j < a + n
    requires j + 1 < m < RunEnd(o, j + 1, EmailChar)
    requires o[m] == '.' && RunEnd(o, m + 1, Word) >= m + 3
    requires mx == jx + (m - j)
    ensures jx + 1 < mx < RunEnd(x, jx + 1, EmailChar)
    ensures x[mx] == '.' && RunEnd(x, mx + 1, Word) >= mx + 3
  {
    RunEndCopied(o, a, x, b, n, j + 1, jx + 1, EmailChar);
    assert m < a + n;
    assert x[mx] == '.' by {
      CopiedAt(o, a, x, b, n, m, mx);
    }
    assert RunEnd(x, mx + 1, Word) >= mx + 3 by {
      RunEndCopied(o, a, x, b, n, m + 1, mx + 1, Word);
    }
  }

  /** The domain part of an email match in `o` that starts inside the copy has a counterpart in `x`. */
  lemma TldSearchCopied(o: string, a: nat, x: string, b: nat, n: nat, j: nat, jx: nat)
    requires Copied(o, a, x, b, n) && Corresponds(a, b, n, j, jx) && j < a + n
    requires TldSearch(o, j + 1, RunEnd(o, j + 1, EmailChar)).Some?
    ensures TldSearch(x, jx + 1, RunEnd(x, jx + 1, EmailChar)).Some?
  {
    var k := RunEnd(o, j + 1, EmailChar);
    TldSearchSound(o, j + 1, k);
    var m: nat :| j + 1 < m < k && o[m] == '.' && m + 3 <= TldSearch(o, j + 1, k).value &&
      TldSearch(o, j + 1, k).value == RunEnd(o, m + 1, Word);
    var mx := jx + (m - j);
    DomainDotCopied(o, a, x, b, n, j, jx, m, mx);
    TldSearchLongest(x, jx + 1, RunEnd(x, jx + 1, EmailChar), mx);
  }

  /** The parts of an email match at `i`: `\b`, a local part, `@` and a domain with a top-level part. */
  lemma EmailMatchFromParts(s: string, i: nat, j: nat)
    requires i < j < |s| && Boundary(s, i) && RunEnd(s, i, EmailChar) == j && s[j] == '@'
    requires TldSearch(s, j + 1, RunEnd(s, j + 1, EmailChar)).Some?
    ensures EmailMatchAt(s, i).Some?
  {
  }

  /** An email match starting inside the copy in `o` has a counterpart in `x`. */
  lemma EmailMatchCopied(o: string, a: nat, x: string, b: nat, n: nat, t: nat, tx: nat)
    requires Copied(o, a, x, b, n) && Corresponds(a, b, n, t, tx) && t < a + n
    requires t > a || (a == 0 && b == 0)
    ensures EmailMatchAt(o, t).Some? ==> EmailMatchAt(x, tx).Some?
  {
    if EmailMatchAt(o, t).Some? {
      var j := RunEnd(o, t, EmailChar);
      var jx := tx + (j - t);
      assert Boundary(x, tx) by {
        BoundaryCopied(o, a, x, b, n, t, tx);
      }
      assert j < a + n && RunEnd(x, tx, EmailChar) == jx by {
        RunEndCopied(o, a, x, b, n, t, tx, EmailChar);
      }
      assert x[jx] == '@' && jx < |x| by {
        CopiedAt(o, a, x, b, n, j, jx);
      }
      TldSearchCopied(o, a, x, b, n, j, jx);
      EmailMatchFromParts(x, tx, jx);
    }
  }

  /** A number match starting inside the copy in `o` has a counterpart in `x`. */
  lemma NumberMatchCopied(o: string, a: nat, x: string, b: nat, n: nat, t: nat, tx: nat)
    requires Copied(o, a, x, b, n) && Corresponds(a, b, n, t, tx) && t < a + n
    requires t > a || (a == 0 && b == 0)
    ensures NumberMatchAt(o, t).Some? ==> NumberMatchAt(x, tx).Some?
  {
    if NumberMatchAt(o, t).Some? {
      BoundaryCopied(o, a, x, b, n, t, tx);
      var d := RunEnd(o, t, Digit);
      RunEndCopied(o, a, x, b, n, t, tx, Digit);
      var dx := tx + (d - t);
      CopiedAt(o, a, x, b, n, d - 1, dx - 1);
      if d < a + n {
        CopiedAt(o, a, x, b, n, d, dx);
      } else if b + n < |x| {
        RunEndExact(x, tx, dx, Digit);
      }
    }
  }

  /**
   * A copy holds no match where its source held none, provided the copy starts where the
   * source does, or after a non-word character in front of a non-word character.
   */
  lemma CopyHasNoMatch(q: Pattern, o: string, a: nat, x: string, b: nat, n: nat)
    requires Copied(o, a, x, b, n)
    requires (a == 0 && b == 0) || (a > 0 && !IsWordChar(o[a - 1]) && (n == 0 || !IsWordChar(x[b])))
    requires forall t :: b <= t < b + n ==> MatchAt(q, x, t).None?
    ensures forall k :: a <= k < a + n ==> MatchAt(q, o, k).None?
  {
    forall k | a <= k < a + n ensures MatchAt(q, o, k).None? {
      var kx := b + (k - a);
      if k == a && !(a == 0 && b == 0) {
        CopiedAt(o, a, x, b, n, a, b);
        assert !Boundary(o, a);
      } else {
        assert MatchAt(q, x, kx).None?;
        match q
        case EmailPattern => EmailMatchCopied(o, a, x, b, n, k, kx);
        case NumberPattern => NumberMatchCopied(o, a, x, b, n, k, kx);
      }
    }
  }

  lemma MiddleSlice(u: string, v: string, w: string)
    ensures (u + v + w)[|u|..|u| + |v|] == v
    ensures |w| > 0 ==> (u + v + w)[|u| + |v|] == w[0]
  {
  }

  /** The kept input after `ctx`, up to the end of the input, holds no match of `q`. */
  lemma KeptTailClean(p: Pattern, q: Pattern, ctx: string, x: string, i: nat)
    requires i <= |x| && NextMatch(p, x, i) == |x| && KeptHasNoMatch(p, q, x, i)
    requires (i == 0 && ctx == []) || (|ctx| > 0 && !IsWordChar(ctx[|ctx| - 1]) && (i == |x| || !IsWordChar(x[i])))
    ensures NoMatchFrom(q, ctx + x[i..], |ctx|)
  {
    var o := ctx + x[i..];
    assert o == ctx + x[i..] + [];
    MiddleSlice(ctx, x[i..], []);
    assert Copied(o, |ctx|, x, i, |x| - i);
    CopyHasNoMatch(q, o, |ctx|, x, i, |x| - i);
  }

  /**
   * Kept input `seg` after `ctx`, then a placeholder, then output `w2` that holds no match
   * of `q`: the whole after `ctx` holds none.
   */
  lemma KeptSegmentClean(p: Pattern, q: Pattern, ctx: string, x: string, i: nat, seg: string, repl: string, w2: string)
    requires i + |seg| < |x| && seg == x[i..i + |seg|]
    requires NextMatch(p, x, i) == i + |seg| && KeptHasNoMatch(p, q, x, i)
    requires Bracketed(repl)
    requires (i == 0 && ctx == []) || (|ctx| > 0 && !IsWordChar(ctx[|ctx| - 1]) && (|seg| == 0 || !IsWordChar(x[i])))
    requires Boundary(x, i + |seg|)
    requires NoMatchFrom(q, ctx + seg + repl + w2, |ctx + seg + repl|)
    ensures NoMatchFrom(q, ctx + seg + repl + w2, |ctx|)
  {
    var o := ctx + seg + repl + w2;
    forall k | |ctx + seg| <= k < |ctx + seg| + |repl| ensures MatchAt(q, o, k).None? {
      NoMatchInPlaceholder(q, ctx + seg, repl, w2, k);
    }
    assert o == ctx + seg + (repl + w2);
    MiddleSlice(ctx, seg, repl + w2);
    assert Copied(o, |ctx|, x, i, |seg|);
    CopyHasNoMatch(q, o, |ctx|, x, i, |seg|);
  }

  /** The output of a pass from position `i` on is the kept segment, the placeholder and the rest. */
  lemma SubFromAfterCtx(p: Pattern, x: string, i: nat, c: nat, e: nat, repl: string, ctx: string)
    requires i <= c < |x| && NextMatch(p, x, i) == c && MatchAt(p, x, c) == Some(e)
    ensures ctx + SubFrom(p, x, i, repl) == ctx + x[i..c] + repl + SubFrom(p, x, e, repl)
  {
    SubFromFirstMatch(p, x, i, c, e, repl);
    Regroup(ctx, x[i..c], repl, SubFrom(p, x, e, repl));
  }

  lemma Regroup(a: string, b: string, c: string, d: string)
    ensures a + (b + c + d) == a + b + c + d
  {
  }

  /**
   * The part of a pass's output from the scan position `i` on, written after `ctx`, holds
   * no match of `q`, provided every position the pass keeps has none in the input. The
   * output before that part either is empty (the scan starts at 0) or ends in a placeholder,
   * in which case the input does not continue with a word character there.
   */
  lemma {:induction false} SubFromLeavesNoMatch(p: Pattern, q: Pattern, x: string, i: nat, repl: string, ctx: string)
    requires i <= |x| && Bracketed(repl)
    requires (i == 0 && ctx == []) || (|ctx| > 0 && ctx[|ctx| - 1] == ']' && (i == |x| || !IsWordChar(x[i])))
    requires KeptHasNoMatch(p, q, x, i)
    ensures NoMatchFrom(q, ctx + SubFrom(p, x, i, repl), |ctx|)
    decreases |x| - i
  {
    var c := NextMatch(p, x, i);
    if c == |x| {
      SubFromNoMatch(p, x, i, repl);
      KeptTailClean(p, q, ctx, x, i);
    } else {
      var e := MatchAt(p, x, c).value;
      MatchBounds(p, x, c);
      var seg := x[i..c];
      var w2 := SubFrom(p, x, e, repl);
      var ctx2 := ctx + seg + repl;
      assert ctx2[|ctx2| - 1] == repl[|repl| - 1];
      SubFromLeavesNoMatch(p, q, x, e, repl, ctx2);
      KeptSegmentClean(p, q, ctx, x, i, seg, repl, w2);
      SubFromAfterCtx(p, x, i, c, e, repl, ctx);
    }
  }

  /** After a pass of a pattern with a placeholder, no match of that pattern is left. */
  lemma SubLeavesNoMatch(p: Pattern, x: string, repl: string)
    requires Bracketed(repl)
    ensures NoMatch(p, SubFrom(p, x, 0, repl))
  {
    SubFromLeavesNoMatch(p, p, x, 0, repl, []);
    assert [] + SubFrom(p, x, 0, repl) == SubFrom(p, x, 0, repl);
  }

  /** A pass of one pattern creates no match of another pattern where the input had none. */
  lemma SubKeepsNoMatch(p: Pattern, q: Pattern, x: string, repl: string)
    requires Bracketed(repl)
    requires NoMatch(q, x)
    ensures NoMatch(q, Sub(p, x, repl))
  {
    SubFromLeavesNoMatch(p, q, x, 0, repl, []);
    assert [] + SubFrom(p, x, 0, repl) == SubFrom(p, x, 0, repl);
  }

  // ---------------------------------------------------------------------------
  // The number pass around a placeholder
  // ---------------------------------------------------------------------------

  /**
   * Before a non-word character, the number pattern matches as in the text before it
   * alone: a digit run stops there, and `\b` there holds exactly when it holds at the end
   * of that text.
   */
  lemma NumberMatchBeforeNonWord(u: string, w: string, t: nat)
    requires |w| > 0 && !IsWordChar(w[0]) && t < |u|
    ensures NumberMatchAt(u + w, t) == NumberMatchAt(u, t)
  {
    var s := u + w;
    assert s[|u|] == w[0];
    var d := RunEnd(u, t, Digit);
    RunEndExact(s, t, d, Digit);
  }

  /**
   * After a text that ends in a non-word character, the number pattern matches as in the
   * rest alone, shifted by the length of that text.
   */
  lemma NumberMatchAfterNonWord(c: string, v: string, t: nat)
    requires |c| > 0 && !IsWordChar(c[|c| - 1]) && t < |v|
    ensures NumberMatchAt(c + v, |c| + t).Some? == NumberMatchAt(v, t).Some?
    ensures NumberMatchAt(v, t).Some? ==> NumberMatchAt(c + v, |c| + t).value == |c| + NumberMatchAt(v, t).value
  {
    var s := c + v;
    var d := RunEnd(v, t, Digit);
    assert AllIn(s, |c| + t, |c| + d, Digit) by {
      forall k | |c| + t <= k < |c| + d ensures InClass(Digit, s[k]) {
        assert s[k] == v[k - |c|];
      }
    }
    RunEndExact(s, |c| + t, |c| + d, Digit);
    assert Boundary(s, |c| + t) == Boundary(v, t);
    assert Boundary(s, |c| + d) == Boundary(v, d);
  }

  /**
   * One step of the number pass at a position before a non-word character: the step is
   * the same whether the text goes on after that character or not.
   */
  lemma NumberSubStepBeforeNonWord(u: string, w: string, i: nat, repl: string)
    requires |w| > 0 && !IsWordChar(w[0]) && i < |u|
    ensures var m := NumberMatchAt(u, i);
            var head := if m.Some? then repl else [u[i]];
            var next := if m.Some? then m.value else i + 1;
            SubFrom(NumberPattern, u + w, i, repl) == head + SubFrom(NumberPattern, u + w, next, repl) &&
            SubFrom(NumberPattern, u, i, repl) == head + SubFrom(NumberPattern, u, next, repl)
  {
    var s := u + w;
    NumberMatchBeforeNonWord(u, w, i);
    assert s[i] == u[i];
  }

  /** The number pass over the text before a non-word character is the pass over that text alone. */
  lemma {:induction false} NumberSubBeforeNonWord(u: string, w: string, i: nat, repl: string)
    requires |w| > 0 && !IsWordChar(w[0]) && i <= |u|
    ensures SubFrom(NumberPattern, u + w, i, repl) ==
            SubFrom(NumberPattern, u, i, repl) + SubFrom(NumberPattern, u + w, |u|, repl)
    decreases |u| - i
  {
    if i < |u| {
      var m := NumberMatchAt(u, i);
      var head := if m.Some? then repl else [u[i]];
      var next := if m.Some? then m.value else i + 1;
      NumberSubStepBeforeNonWord(u, w, i, repl);
      NumberSubBeforeNonWord(u, w, next, repl);
      Regroup([], head, SubFrom(NumberPattern, u, next, repl), SubFrom(NumberPattern, u + w, |u|, repl));
    }
  }

  /**
   * One step of the number pass at a position after a non-word character: the step is
   * the same as in the rest alone, shifted by the length of what comes before.
   */
  lemma NumberSubStepAfterNonWord(c: string, v: string, j: nat, repl: string)
    requires |c| > 0 && !IsWordChar(c[|c| - 1]) && j < |v|
    ensures var m := NumberMatchAt(v, j);
            var head := if m.Some? then repl else [v[j]];
            var next := if m.Some? then m.value else j + 1;
            SubFrom(NumberPattern, c + v, |c| + j, repl) == head + SubFrom(NumberPattern, c + v, |c| + next, repl) &&
            SubFrom(NumberPattern, v, j, repl) == head + SubFrom(NumberPattern, v, next, repl)
  {
    NumberMatchAfterNonWord(c, v, j);
    assert (c + v)[|c| + j] == v[j];
  }

  /** The number pass after a non-word character is the pass over the rest alone. */
  lemma {:induction false} NumberSubAfterNonWord(c: string, v: string, j: nat, repl: string)
    requires |c| > 0 && !IsWordChar(c[|c| - 1]) && j <= |v|
    ensures SubFrom(NumberPattern, c + v, |c| + j, repl) == SubFrom(NumberPattern, v, j, repl)
    decreases |v| - j
  {
    if j < |v| {
      NumberSubStepAfterNonWord(c, v, j, repl);
      if NumberMatchAt(v, j).Some? {
        NumberSubAfterNonWord(c, v, NumberMatchAt(v, j).value, repl);
      } else {
        NumberSubAfterNonWord(c, v, j + 1, repl);
      }
    }
  }

  /** The number pass keeps a placeholder as it is. */
  lemma NumberSubKeepsPlaceholder(u: string, r: string, v: string, repl: string)
    requires Bracketed(r)
    ensures SubFrom(NumberPattern, u + r + v, |u|, repl) ==
            r + SubFrom(NumberPattern, u + r + v, |u| + |r|, repl)
  {
    var s := u + r + v;
    forall t | |u| <= t < |u| + |r| ensures NumberMatchAt(s, t).None? {
      NoMatchInPlaceholder(NumberPattern, u, r, v, t);
    }
    NumberSubKeepsRange(s, |u|, |u| + |r|, repl);
    MiddleSlice(u, r, v);
  }

  /** The number pass over the text before a placeholder is the pass over that text alone. */
  lemma NumberSubBeforePlaceholder(u: string, r: string, v: string, repl: string)
    requires Bracketed(r)
    ensures SubFrom(NumberPattern, u + r + v, 0, repl) ==
            SubFrom(NumberPattern, u, 0, repl) + SubFrom(NumberPattern, u + r + v, |u|, repl)
  {
    assert u + r + v == u + (r + v);
    assert (r + v)[0] == r[0];
    NumberSubBeforeNonWord(u, r + v, 0, repl);
  }

  /** The number pass over the text after a placeholder is the pass over that text alone. */
  lemma NumberSubAfterPlaceholder(u: string, r: string, v: string, repl: string)
    requires Bracketed(r)
    ensures SubFrom(NumberPattern, u + r + v, |u| + |r|, repl) == SubFrom(NumberPattern, v, 0, repl)
  {
    assert (u + r)[|u + r| - 1] == r[|r| - 1];
    NumberSubRestAfterNonWord(u + r, v, repl);
  }

  /** The number pass from the end of a text that ends in a non-word character on is the pass over the rest alone. */
  lemma NumberSubRestAfterNonWord(c: string, v: string, repl: string)
    requires |c| > 0 && !IsWordChar(c[|c| - 1])
    ensures SubFrom(NumberPattern, c + v, |c|, repl) == SubFrom(NumberPattern, v, 0, repl)
  {
    NumberSubAfterNonWord(c, v, 0, repl);
  }

  /**
   * The number pass works on either side of a placeholder separately and keeps the
   * placeholder itself: `[` and `]` are not word characters, so no number match reaches
   * into it or starts in it, and `\b` on either side of it is as at the ends of the parts.
   */
  lemma NumberSubAroundPlaceholder(u: string, r: string, v: string, repl: string)
    requires Bracketed(r)
    ensures SubFrom(NumberPattern, u + r + v, 0, repl) ==
            SubFrom(NumberPattern, u, 0, repl) + r + SubFrom(NumberPattern, v, 0, repl)
  {
    NumberSubBeforePlaceholder(u, r, v, repl);
    NumberSubKeepsPlaceholder(u, r, v, repl);
    NumberSubAfterPlaceholder(u, r, v, repl);
    Regroup([], SubFrom(NumberPattern, u, 0, repl), r, SubFrom(NumberPattern, v, 0, repl));
  }
}
