/**
 * Character classes and the small string operations the bot applies to message text:
 * Python's `str.lower()`, `str.strip()` and the substring test `needle in haystack`,
 * all restricted to an ASCII view of characters.
 */
module Text {

  /** Python's `\w` restricted to ASCII: letters, digits and the underscore. */
  predicate IsWordChar(c: char) {
    ('a' <= c <= 'z') || ('A' <= c <= 'Z') || ('0' <= c <= '9') || c == '_'
  }

  /** Python's `\d` restricted to ASCII. */
  predicate IsDigit(c: char) {
    '0' <= c <= '9'
  }

  /** The ASCII characters for which Python's `str.isspace()` holds. */
  predicate IsSpace(c: char) {
    c == ' ' || ('\t' <= c <= '\r') || ('\U{1C}' <= c <= '\U{1F}')
  }

  function LowerChar(c: char): (r: char)
    ensures 'A' <= c <= 'Z' ==> r as int == c as int + 32
    ensures !('A' <= c <= 'Z') ==> r == c
    ensures !('A' <= r <= 'Z')
  {
    if 'A' <= c <= 'Z' then (c as int + 32) as char else c
  }

  /** `s.lower()`, ASCII letters only. */
  function Lower(s: string): (r: string)
    ensures |r| == |s|
    ensures forall k :: 0 <= k < |s| ==> r[k] == LowerChar(s[k])
  {
    seq(|s|, k requires 0 <= k < |s| => LowerChar(s[k]))
  }

  /** Text without upper-case ASCII letters is its own lower case. */
  lemma LowerOfLowercase(s: string)
    requires forall k :: 0 <= k < |s| ==> !('A' <= s[k] <= 'Z')
    ensures Lower(s) == s
  {
  }

  lemma LowerIdempotent(s: string)
    ensures Lower(Lower(s)) == Lower(s)
  {
  }

  /** `s.lstrip()` */
  function TrimStart(s: string): (r: string)
    ensures |r| <= |s| && r == s[|s| - |r|..]
    ensures forall k :: 0 <= k < |s| - |r| ==> IsSpace(s[k])
    ensures |r| > 0 ==> !IsSpace(r[0])
  {
    if |s| > 0 && IsSpace(s[0]) then TrimStart(s[1..]) else s
  }

  /** `s.rstrip()` */
  function TrimEnd(s: string): (r: string)
    ensures |r| <= |s| && r == s[..|r|]
    ensures forall k :: |r| <= k < |s| ==> IsSpace(s[k])
    ensures |r| > 0 ==> !IsSpace(r[|r| - 1])
  {
    if |s| > 0 && IsSpace(s[|s| - 1]) then TrimEnd(s[..|s| - 1]) else s
  }

  /** `s.strip()`: the text between the leading and the trailing whitespace. */
  function Strip(s: string): (r: string)
    ensures |r| <= |s|
    ensures |r| > 0 ==> !IsSpace(r[0]) && !IsSpace(r[|r| - 1])
  {
    var t := TrimStart(s);
    var e := TrimEnd(t);
    assert |e| > 0 ==> e[0] == t[0];
    e
  }

  /** `Strip(s)` is the slice of `s` that drops whitespace only. */
  lemma StripIsTrimmedSlice(s: string)
    ensures exists lo, hi ::
      0 <= lo <= hi <= |s| && Strip(s) == s[lo..hi] &&
      (forall k :: 0 <= k < lo ==> IsSpace(s[k])) &&
      (forall k :: hi <= k < |s| ==> IsSpace(s[k]))
  {
    var t := TrimStart(s);
    var lo := |s| - |t|;
    var e := TrimEnd(t);
    var hi := lo + |e|;
    assert t == s[lo..];
    assert e == t[..|e|];
    assert e == s[lo..hi] by {
      forall k | 0 <= k < |e|
        ensures e[k] == s[lo + k]
      {
        assert e[k] == t[k];
      }
    }
    forall k | hi <= k < |s|
      ensures IsSpace(s[k])
    {
      assert s[k] == t[k - lo];
    }
  }

  /** Stripping twice is stripping once. */
  lemma StripIdempotent(s: string)
    ensures Strip(Strip(s)) == Strip(s)
  {
    var r := Strip(s);
    if |r| > 0 {
      assert TrimStart(r) == r;
      assert TrimEnd(r) == r;
    }
  }

  predicate IsPrefix(needle: string, hay: string) {
    |needle| <= |hay| && needle == hay[..|needle|]
  }

  /** `needle` occurs in `hay` starting at offset `i`. */
  predicate OccursAt(hay: string, needle: string, i: nat) {
    i + |needle| <= |hay| && hay[i..i + |needle|] == needle
  }

  /** Python's `needle in hay` on strings. */
  predicate Contains(hay: string, needle: string): (r: bool)
    ensures r ==> |needle| <= |hay|
    ensures |needle| == 0 ==> r
    decreases |hay|
  {
    IsPrefix(needle, hay) || (|hay| > 0 && Contains(hay[1..], needle))
  }

  /** An occurrence at a known offset is an occurrence. */
  lemma {:induction false} ContainsAt(hay: string, needle: string, i: nat)
    requires OccursAt(hay, needle, i)
    ensures Contains(hay, needle)
    decreases i
  {
    if i == 0 {
      assert IsPrefix(needle, hay);
    } else {
      assert hay[1..][i - 1..i - 1 + |needle|] == hay[i..i + |needle|];
      ContainsAt(hay[1..], needle, i - 1);
    }
  }

  /** Every occurrence sits at some offset. */
  lemma {:induction false} ContainsOffset(hay: string, needle: string)
    requires Contains(hay, needle)
    ensures exists i: nat :: OccursAt(hay, needle, i)
    decreases |hay|
  {
    if IsPrefix(needle, hay) {
      assert OccursAt(hay, needle, 0);
    } else {
      ContainsOffset(hay[1..], needle);
      var i: nat :| OccursAt(hay[1..], needle, i);
      assert hay[1..][i..i + |needle|] == hay[i + 1..i + 1 + |needle|];
      assert OccursAt(hay, needle, i + 1);
    }
  }

  /** Text appended after the haystack keeps every occurrence. */
  lemma ContainsAppend(hay: string, needle: string, tail: string)
    requires Contains(hay, needle)
    ensures Contains(hay + tail, needle)
  {
    ContainsOffset(hay, needle);
    var i: nat :| OccursAt(hay, needle, i);
    assert (hay + tail)[i..i + |needle|] == hay[i..i + |needle|];
    ContainsAt(hay + tail, needle, i);
  }

  /** Text put before the haystack keeps every occurrence. */
  lemma ContainsPrepend(head: string, hay: string, needle: string)
    requires Contains(hay, needle)
    ensures Contains(head + hay, needle)
  {
    ContainsOffset(hay, needle);
    var i: nat :| OccursAt(hay, needle, i);
    assert (head + hay)[|head| + i..|head| + i + |needle|] == hay[i..i + |needle|];
    ContainsAt(head + hay, needle, |head| + i);
  }

  /** A string occurs in itself. */
  lemma ContainsSelf(s: string)
    ensures Contains(s, s)
  {
    assert IsPrefix(s, s);
  }

  /** Every character of an occurring needle is a character of the haystack. */
  lemma ContainsChars(hay: string, needle: string, k: nat)
    requires Contains(hay, needle)
    requires k < |needle|
    ensures needle[k] in hay
  {
    ContainsOffset(hay, needle);
    var i: nat :| OccursAt(hay, needle, i);
    assert hay[i..i + |needle|][k] == hay[i + k];
  }

  /** A one-character needle occurs exactly when the character does. */
  lemma ContainsCharIff(hay: string, c: char)
    ensures Contains(hay, [c]) <==> c in hay
  {
    if c in hay {
      var i :| 0 <= i < |hay| && hay[i] == c;
      assert OccursAt(hay, [c], i);
      ContainsAt(hay, [c], i);
    }
    if Contains(hay, [c]) {
      ContainsChars(hay, [c], 0);
    }
  }
}
