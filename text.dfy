/**
 * The parts of Python's `str` API the scanner relies on: `strip()` with no
 * argument and `lower()`, both restricted to ASCII text.
 */
module Text {

  /** `c.isspace()` for an ASCII character: tab, line feed, vertical tab,
      form feed, carriage return, the four information separators
      U+001C..U+001F, and space. */
  predicate IsSpace(c: char) {
    ('\t' <= c <= '\r') || ('\U{1C}' <= c <= ' ')
  }

  /** The first position at or after `i` that is not whitespace, or `|s|`. */
  function SkipSpaces(s: string, i: nat): (k: nat)
    requires i <= |s|
    decreases |s| - i
    ensures i <= k <= |s|
    ensures forall j :: i <= j < k ==> IsSpace(s[j])
    ensures k < |s| ==> !IsSpace(s[k])
  {
    if i == |s| || !IsSpace(s[i]) then i else SkipSpaces(s, i + 1)
  }

  /** The end of `s[lo..hi]` once its trailing whitespace is dropped,
      scanning left from `hi` but not past `lo`. */
  function BackSpaces(s: string, lo: nat, hi: nat): (k: nat)
    requires lo <= hi <= |s|
    decreases hi
    ensures lo <= k <= hi
    ensures forall j :: k <= j < hi ==> IsSpace(s[j])
    ensures k > lo ==> !IsSpace(s[k - 1])
  {
    if hi == lo || !IsSpace(s[hi - 1]) then hi else BackSpaces(s, lo, hi - 1)
  }

  /** Where the stripped text starts: after the leading whitespace. */
  function StripStart(s: string): nat {
    SkipSpaces(s, 0)
  }

  /** Where the stripped text ends: before the trailing whitespace. */
  function StripEnd(s: string): nat {
    BackSpaces(s, StripStart(s), |s|)
  }

  /** `s.strip()`: removes whitespace at both ends. */
  function Strip(s: string): (r: string)
    ensures |r| <= |s|
  {
    s[StripStart(s)..StripEnd(s)]
  }

  /** Has no whitespace at either end: what `strip()` leaves alone. */
  predicate IsTrimmed(s: string) {
    s == [] || (!IsSpace(s[0]) && !IsSpace(s[|s| - 1]))
  }

  /** `strip()` keeps a contiguous part of `s` and drops only whitespace
      around it; what it keeps has no whitespace at either end; and only a
      string of nothing but whitespace strips to the empty string. */
  lemma StripIsTrim(s: string)
    ensures IsTrimmed(Strip(s))
    ensures forall j :: 0 <= j < StripStart(s) || StripEnd(s) <= j < |s| ==> IsSpace(s[j])
    ensures Strip(s) == [] <==> forall i :: 0 <= i < |s| ==> IsSpace(s[i])
  {
    var lo, hi := StripStart(s), StripEnd(s);
    var r := Strip(s);
    if r != [] {
      assert r[0] == s[lo] && r[|r| - 1] == s[hi - 1];
    } else {
      assert lo == hi;
    }
  }

  /** A trimmed string is a fixed point of `strip()`. */
  lemma StripTrimmed(s: string)
    requires IsTrimmed(s)
    ensures Strip(s) == s
  {
    if s != [] {
      assert StripStart(s) == 0;
      assert StripEnd(s) == |s|;
    }
  }

  /** `strip()` is idempotent. */
  lemma StripIdempotent(s: string)
    ensures Strip(Strip(s)) == Strip(s)
  {
    StripIsTrim(s);
    StripTrimmed(Strip(s));
  }

  /** An ASCII capital letter. */
  predicate IsUpper(c: char) {
    'A' <= c <= 'Z'
  }

  /** `c.lower()` for an ASCII character: no capital is left, a capital
      becomes the small form of the same letter, and nothing else moves. */
  function LowerChar(c: char): (r: char)
    ensures !IsUpper(r)
    ensures IsUpper(c) ==> 'a' <= r <= 'z' && r as int - 'a' as int == c as int - 'A' as int
    ensures !IsUpper(c) ==> r == c
  {
    if IsUpper(c) then (c as int + 32) as char else c
  }

  /** `s.lower()` for ASCII text: the same length, no capital left, each
      capital replaced by its small letter, every other character kept. */
  function Lower(s: string): (r: string)
    ensures |r| == |s|
    ensures forall i :: 0 <= i < |r| ==> !IsUpper(r[i])
    ensures forall i :: 0 <= i < |s| && IsUpper(s[i]) ==>
              'a' <= r[i] <= 'z' && r[i] as int - 'a' as int == s[i] as int - 'A' as int
    ensures forall i :: 0 <= i < |s| && !IsUpper(s[i]) ==> r[i] == s[i]
  {
    seq(|s|, i requires 0 <= i < |s| => LowerChar(s[i]))
  }

  /** Lowering twice is lowering once. */
  lemma LowerIdempotent(s: string)
    ensures Lower(Lower(s)) == Lower(s)
  {
  }

  /** A text with no capital is its own lower case. */
  lemma LowerNoUpper(s: string)
    requires forall i :: 0 <= i < |s| ==> !IsUpper(s[i])
    ensures Lower(s) == s
  {
  }
}
