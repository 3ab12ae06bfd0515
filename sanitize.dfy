/**
 * Mapping remote display names to local file and directory names.
 *
 * `cd.__init__` drops every non-ASCII character of the name and then, one
 * unsafe character at a time, replaces each occurrence by `_`; the download
 * code repeats the replacement loop (without the ASCII step) on file names.
 */
module Sanitize {
  import opened Text

  /** The characters the scraper refuses in a file or directory name, in the order it replaces them. */
  const Unsafe: string := ['\\', '/', ':', '*', '?', '"', '<', '>', '|']

  /** A name holding none of the unsafe characters. */
  predicate Safe(s: string) {
    forall c :: c in s ==> c !in Unsafe
  }

  /** `s` with every character listed in `cs` replaced by `_`. */
  function ScrubWith(s: string, cs: string): string {
    seq(|s|, i requires 0 <= i < |s| => if s[i] in cs then '_' else s[i])
  }

  /** The net effect of the replacement loop over all unsafe characters. */
  function Scrub(s: string): (r: string)
    ensures |r| == |s| && Safe(r)
    ensures forall i :: 0 <= i < |s| ==> r[i] == if s[i] in Unsafe then '_' else s[i]
  {
    ScrubWith(s, Unsafe)
  }

  /** Scrubbing works character by character, so it distributes over concatenation. */
  lemma ScrubAppend(a: string, b: string)
    ensures Scrub(a + b) == Scrub(a) + Scrub(b)
  {
    var l, r := Scrub(a + b), Scrub(a) + Scrub(b);
    forall i | 0 <= i < |a + b|
      ensures l[i] == r[i]
    {
      if i < |a| {
        assert (a + b)[i] == a[i];
      } else {
        assert (a + b)[i] == b[i - |a|];
      }
    }
  }

  /** A safe name is left as it is. */
  lemma ScrubSafe(s: string)
    requires Safe(s)
    ensures Scrub(s) == s
  {
    forall i | 0 <= i < |s|
      ensures Scrub(s)[i] == s[i]
    {
      assert s[i] in s;
    }
  }

  /**
   * The replacement loop: for each unsafe character in turn, if it occurs
   * in the name, every occurrence is replaced by `_`.
   */
  method ReplaceUnsafe(s: string) returns (r: string)
    ensures r == Scrub(s)
    ensures |r| == |s| && Safe(r)
    ensures forall i :: 0 <= i < |s| && s[i] !in Unsafe ==> r[i] == s[i]
  {
    r := s;
    var i := 0;
    while i < |Unsafe|
      invariant 0 <= i <= |Unsafe|
      invariant r == ScrubWith(s, Unsafe[..i])
    {
      var c := Unsafe[i];
      ghost var done := Unsafe[..i + 1];
      assert done == Unsafe[..i] + [c];
      if c in r {
        r := Replace(r, c, '_');
      } else {
        assert forall j :: 0 <= j < |s| && s[j] == c ==> r[j] == c;
      }
      assert forall j :: 0 <= j < |s| ==> r[j] == ScrubWith(s, done)[j];
      i := i + 1;
    }
    assert Unsafe[..i] == Unsafe;
  }

  /** The directory name `cd` derives from a display name. */
  function SanitizeName(name: string): (r: string)
    ensures Safe(r) && forall c :: c in r ==> IsAscii(c)
    ensures |r| == CountIf(name, IsAscii)
  {
    Scrub(DropNonAscii(name))
  }

  /** What sanitising does to a single character. */
  lemma SanitizeChar(c: char)
    ensures SanitizeName([c]) == if !IsAscii(c) then [] else if c in Unsafe then "_" else [c]
  {
    assert [c][1..] == [];
  }

  /**
   * Sanitising works character by character: every ASCII character is kept
   * (or turned into `_`) in its original order, every other one is dropped.
   */
  lemma SanitizeAppend(a: string, b: string)
    ensures SanitizeName(a + b) == SanitizeName(a) + SanitizeName(b)
  {
    DropNonAsciiAppend(a, b);
    var x, y := DropNonAscii(a), DropNonAscii(b);
    assert Scrub(x + y) == Scrub(x) + Scrub(y);
  }

  /** A name that is already safe and ASCII comes back unchanged. */
  lemma SanitizeKeepsSafeAscii(name: string)
    requires Safe(name) && forall c :: c in name ==> IsAscii(c)
    ensures SanitizeName(name) == name
  {
    DropNonAsciiOfAscii(name);
  }

  /** Sanitising is idempotent. */
  lemma SanitizeIdempotent(name: string)
    ensures SanitizeName(SanitizeName(name)) == SanitizeName(name)
  {
    SanitizeKeepsSafeAscii(SanitizeName(name));
  }

  /** A sanitised name is one path component: it holds no `/`. */
  lemma SanitizedIsOneComponent(name: string)
    ensures '/' !in SanitizeName(name)
  {
    assert '/' in Unsafe;
  }
}
