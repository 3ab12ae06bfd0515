/**
 * The Python `str` built-ins the scraper applies to the text it extracts,
 * over strings of Unicode scalar values: `encode('ascii', 'ignore')`,
 * `strip`, `find`, slicing, `split`, `replace` and `str(int)`.
 */
module Text {

  /** A character `str.encode('ascii', 'ignore')` keeps. */
  predicate IsAscii(c: char) {
    (c as int) < 128
  }

  /** The characters Python's `str.isspace` accepts; `str.strip()` removes these. */
  predicate IsSpace(c: char) {
    var n := c as int;
    n == 32 || 9 <= n <= 13 || 28 <= n <= 31 || n == 0x85 || n == 0xA0 || n == 0x1680
    || 0x2000 <= n <= 0x200A || n == 0x2028 || n == 0x2029 || n == 0x202F || n == 0x205F
    || n == 0x3000
  }

  predicate IsQuote(c: char) {
    c == '\''
  }

  predicate IsDigit(c: char) {
    '0' <= c <= '9'
  }

  /** Number of characters of `s` that satisfy `p`. */
  function CountIf(s: string, p: char -> bool): nat {
    if s == [] then 0 else (if p(s[0]) then 1 else 0) + CountIf(s[1..], p)
  }

  /** Number of occurrences of `c` in `s` (`s.count(c)`). */
  function Count(s: string, c: char): nat {
    if s == [] then 0 else (if s[0] == c then 1 else 0) + Count(s[1..], c)
  }

  lemma {:induction false} CountAppend(a: string, b: string, c: char)
    ensures Count(a + b, c) == Count(a, c) + Count(b, c)
  {
    if a == [] {
      assert a + b == b;
    } else {
      assert (a + b)[1..] == a[1..] + b;
      CountAppend(a[1..], b, c);
    }
  }

  lemma {:induction false} CountAbsent(s: string, c: char)
    requires c !in s
    ensures Count(s, c) == 0
  {
    if s != [] {
      assert s[0] != c;
      assert forall x :: x in s[1..] ==> x in s;
      CountAbsent(s[1..], c);
    }
  }

  /**
   * `s.encode('ascii', 'ignore').decode()`: the ASCII characters of `s`, in
   * their original order.
   */
  function DropNonAscii(s: string): (r: string)
    ensures |r| == CountIf(s, IsAscii)
    ensures forall c :: c in r ==> IsAscii(c)
  {
    if s == [] then [] else (if IsAscii(s[0]) then [s[0]] else []) + DropNonAscii(s[1..])
  }

  /** Dropping non-ASCII characters works character by character, keeping order. */
  lemma {:induction false} DropNonAsciiAppend(a: string, b: string)
    ensures DropNonAscii(a + b) == DropNonAscii(a) + DropNonAscii(b)
  {
    if a == [] {
      assert a + b == b;
    } else {
      assert (a + b)[1..] == a[1..] + b;
      DropNonAsciiAppend(a[1..], b);
    }
  }

  /** An ASCII string is left as it is. */
  lemma {:induction false} DropNonAsciiOfAscii(s: string)
    requires forall c :: c in s ==> IsAscii(c)
    ensures DropNonAscii(s) == s
  {
    if s != [] {
      assert s[0] in s;
      assert forall c :: c in s[1..] ==> c in s;
      DropNonAsciiOfAscii(s[1..]);
    }
  }

  /** `s.lstrip(chars)`, where `drop` tests membership of `chars`. */
  function TrimLeft(s: string, drop: char -> bool): (r: string)
    ensures |r| <= |s| && r == s[|s| - |r|..]
    ensures r != [] ==> !drop(r[0])
    ensures forall i :: 0 <= i < |s| - |r| ==> drop(s[i])
  {
    if s != [] && drop(s[0]) then
      var r := TrimLeft(s[1..], drop);
      assert s[1..][|s| - 1 - |r|..] == s[|s| - |r|..];
      assert forall i :: 1 <= i < |s| - |r| ==> s[1..][i - 1] == s[i];
      r
    else s
  }

  /** `s.rstrip(chars)`, where `drop` tests membership of `chars`. */
  function TrimRight(s: string, drop: char -> bool): (r: string)
    ensures |r| <= |s| && r == s[..|r|]
    ensures r != [] ==> !drop(r[|r| - 1])
    ensures forall i :: |r| <= i < |s| ==> drop(s[i])
  {
    if s != [] && drop(s[|s| - 1]) then
      var r := TrimRight(s[..|s| - 1], drop);
      assert s[..|s| - 1][..|r|] == s[..|r|];
      assert forall i :: |r| <= i < |s| - 1 ==> s[..|s| - 1][i] == s[i];
      r
    else s
  }

  /**
   * `s.strip()` when `drop` is IsSpace, `s.strip("'")` when it is IsQuote:
   * the longest middle part of `s` that neither starts nor ends with a
   * dropped character.
   */
  function Strip(s: string, drop: char -> bool): (r: string)
    ensures |r| <= |s|
    ensures r != [] ==> !drop(r[0]) && !drop(r[|r| - 1])
  {
    TrimRight(TrimLeft(s, drop), drop)
  }

  /** Stripping an all-dropped string leaves nothing, and an already-stripped one is left alone. */
  lemma StripCases(s: string, drop: char -> bool)
    ensures (forall i :: 0 <= i < |s| ==> drop(s[i])) ==> Strip(s, drop) == []
    ensures s != [] && !drop(s[0]) && !drop(s[|s| - 1]) ==> Strip(s, drop) == s
  {
  }

  /** How many dropped characters `lstrip` removes from the front of `s`. */
  function StripStart(s: string, drop: char -> bool): nat {
    |s| - |TrimLeft(s, drop)|
  }

  /** `lstrip` removes only dropped characters. */
  lemma StripStartDropped(s: string, drop: char -> bool)
    ensures StripStart(s, drop) <= |s|
    ensures forall k :: 0 <= k < StripStart(s, drop) ==> drop(s[k])
  {
  }

  /** The stripped string sits in `s` at `StripStart`. */
  lemma StripAt(s: string, drop: char -> bool)
    ensures StripStart(s, drop) + |Strip(s, drop)| <= |s|
    ensures Strip(s, drop) == s[StripStart(s, drop)..StripStart(s, drop) + |Strip(s, drop)|]
  {
    PrefixOfSuffix(s, TrimLeft(s, drop), Strip(s, drop));
  }

  /** A prefix of the suffix of `s` at `|s| - |left|` is the slice of `s` starting there. */
  lemma PrefixOfSuffix(s: string, left: string, r: string)
    requires |left| <= |s| && left == s[|s| - |left|..]
    requires |r| <= |left| && r == left[..|r|]
    ensures r == s[|s| - |left|..|s| - |left| + |r|]
  {
  }

  /** `rstrip` removes only dropped characters. */
  lemma StripEndDropped(s: string, drop: char -> bool)
    ensures StripStart(s, drop) + |Strip(s, drop)| <= |s|
    ensures forall k :: StripStart(s, drop) + |Strip(s, drop)| <= k < |s| ==> drop(s[k])
  {
    var left := TrimLeft(s, drop);
    var r := TrimRight(left, drop);
    assert StripStart(s, drop) == |s| - |left| && Strip(s, drop) == r;
    DroppedTailOfSuffix(s, left, |r|, drop);
  }

  /** Dropped characters at the end of a suffix of `s` are dropped characters at the end of `s`. */
  lemma DroppedTailOfSuffix(s: string, left: string, n: nat, drop: char -> bool)
    requires |left| <= |s| && left == s[|s| - |left|..] && n <= |left|
    requires forall j :: n <= j < |left| ==> drop(left[j])
    ensures forall k :: |s| - |left| + n <= k < |s| ==> drop(s[k])
  {
    forall k | |s| - |left| + n <= k < |s|
      ensures drop(s[k])
    {
      assert s[k] == left[k - (|s| - |left|)];
    }
  }

  /**
   * The stripped string is the part of `s` from `StripStart` on, between a
   * prefix and a suffix of dropped characters; with the ends `Strip`
   * guarantees, it runs from the first to the last kept character.
   */
  lemma StripInfix(s: string, drop: char -> bool)
    ensures var r, i := Strip(s, drop), StripStart(s, drop);
      && i + |r| <= |s| && r == s[i..i + |r|]
      && (forall k :: 0 <= k < i ==> drop(s[k]))
      && (forall k :: i + |r| <= k < |s| ==> drop(s[k]))
  {
    StripStartDropped(s, drop);
    StripAt(s, drop);
    StripEndDropped(s, drop);
  }

  /** Stripping only removes characters: whatever is left was in `s`. */
  lemma StripWithin(s: string, drop: char -> bool, c: char)
    requires c in Strip(s, drop)
    ensures c in s
  {
    var left := TrimLeft(s, drop);
    assert Strip(s, drop) == left[..|Strip(s, drop)|];
    assert left == s[|s| - |left|..];
  }

  /** `s.find(c)`: the index of the first `c`, or -1. */
  function Find(s: string, c: char): (r: int)
    ensures -1 <= r < |s|
    ensures r == -1 <==> c !in s
    ensures 0 <= r ==> s[r] == c && c !in s[..r]
  {
    if s == [] then -1
    else if s[0] == c then 0
    else
      var k := Find(s[1..], c);
      if k == -1 then -1
      else
        assert s[..k + 1] == [s[0]] + s[1..][..k];
        k + 1
  }

  /** `Find` gives the one index holding `c` with no `c` before it. */
  lemma FindAt(s: string, c: char, i: int)
    requires 0 <= i < |s| && s[i] == c && c !in s[..i]
    ensures Find(s, c) == i
  {
  }

  /** The index of the first `c` after a prefix that holds none. */
  lemma FindAfter(a: string, c: char, b: string)
    requires c !in a
    ensures Find(a + [c] + b, c) == |a|
  {
    var s := a + [c] + b;
    assert s[|a|] == c;
    assert forall i :: 0 <= i < |a| ==> s[i] == a[i];
  }

  /** A Python slice index, made non-negative and clamped to `0..n`. */
  function Clamp(i: int, n: nat): (r: nat)
    ensures r <= n
    ensures 0 <= i <= n ==> r == i
    ensures 0 < -i <= n ==> r == n + i
    ensures i > n ==> r == n
    ensures i + n < 0 ==> r == 0
  {
    if i < 0 then (if n + i < 0 then 0 else n + i)
    else if i > n then n
    else i
  }

  /** `s[lo:hi]` with Python's rules for negative and out-of-range bounds. */
  function Slice(s: string, lo: int, hi: int): string
  {
    var a, b := Clamp(lo, |s|), Clamp(hi, |s|);
    if a <= b then s[a..b] else []
  }

  /**
   * `(p + s)[:(p + s).find(c)]` for a prefix `p` without `c`: `p` and `s`
   * up to its first `c`, or everything but the last character when `s`
   * holds no `c` either.
   */
  lemma CutAtFirst(p: string, s: string, c: char)
    requires c !in p && p != []
    ensures c in s ==> Slice(p + s, 0, Find(p + s, c)) == p + s[..Find(s, c)]
    ensures c !in s ==> Slice(p + s, 0, Find(p + s, c)) == (p + s)[..|p| + |s| - 1]
  {
    var full := p + s;
    if c in s {
      var i := Find(s, c);
      var k := |p| + i;
      assert full[k] == c;
      assert full[..k] == p + s[..i];
      FindAt(full, c, k);
      assert Clamp(0, |full|) == 0 && Clamp(k, |full|) == k;
    } else {
      assert c !in full;
      assert Clamp(-1, |full|) == |full| - 1;
    }
  }

  /** The pieces joined back with `sep` between them (`sep.join(parts)`). */
  function Join(parts: seq<string>, sep: char): string
  {
    if parts == [] then []
    else if |parts| == 1 then parts[0]
    else parts[0] + [sep] + Join(parts[1..], sep)
  }

  /**
   * `s.split(sep)` for a one-character separator: the text between
   * consecutive separators, one more piece than there are separators.
   */
  function Split(s: string, sep: char): (r: seq<string>)
    ensures |r| == Count(s, sep) + 1
    ensures forall i :: 0 <= i < |r| ==> sep !in r[i]
    ensures Join(r, sep) == s
    decreases |s|
  {
    var k := Find(s, sep);
    if k == -1 then
      CountAbsent(s, sep);
      [s]
    else
      assert s == s[..k] + [sep] + s[k + 1..];
      CountAppend(s[..k] + [sep], s[k + 1..], sep);
      CountAppend(s[..k], [sep], sep);
      CountAbsent(s[..k], sep);
      var rest := Split(s[k + 1..], sep);
      var r := [s[..k]] + rest;
      assert r[0] == s[..k] && r[1..] == rest;
      assert forall i :: 1 <= i < |r| ==> r[i] == rest[i - 1];
      r
  }

  /** One step of `Split`: the text before the first separator, then the split of the rest. */
  lemma SplitStep(s: string, sep: char, k: nat)
    requires k < |s| && s[k] == sep && sep !in s[..k]
    ensures Split(s, sep) == [s[..k]] + Split(s[k + 1..], sep)
  {
    FindAt(s, sep, k);
  }

  /** Splitting undoes joining, as long as no piece holds the separator. */
  lemma {:induction false} SplitJoin(parts: seq<string>, sep: char)
    requires parts != []
    requires forall i :: 0 <= i < |parts| ==> sep !in parts[i]
    ensures Split(Join(parts, sep), sep) == parts
  {
    if |parts| == 1 {
      assert Find(parts[0], sep) == -1;
    } else {
      var rest := Join(parts[1..], sep);
      var s := parts[0] + [sep] + rest;
      var k := |parts[0]|;
      assert s[..k] == parts[0] && s[k] == sep && s[k + 1..] == rest;
      SplitStep(s, sep, k);
      assert forall i :: 0 <= i < |parts[1..]| ==> parts[1..][i] == parts[i + 1];
      SplitJoin(parts[1..], sep);
      assert [parts[0]] + parts[1..] == parts;
    }
  }

  /** The first piece is the text before the first separator (all of it when there is none). */
  lemma SplitFirst(s: string, sep: char)
    ensures var r := Split(s, sep);
      && (|r| > 1 <==> sep in s)
      && |r[0]| <= |s| && r[0] == s[..|r[0]|]
      && (|r| > 1 ==> |r[0]| < |s| && s[|r[0]|] == sep)
  {
    var k := Find(s, sep);
    if k == -1 {
      assert Split(s, sep) == [s];
      assert s[..|s|] == s;
    } else {
      var rest := Split(s[k + 1..], sep);
      assert Split(s, sep) == [s[..k]] + rest;
      assert |rest| >= 1;
    }
  }

  /** With two pieces or more, the text starts with the first two joined by the separator. */
  lemma SplitFirstTwo(s: string, sep: char)
    ensures var r := Split(s, sep);
      && (|r| >= 2 <==> sep in s)
      && (|r| >= 2 ==> sep !in r[0] && sep !in r[1] && r[0] + [sep] + r[1] <= s)
      && (|r| == 2 ==> r[0] + [sep] + r[1] == s)
      && (|r| > 2 ==> r[0] + [sep] + r[1] + [sep] <= s)
  {
    SplitFirst(s, sep);
    if |Split(s, sep)| >= 2 {
      JoinFirstTwo(Split(s, sep), sep);
    }
  }

  /**
   * A text joined from two pieces or more starts with the first two and a
   * separator between them; it is exactly that with two pieces, and another
   * separator follows with more.
   */
  lemma JoinFirstTwo(r: seq<string>, sep: char)
    requires |r| >= 2
    ensures r[0] + [sep] + r[1] <= Join(r, sep)
    ensures |r| == 2 ==> Join(r, sep) == r[0] + [sep] + r[1]
    ensures |r| > 2 ==> r[0] + [sep] + r[1] + [sep] <= Join(r, sep)
  {
    var t := Join(r[1..], sep);
    assert Join(r, sep) == r[0] + [sep] + t;
    JoinHead(r[1..], sep);
    if |r| == 2 {
      assert t == r[1];
    } else {
      assert r[1] + [sep] <= t;
      assert Join(r, sep)[..|r[0]| + 1 + |r[1]| + 1] == r[0] + [sep] + t[..|r[1]| + 1];
    }
    assert Join(r, sep)[..|r[0]| + 1 + |r[1]|] == r[0] + [sep] + t[..|r[1]|];
  }

  /** A joined text starts with its first piece, followed by a separator when more pieces follow. */
  lemma JoinHead(parts: seq<string>, sep: char)
    requires parts != []
    ensures parts[0] <= Join(parts, sep)
    ensures |parts| == 1 ==> Join(parts, sep) == parts[0]
    ensures |parts| > 1 ==> parts[0] + [sep] <= Join(parts, sep)
  {
    if |parts| > 1 {
      assert Join(parts, sep) == (parts[0] + [sep]) + Join(parts[1..], sep);
    }
  }

  /** `str.replace(x, y)` for single characters. */
  function Replace(s: string, x: char, y: char): (r: string)
    ensures |r| == |s|
    ensures forall i :: 0 <= i < |s| ==> r[i] == if s[i] == x then y else s[i]
  {
    if s == [] then [] else [if s[0] == x then y else s[0]] + Replace(s[1..], x, y)
  }

  /** `str.replace(x, '')`: every `x` removed, the rest kept in order. */
  function Remove(s: string, x: char): (r: string)
    ensures x !in r
    ensures |r| == |s| - Count(s, x)
    ensures x !in s ==> r == s
  {
    if s == [] then []
    else
      assert forall c :: c in s[1..] ==> c in s;
      (if s[0] == x then [] else [s[0]]) + Remove(s[1..], x)
  }

  /** Removing works piece by piece: the kept characters stay in their order. */
  lemma {:induction false} RemoveAppend(a: string, b: string, x: char)
    ensures Remove(a + b, x) == Remove(a, x) + Remove(b, x)
  {
    if a == [] {
      assert a + b == b;
    } else {
      var head := if a[0] == x then [] else [a[0]];
      assert (a + b)[0] == a[0] && (a + b)[1..] == a[1..] + b;
      calc {
        Remove(a + b, x);
        head + Remove(a[1..] + b, x);
        { RemoveAppend(a[1..], b, x); }
        head + (Remove(a[1..], x) + Remove(b, x));
        (head + Remove(a[1..], x)) + Remove(b, x);
      }
    }
  }

  /** A single character is removed when it is `x` and kept otherwise. */
  lemma RemoveChar(c: char, x: char)
    ensures Remove([c], x) == if c == x then [] else [c]
  {
    assert [c][1..] == [];
  }

  function DigitChar(d: nat): (c: char)
    requires d < 10
    ensures IsDigit(c)
  {
    (48 + d) as char
  }

  function DigitValue(c: char): (d: nat)
    requires IsDigit(c)
    ensures d < 10 && DigitChar(d) == c
  {
    (c as int) - 48
  }

  /** `str(n)` for a natural number: its decimal digits, without leading zeros. */
  function Decimal(n: nat): (r: string)
    ensures r != [] && forall c :: c in r ==> IsDigit(c)
    ensures r[0] == '0' ==> n == 0
    ensures |r| == 1 <==> n < 10
  {
    if n < 10 then [DigitChar(n)] else Decimal(n / 10) + [DigitChar(n % 10)]
  }

  /** The number a string of decimal digits denotes (`int(s)`). */
  function ParseDecimal(s: string): nat
    requires forall c :: c in s ==> IsDigit(c)
  {
    if s == [] then 0
    else
      assert forall c :: c in s[..|s| - 1] ==> c in s;
      10 * ParseDecimal(s[..|s| - 1]) + DigitValue(s[|s| - 1])
  }

  /** Reading back a rendered number gives the number: `int(str(n)) == n`. */
  lemma {:induction false} DecimalRoundTrip(n: nat)
    ensures ParseDecimal(Decimal(n)) == n
  {
    if n >= 10 {
      var r := Decimal(n);
      assert r[..|r| - 1] == Decimal(n / 10);
      DecimalRoundTrip(n / 10);
    }
  }

  /** `str(n)` for any integer. */
  function PyStr(n: int): (r: string)
    ensures |r| == 1 <==> 0 <= n < 10
    ensures 0 <= n < 10 ==> r == [DigitChar(n)]
  {
    if n < 0 then "-" + Decimal(-n) else Decimal(n)
  }
}
