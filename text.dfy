/**
 * The pieces of Python's `str` that the question-answering pipeline relies on:
 * `isspace` and `strip`, `split()` with no separator, `sep.join(parts)`, and the
 * decimal rendering of a non-negative `int` inside an f-string.
 */
module Text {

  /** Python's `str.isspace` for one character, the whitespace that `str.strip()`
      and `str.split()` remove: the ASCII controls TAB to CR and FS to US, SPACE,
      NEL, NO-BREAK SPACE and the other Unicode space separators. */
  predicate IsSpace(c: char) {
    || '\t' <= c <= '\r'
    || '\U{1c}' <= c <= ' '
    || c == '\U{85}' || c == '\U{a0}' || c == '\U{1680}'
    || '\U{2000}' <= c <= '\U{200a}'
    || c == '\U{2028}' || c == '\U{2029}' || c == '\U{202f}' || c == '\U{205f}'
    || c == '\U{3000}'
  }

  /** Every character is whitespace (the empty string included). */
  predicate IsBlank(s: string) {
    forall i | 0 <= i < |s| :: IsSpace(s[i])
  }

  /** The first index at or after `i` that does not hold whitespace (`|s|` if none). */
  function SkipSpaces(s: string, i: nat): (k: nat)
    requires i <= |s|
    ensures i <= k <= |s|
    ensures forall j | i <= j < k :: IsSpace(s[j])
    ensures k == |s| || !IsSpace(s[k])
    decreases |s| - i
  {
    if i < |s| && IsSpace(s[i]) then SkipSpaces(s, i + 1) else i
  }

  /** Scanning back from `hi` no further than `lo`: where the trailing whitespace of
      `s[lo..hi]` begins. */
  function TrimEnd(s: string, lo: nat, hi: nat): (k: nat)
    requires lo <= hi <= |s|
    ensures lo <= k <= hi
    ensures forall j | k <= j < hi :: IsSpace(s[j])
    ensures k == lo || !IsSpace(s[k - 1])
    decreases hi
  {
    if lo < hi && IsSpace(s[hi - 1]) then TrimEnd(s, lo, hi - 1) else hi
  }

  /** `s.strip()`: the slice of `s` left once whitespace is dropped at both ends. */
  function Strip(s: string): (r: string)
    ensures |r| <= |s|
    ensures r == [] || (!IsSpace(r[0]) && !IsSpace(r[|r| - 1]))
  {
    var lo := SkipSpaces(s, 0);
    s[lo..TrimEnd(s, lo, |s|)]
  }

  /** `s.strip()` is falsy exactly when `s` is whitespace only. */
  lemma StripEmptyIffBlank(s: string)
    ensures Strip(s) == [] <==> IsBlank(s)
  {
    var lo := SkipSpaces(s, 0);
    if lo < |s| {
      assert !IsSpace(s[lo]);
      assert TrimEnd(s, lo, |s|) > lo;
    }
  }

  /** A non-empty core with non-space ends and only whitespace around it is what
      `strip` returns. */
  lemma StripOfPadded(p: string, m: string, q: string)
    requires IsBlank(p) && IsBlank(q)
    requires m != [] && !IsSpace(m[0]) && !IsSpace(m[|m| - 1])
    ensures Strip(p + m + q) == m
  {
    var s := p + m + q;
    var lo := SkipSpaces(s, 0);
    assert s[|p|] == m[0];
    assert lo == |p|;
    var hi := TrimEnd(s, lo, |s|);
    assert s[|p| + |m| - 1] == m[|m| - 1];
    assert hi == |p| + |m|;
    assert s[lo..hi] == m;
  }

  /** Stripping twice is stripping once. */
  lemma StripIdempotent(s: string)
    ensures Strip(Strip(s)) == Strip(s)
  {
    var r := Strip(s);
    if r != [] {
      StripOfPadded([], r, []);
      assert [] + r + [] == r;
    }
  }

  /** Surrounding whitespace does not change what `strip` returns. */
  lemma StripIgnoresPadding(a: string, q: string, b: string)
    requires IsBlank(a) && IsBlank(b)
    ensures Strip(a + q + b) == Strip(q)
  {
    var lo, hi := StripBounds(q);
    if lo == hi {
      StripEmptyIffBlank(q);
      BlankPaddingStripsToEmpty(a, q, b);
    } else {
      var p, m, r := q[..lo], q[lo..hi], q[hi..];
      assert q == p + m + r;
      CorePaddingStrips(a, p, m, r, b);
    }
  }

  /** Where the stripped core of `q` lies, with its non-space ends. */
  lemma StripBounds(q: string) returns (lo: nat, hi: nat)
    ensures lo <= hi <= |q| && Strip(q) == q[lo..hi]
    ensures IsBlank(q[..lo]) && IsBlank(q[hi..])
    ensures lo < hi ==> !IsSpace(q[lo]) && !IsSpace(q[hi - 1])
  {
    lo := SkipSpaces(q, 0);
    hi := TrimEnd(q, lo, |q|);
    assert IsBlank(q[..lo]) && IsBlank(q[hi..]);
  }

  lemma BlankPaddingStripsToEmpty(a: string, q: string, b: string)
    requires IsBlank(a) && IsBlank(q) && IsBlank(b)
    ensures Strip(a + q + b) == []
  {
    BlankConcat(a, q);
    BlankConcat(a + q, b);
    StripEmptyIffBlank(a + q + b);
  }

  lemma CorePaddingStrips(a: string, p: string, m: string, r: string, b: string)
    requires IsBlank(a) && IsBlank(p) && IsBlank(r) && IsBlank(b)
    requires m != [] && !IsSpace(m[0]) && !IsSpace(m[|m| - 1])
    ensures Strip(a + (p + m + r) + b) == m
  {
    BlankConcat(a, p);
    BlankConcat(r, b);
    assert a + (p + m + r) + b == (a + p) + m + (r + b);
    StripOfPadded(a + p, m, r + b);
  }

  lemma BlankConcat(x: string, y: string)
    requires IsBlank(x) && IsBlank(y)
    ensures IsBlank(x + y)
  {
    var xy := x + y;
    forall i | 0 <= i < |xy|
      ensures IsSpace(xy[i])
    {
      if i < |x| {
        assert xy[i] == x[i];
      } else {
        assert xy[i] == y[i - |x|];
      }
    }
  }

  /** The first index at or after `i` that holds whitespace (`|s|` if none). */
  function SkipWord(s: string, i: nat): (k: nat)
    requires i <= |s|
    ensures i <= k <= |s|
    ensures forall j | i <= j < k :: !IsSpace(s[j])
    ensures k == |s| || IsSpace(s[k])
    decreases |s| - i
  {
    if i < |s| && !IsSpace(s[i]) then SkipWord(s, i + 1) else i
  }

  /** The words of `s[i..]`. */
  function SplitFrom(s: string, i: nat): (words: seq<string>)
    requires i <= |s|
    ensures forall w | w in words :: w != [] && forall j | 0 <= j < |w| :: !IsSpace(w[j])
    decreases |s| - i
  {
    var lo := SkipSpaces(s, i);
    if lo == |s| then []
    else
      var hi := SkipWord(s, lo);
      assert hi > lo;
      [s[lo..hi]] + SplitFrom(s, hi)
  }

  /** `s.split()`: the maximal runs of non-space characters, in order. */
  function Split(s: string): (words: seq<string>)
    ensures forall w | w in words :: w != [] && forall j | 0 <= j < |w| :: !IsSpace(w[j])
  {
    SplitFrom(s, 0)
  }

  /** The number of word starts in `s[i..]`: the non-space characters at `i`
      when `afterSpace` holds, or right after a whitespace character. */
  function WordStarts(s: string, i: nat, afterSpace: bool): nat
    requires i <= |s|
    decreases |s| - i
  {
    if i == |s| then 0
    else if IsSpace(s[i]) then WordStarts(s, i + 1, true)
    else (if afterSpace then 1 else 0) + WordStarts(s, i + 1, false)
  }

  /** A run of whitespace leaves one counting from after a space. */
  lemma {:induction false} WordStartsOverSpaces(s: string, i: nat, j: nat, afterSpace: bool)
    requires i < j <= |s|
    requires forall k | i <= k < j :: IsSpace(s[k])
    ensures WordStarts(s, i, afterSpace) == WordStarts(s, j, true)
    decreases j - i
  {
    if i + 1 < j {
      WordStartsOverSpaces(s, i + 1, j, true);
    }
  }

  /** Inside a word no new word starts. */
  lemma {:induction false} WordStartsOverWord(s: string, i: nat, j: nat)
    requires i <= j <= |s|
    requires forall k | i <= k < j :: !IsSpace(s[k])
    ensures WordStarts(s, i, false) == WordStarts(s, j, false)
    decreases j - i
  {
    if i < j {
      WordStartsOverWord(s, i + 1, j);
    }
  }

  /** `SplitFrom(s, i)` has one word per word start of `s[i..]`. */
  lemma {:induction false} SplitFromCount(s: string, i: nat)
    requires i <= |s|
    ensures |SplitFrom(s, i)| == WordStarts(s, i, true)
    decreases |s| - i
  {
    var lo := SkipSpaces(s, i);
    WordStartsOfSpaces(s, i);
    if lo < |s| {
      var hi := SkipWord(s, lo);
      SplitFromLength(s, i);
      WordStartsOfWord(s, lo);
      SplitFromCount(s, hi);
      WordStartsAtBoundary(s, hi);
    }
  }

  /** Leading whitespace opens no word. */
  lemma WordStartsOfSpaces(s: string, i: nat)
    requires i <= |s|
    ensures WordStarts(s, i, true) == WordStarts(s, SkipSpaces(s, i), true)
  {
    var lo := SkipSpaces(s, i);
    if i < lo {
      WordStartsOverSpaces(s, i, lo, true);
    }
  }

  /** A word opens once and then runs to the next whitespace. */
  lemma WordStartsOfWord(s: string, lo: nat)
    requires lo < |s| && !IsSpace(s[lo])
    ensures WordStarts(s, lo, true) == 1 + WordStarts(s, SkipWord(s, lo), false)
  {
    WordStartsOverWord(s, lo + 1, SkipWord(s, lo));
  }

  /** One word, then the words after it. */
  lemma SplitFromLength(s: string, i: nat)
    requires i <= |s| && SkipSpaces(s, i) < |s|
    ensures |SplitFrom(s, i)| == 1 + |SplitFrom(s, SkipWord(s, SkipSpaces(s, i)))|
  {
  }

  /** At the end of a word it does not matter whether a space came before. */
  lemma WordStartsAtBoundary(s: string, i: nat)
    requires i <= |s| && (i == |s| || IsSpace(s[i]))
    ensures WordStarts(s, i, false) == WordStarts(s, i, true)
  {
  }

  /** `len(s.split())` is the number of non-space characters that open the
      string or follow whitespace. */
  lemma SplitCount(s: string)
    ensures |Split(s)| == WordStarts(s, 0, true)
  {
    SplitFromCount(s, 0);
  }

  /** A string with a non-space character has at least one word. */
  lemma SplitNonBlank(s: string)
    requires !IsBlank(s)
    ensures |Split(s)| >= 1
  {
  }

  /** `sep.join(parts)`. */
  function Join(parts: seq<string>, sep: string): (r: string)
    decreases |parts|
  {
    if |parts| == 0 then ""
    else if |parts| == 1 then parts[0]
    else Join(parts[..|parts| - 1], sep) + sep + parts[|parts| - 1]
  }

  /** Where `parts[i]` starts in `sep.join(parts)`. */
  function JoinOffset(parts: seq<string>, sep: string, i: nat): nat
    requires i <= |parts|
  {
    if i == 0 then 0 else JoinOffset(parts, sep, i - 1) + |parts[i - 1]| + |sep|
  }

  lemma {:induction false} JoinOffsetPrefix(parts: seq<string>, sep: string, m: nat, i: nat)
    requires i <= m <= |parts|
    ensures JoinOffset(parts[..m], sep, i) == JoinOffset(parts, sep, i)
  {
    if i > 0 {
      JoinOffsetPrefix(parts, sep, m, i - 1);
    }
  }

  /** The joined string is as long as its parts and separators. */
  lemma {:induction false} JoinLength(parts: seq<string>, sep: string)
    requires |parts| >= 1
    ensures |Join(parts, sep)| + |sep| == JoinOffset(parts, sep, |parts|)
    decreases |parts|
  {
    var n := |parts|;
    if n > 1 {
      JoinLength(parts[..n - 1], sep);
      JoinOffsetPrefix(parts, sep, n - 1, n - 1);
    }
  }

  /** `parts[i]` sits in `sep.join(parts)` at its offset; the parts follow each
      other in order, `sep` between each two. */
  lemma {:induction false} JoinPlacesPart(parts: seq<string>, sep: string, i: nat)
    requires i < |parts|
    ensures JoinOffset(parts, sep, i) + |parts[i]| <= |Join(parts, sep)|
    ensures Join(parts, sep)[JoinOffset(parts, sep, i)..JoinOffset(parts, sep, i) + |parts[i]|] == parts[i]
    decreases |parts|
  {
    var n := |parts|;
    if n > 1 {
      var init := parts[..n - 1];
      var j := Join(init, sep);
      var whole := Join(parts, sep);
      assert whole == j + sep + parts[n - 1];
      JoinOffsetPrefix(parts, sep, n - 1, i);
      if i < n - 1 {
        JoinPlacesPart(init, sep, i);
        assert init[i] == parts[i];
        assert whole[..|j|] == j;
      } else {
        JoinLength(init, sep);
      }
    }
  }

  /** Between `parts[i]` and `parts[i + 1]`, `sep.join(parts)` holds `sep`. */
  lemma {:induction false} JoinPlacesSeparator(parts: seq<string>, sep: string, i: nat)
    requires i + 1 < |parts|
    ensures JoinOffset(parts, sep, i + 1) <= |Join(parts, sep)|
    ensures Join(parts, sep)[JoinOffset(parts, sep, i) + |parts[i]|..JoinOffset(parts, sep, i + 1)] == sep
    decreases |parts|
  {
    var n := |parts|;
    var init := parts[..n - 1];
    var j := Join(init, sep);
    var whole := Join(parts, sep);
    assert whole == j + sep + parts[n - 1];
    JoinOffsetPrefix(parts, sep, n - 1, i);
    JoinOffsetPrefix(parts, sep, n - 1, i + 1);
    if i + 1 < n - 1 {
      JoinPlacesSeparator(init, sep, i);
      assert init[i] == parts[i];
      assert whole[..|j|] == j;
    } else {
      JoinLength(init, sep);
      assert init[i] == parts[i];
    }
  }

  /** The decimal digit for `d`. */
  function Digit(d: nat): (c: char)
    requires d < 10
    ensures '0' <= c <= '9' && DigitValue(c) == d
  {
    ('0' as int + d) as char
  }

  /** The value of a decimal digit character. */
  function DigitValue(c: char): nat
  {
    if '0' <= c <= '9' then (c as int - '0' as int) as nat else 0
  }

  /** `str(n)` (and `f"{n}"`) for a non-negative integer. */
  function NatToString(n: nat): (r: string)
    ensures |r| >= 1
    ensures forall i | 0 <= i < |r| :: '0' <= r[i] <= '9'
    ensures r[0] == '0' ==> n == 0
    decreases n
  {
    if n < 10 then [Digit(n)] else NatToString(n / 10) + [Digit(n % 10)]
  }

  /** `int(s)` for a string of decimal digits. */
  function ParseDecimal(s: string): nat
    decreases |s|
  {
    if s == [] then 0 else ParseDecimal(s[..|s| - 1]) * 10 + DigitValue(s[|s| - 1])
  }

  /** Reading the rendering back gives the number: rendering is injective. */
  lemma {:induction false} ParseNatToString(n: nat)
    ensures ParseDecimal(NatToString(n)) == n
    decreases n
  {
    var r := NatToString(n);
    if n < 10 {
      assert r[..0] == [];
    } else {
      ParseNatToString(n / 10);
      assert r[..|r| - 1] == NatToString(n / 10);
      assert DigitValue(r[|r| - 1]) == n % 10;
      assert ParseDecimal(r) == ParseDecimal(NatToString(n / 10)) * 10 + n % 10;
    }
  }

  lemma NatToStringInjective(m: nat, n: nat)
    requires NatToString(m) == NatToString(n)
    ensures m == n
  {
    ParseNatToString(m);
    ParseNatToString(n);
  }
}
