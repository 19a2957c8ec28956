/**
 * The handful of Python `str` operations the pipeline relies on:
 * `split(sep)[0]`, `split(sep)[-1]`, `startswith`, substring tests,
 * `strip()`, the regular expression `^[^\w]*`, and `f"{n}"` for integers.
 */
module Text {
  import opened Options

  /** `sep` occurs in `s` starting at index `i`. */
  predicate OccursAt(s: string, sep: string, i: int) {
    0 <= i && i + |sep| <= |s| && s[i..i + |sep|] == sep
  }

  /** Python's `sep in s` for strings. */
  predicate Contains(s: string, sep: string) {
    exists i :: 0 <= i <= |s| && OccursAt(s, sep, i)
  }

  /** Occurrences in a suffix `s[a..]` are the occurrences in `s` shifted by `a`. */
  lemma OccursInSuffix(s: string, sep: string, a: nat, j: int)
    requires a <= |s|
    ensures OccursAt(s[a..], sep, j) <==> j >= 0 && OccursAt(s, sep, a + j)
  {
    if j >= 0 && a + j + |sep| <= |s| {
      assert s[a..][j..j + |sep|] == s[a + j..a + j + |sep|];
    }
  }

  /** Occurrences in a prefix `s[..b]` are the occurrences in `s` that end by `b`. */
  lemma OccursInPrefix(s: string, sep: string, b: nat, j: int)
    requires b <= |s|
    ensures OccursAt(s[..b], sep, j) <==> j + |sep| <= b && OccursAt(s, sep, j)
  {
    if 0 <= j && j + |sep| <= b {
      assert s[..b][j..j + |sep|] == s[j..j + |sep|];
    }
  }

  /** A prefix of the suffix `s[a..]` occurs in `s` at `a`. */
  lemma PrefixOfSuffixOccurs(s: string, a: nat, p: string)
    requires a <= |s| && p <= s[a..]
    ensures OccursAt(s, p, a) && Contains(s, p)
  {
    assert s[a..a + |p|] == s[a..][..|p|];
    assert OccursAt(s, p, a);
  }

  /** A prefix of a string that does not contain `sep` does not contain it either. */
  lemma NotContainsPrefix(s: string, sep: string, b: nat)
    requires b <= |s|
    requires !Contains(s, sep)
    ensures !Contains(s[..b], sep)
  {
    forall j | 0 <= j <= b ensures !OccursAt(s[..b], sep, j) {
      OccursInPrefix(s, sep, b, j);
    }
  }

  /** Python's `s.find(sep)`: the leftmost occurrence of `sep` in `s`. */
  function IndexOf(s: string, sep: string): (r: Option<nat>)
    ensures r.Some? ==> OccursAt(s, sep, r.value)
    ensures r.Some? ==> forall j :: 0 <= j < r.value ==> !OccursAt(s, sep, j)
    ensures r.None? <==> !Contains(s, sep)
    decreases |s|
  {
    if |s| < |sep| then None
    else if s[..|sep|] == sep then Some(0)
    else
      var rest := IndexOf(s[1..], sep);
      assert forall j :: 1 <= j <= |s| ==> (OccursAt(s, sep, j) <==> OccursAt(s[1..], sep, j - 1)) by {
        forall j | 1 <= j <= |s| ensures OccursAt(s, sep, j) <==> OccursAt(s[1..], sep, j - 1) {
          OccursInSuffix(s, sep, 1, j - 1);
        }
      }
      if rest.Some? then Some(rest.value + 1) else None
  }

  /** Python's `s.split(sep)[0]`: the text before the first `sep`. */
  function SplitFirst(s: string, sep: string): (r: string)
    requires |sep| > 0
    ensures r <= s
    ensures !Contains(r, sep)
    ensures r == s || OccursAt(s, sep, |r|)
    // the cut is at the leftmost occurrence: none starts before it
    ensures forall j :: 0 <= j < |r| ==> !OccursAt(s, sep, j)
  {
    match IndexOf(s, sep)
    case None => s
    case Some(i) =>
      assert !Contains(s[..i], sep) by {
        forall j | 0 <= j <= i ensures !OccursAt(s[..i], sep, j) {
          OccursInPrefix(s, sep, i, j);
        }
      }
      s[..i]
  }

  /**
   * Cutting at the first single-character separator is unaffected by what
   * follows the first separator: appending text that starts with `sep` to
   * `a` leaves `split(sep)[0]` as it was on `a`.
   */
  lemma {:induction false} SplitFirstExtend(a: string, t: string, sep: string)
    requires |sep| == 1 && sep <= t
    ensures SplitFirst(a + t, sep) == SplitFirst(a, sep)
  {
    var s := a + t;
    forall j | 0 <= j < |a| ensures OccursAt(s, sep, j) <==> OccursAt(a, sep, j) {
      assert s[j..j + 1] == [s[j]];
      assert a[j..j + 1] == [a[j]];
    }
    assert OccursAt(s, sep, |a|) by {
      assert s[|a|..|a| + 1] == t[..1];
    }
    var k := IndexOf(s, sep);
    assert k.Some? by {
      assert Contains(s, sep);
    }
    match IndexOf(a, sep)
    case Some(i) =>
      assert OccursAt(s, sep, i);
      assert k.value == i;
      assert s[..i] == a[..i];
    case None =>
      assert forall j :: 0 <= j < |a| ==> !OccursAt(a, sep, j);
      assert k.value == |a|;
      assert s[..|a|] == a;
  }

  /**
   * The left-to-right scan of `split` from index `from`: where the text after
   * the last separator it finds starts, or 0 when it finds none. Occurrences
   * are taken without overlap, each scan resuming after the one found.
   */
  function LastCut(s: string, sep: string, from: nat): (k: nat)
    requires |sep| > 0 && from <= |s|
    ensures k == 0 ==> forall j :: from <= j ==> !OccursAt(s, sep, j)
    ensures k > 0 ==> from + |sep| <= k <= |s| && OccursAt(s, sep, k - |sep|)
    ensures k > 0 ==> forall j :: k <= j ==> !OccursAt(s, sep, j)
    decreases |s| - from
  {
    if from + |sep| > |s| then 0
    else if OccursAt(s, sep, from) then
      var k := LastCut(s, sep, from + |sep|);
      if k == 0 then from + |sep| else k
    else LastCut(s, sep, from + 1)
  }

  /**
   * Python's `s.split(sep)[-1]`: the text after the last separator that a
   * left-to-right scan for non-overlapping occurrences finds.
   */
  function SplitLast(s: string, sep: string): (r: string)
    requires |sep| > 0
    ensures |r| <= |s| && r == s[|s| - |r|..]
    ensures !Contains(r, sep)
    ensures r == s || OccursAt(s, sep, |s| - |r| - |sep|)
  {
    var k := LastCut(s, sep, 0);
    NoneFrom(s, sep, k);
    s[k..]
  }

  /** With no occurrence at or after `k`, the suffix `s[k..]` contains no `sep`. */
  lemma NoneFrom(s: string, sep: string, k: nat)
    requires k <= |s|
    requires forall j :: k <= j ==> !OccursAt(s, sep, j)
    ensures !Contains(s[k..], sep)
  {
    forall j | 0 <= j <= |s| - k ensures !OccursAt(s[k..], sep, j) {
      OccursInSuffix(s, sep, k, j);
    }
  }

  /** Python's `str.isspace()` for one character (the characters `strip()` removes). */
  predicate IsSpace(c: char) {
    || c == ' '
    || '\t' <= c <= '\r'
    || '\U{1C}' <= c <= '\U{1F}'
    || c == '\U{85}' || c == '\U{A0}' || c == '\U{1680}'
    || '\U{2000}' <= c <= '\U{200A}'
    || c == '\U{2028}' || c == '\U{2029}' || c == '\U{202F}' || c == '\U{205F}'
    || c == '\U{3000}'
  }

  /**
   * The character class `\w` of Python's `re` on `str` patterns, restricted
   * to the Latin blocks: ASCII letters, digits and `_`, the Latin-1 letters
   * and digits, and Latin Extended-A and -B.
   */
  predicate IsWordChar(c: char) {
    || 'a' <= c <= 'z' || 'A' <= c <= 'Z' || '0' <= c <= '9' || c == '_'
    || c == '\U{AA}' || c == '\U{B2}' || c == '\U{B3}' || c == '\U{B5}'
    || c == '\U{B9}' || c == '\U{BA}' || '\U{BC}' <= c <= '\U{BE}'
    || ('\U{C0}' <= c <= '\U{24F}' && c != '\U{D7}' && c != '\U{F7}')
  }

  lemma WordCharIsNotSpace(c: char)
    requires IsWordChar(c)
    ensures !IsSpace(c)
  {
  }

  /** `re.sub(r'^[^\w]*', '', s)`: drop the longest prefix of non-word characters. */
  function DropNonWordPrefix(s: string): (r: string)
    ensures |r| <= |s| && r == s[|s| - |r|..]
    ensures forall i :: 0 <= i < |s| - |r| ==> !IsWordChar(s[i])
    ensures r == [] || IsWordChar(r[0])
    decreases |s|
  {
    if |s| == 0 || IsWordChar(s[0]) then s else DropNonWordPrefix(s[1..])
  }

  /** `s.lstrip()`. */
  function LeftStrip(s: string): (r: string)
    ensures |r| <= |s| && r == s[|s| - |r|..]
    ensures forall i :: 0 <= i < |s| - |r| ==> IsSpace(s[i])
    ensures r == [] || !IsSpace(r[0])
    decreases |s|
  {
    if |s| == 0 || !IsSpace(s[0]) then s else LeftStrip(s[1..])
  }

  /** `s.rstrip()`. */
  function RightStrip(s: string): (r: string)
    ensures r <= s
    ensures forall i :: |r| <= i < |s| ==> IsSpace(s[i])
    ensures r == [] || !IsSpace(r[|r| - 1])
    decreases |s|
  {
    if |s| == 0 || !IsSpace(s[|s| - 1]) then s else RightStrip(s[..|s| - 1])
  }

  /** The decimal digit `d` as a character. */
  function DigitChar(d: nat): (c: char)
    requires d < 10
    ensures '0' <= c <= '9'
  {
    "0123456789"[d]
  }

  /** The value of a decimal digit character. */
  function DigitValue(c: char): (d: nat)
    requires '0' <= c <= '9'
    ensures d < 10
  {
    (c as int) - ('0' as int)
  }

  predicate AllDigits(s: string) {
    forall i :: 0 <= i < |s| ==> '0' <= s[i] <= '9'
  }

  /** `f"{n}"` for a natural number. */
  function NatToString(n: nat): (r: string)
    ensures |r| > 0 && AllDigits(r)
    decreases n
  {
    if n < 10 then [DigitChar(n)] else NatToString(n / 10) + [DigitChar(n % 10)]
  }

  /** `f"{n}"` for an integer: a minus sign for negative values. */
  function IntToString(n: int): (r: string)
    ensures |r| > 0
  {
    if n < 0 then "-" + NatToString(-n) else NatToString(n)
  }

  /** The value of a string of decimal digits. */
  function DigitsValue(s: string): nat
    requires AllDigits(s)
    decreases |s|
  {
    if |s| == 0 then 0 else 10 * DigitsValue(s[..|s| - 1]) + DigitValue(s[|s| - 1])
  }

  /** Python's `int(s)` restricted to what `IntToString` produces. */
  function ParseInt(s: string): Option<int>
  {
    if |s| > 1 && s[0] == '-' && AllDigits(s[1..]) then Some(0 - DigitsValue(s[1..]))
    else if |s| > 0 && AllDigits(s) then Some(DigitsValue(s))
    else None
  }

  lemma {:induction false} NatToStringRoundTrip(n: nat)
    ensures DigitsValue(NatToString(n)) == n
    decreases n
  {
    if n >= 10 {
      NatToStringRoundTrip(n / 10);
      var s := NatToString(n);
      assert s[..|s| - 1] == NatToString(n / 10);
    }
  }

  /** Reading back the decimal text of an integer gives the integer. */
  lemma IntToStringRoundTrip(n: int)
    ensures ParseInt(IntToString(n)) == Some(n)
  {
    if n < 0 {
      NegativeRoundTrip(-n);
    } else {
      NonNegativeRoundTrip(n);
    }
  }

  /** A minus sign followed by the digits of `m` reads back as `-m`. */
  lemma NegativeRoundTrip(m: nat)
    ensures ParseInt("-" + NatToString(m)) == Some(0 - m)
  {
    var t := NatToString(m);
    var s := "-" + t;
    assert s[1..] == t;
    NatToStringRoundTrip(m);
  }

  /** The digits of `n` read back as `n`. */
  lemma NonNegativeRoundTrip(n: nat)
    ensures ParseInt(NatToString(n)) == Some(n)
  {
    var t := NatToString(n);
    assert t[0] != '-';
    NatToStringRoundTrip(n);
  }
}
