/**
 * String helpers used by the counter app: JavaScript's `String.prototype.trim`,
 * the decimal rendering of a natural number inside a template literal, and
 * `s.split(sep)[0]` for a one-character separator.
 */
module Text {
  import opened Wrappers

  /** The characters `trim` removes: ECMAScript WhiteSpace (tab, vertical tab, form feed,
      space, no-break space, byte order mark, the Unicode space separators) and
      LineTerminator (line feed, carriage return, line and paragraph separators). */
  const Whitespace: set<char> := {
    '\t', '\U{B}', '\U{C}', ' ', '\U{A0}', '\U{FEFF}',
    '\U{1680}', '\U{2000}', '\U{2001}', '\U{2002}', '\U{2003}', '\U{2004}', '\U{2005}',
    '\U{2006}', '\U{2007}', '\U{2008}', '\U{2009}', '\U{200A}', '\U{202F}', '\U{205F}', '\U{3000}',
    '\n', '\r', '\U{2028}', '\U{2029}'
  }

  predicate IsWhitespace(c: char) {
    c in Whitespace
  }

  predicate AllWhitespace(s: string) {
    BlankBetween(s, 0, |s|)
  }

  /** Every character of `s` in positions `lo` to `hi` (exclusive) is whitespace. */
  predicate BlankBetween(s: string, lo: nat, hi: nat)
    requires lo <= hi <= |s|
  {
    forall i :: lo <= i < hi ==> IsWhitespace(s[i])
  }

  /** The first position at or after `i` that is not whitespace (or `|s|`): where `trim`'s
      scan from the front stops. */
  function SkipBlankForward(s: string, i: nat): (k: nat)
    requires i <= |s|
    ensures i <= k <= |s| && BlankBetween(s, i, k)
    ensures k == |s| || !IsWhitespace(s[k])
    decreases |s| - i
  {
    if i < |s| && IsWhitespace(s[i]) then SkipBlankForward(s, i + 1) else i
  }

  /** The position just after the last character in `lo` to `j` that is not whitespace
      (or `lo`): where `trim`'s scan from the back stops. */
  function SkipBlankBackward(s: string, lo: nat, j: nat): (e: nat)
    requires lo <= j <= |s|
    ensures lo <= e <= j && BlankBetween(s, e, j)
    ensures e == lo || !IsWhitespace(s[e - 1])
  {
    if lo < j && IsWhitespace(s[j - 1]) then SkipBlankBackward(s, lo, j - 1) else j
  }

  /** `s.trim()`: the slice of `s` between its leading and its trailing whitespace. Only
      whitespace lies outside the slice, and the slice neither starts nor ends with it. */
  function Trim(s: string): (r: string)
    ensures exists k, e :: 0 <= k <= e <= |s| && r == s[k..e]
                           && BlankBetween(s, 0, k) && BlankBetween(s, e, |s|)
    ensures r == [] || (!IsWhitespace(r[0]) && !IsWhitespace(r[|r| - 1]))
  {
    var k := SkipBlankForward(s, 0);
    var e := SkipBlankBackward(s, k, |s|);
    assert s[k..e] == s[k..e] && BlankBetween(s, 0, k);
    s[k..e]
  }

  /** A buffer trims to the empty string exactly when it is all whitespace. */
  lemma TrimEmptyIffBlank(s: string)
    ensures Trim(s) == [] <==> AllWhitespace(s)
  {
    var k := SkipBlankForward(s, 0);
    var e := SkipBlankBackward(s, k, |s|);
    assert Trim(s) == s[k..e];
    if Trim(s) == [] {
      // the front scan cannot stop at a non-blank character that the back scan then passes
      assert k == |s|;
    }
  }

  /** Trimming twice is trimming once. */
  lemma TrimIdempotent(s: string)
    ensures Trim(Trim(s)) == Trim(s)
  {
    var r := Trim(s);
    if r != [] {
      assert SkipBlankForward(r, 0) == 0;
      assert SkipBlankBackward(r, 0, |r|) == |r|;
      assert r[0..|r|] == r;
    }
  }

  function DigitChar(d: nat): (c: char)
    requires d < 10
    ensures '0' <= c <= '9'
  {
    ['0', '1', '2', '3', '4', '5', '6', '7', '8', '9'][d]
  }

  predicate IsDigits(s: string) {
    forall i :: 0 <= i < |s| ==> '0' <= s[i] <= '9'
  }

  /** The number a string of decimal digits denotes. */
  function DecimalValue(s: string): nat
    requires IsDigits(s)
  {
    if s == [] then 0 else DecimalValue(s[..|s| - 1]) * 10 + (s[|s| - 1] as int - '0' as int)
  }

  /** How `${n}` renders a natural number: shortest decimal, no leading zero. */
  function NatToDecimal(n: nat): (r: string)
    ensures |r| >= 1 && IsDigits(r)
    ensures r[0] == '0' ==> n == 0 && |r| == 1
  {
    if n < 10 then [DigitChar(n)] else NatToDecimal(n / 10) + [DigitChar(n % 10)]
  }

  /** Reading the rendered digits back gives the number again. */
  lemma {:induction false} DecimalRoundTrip(n: nat)
    ensures DecimalValue(NatToDecimal(n)) == n
  {
    var r := NatToDecimal(n);
    if n < 10 {
      assert r[..0] == [];
    } else {
      DecimalRoundTrip(n / 10);
      assert r[..|r| - 1] == NatToDecimal(n / 10);
    }
  }

  /** Distinct numbers render to distinct strings. */
  lemma DecimalInjective(m: nat, n: nat)
    requires NatToDecimal(m) == NatToDecimal(n)
    ensures m == n
  {
    DecimalRoundTrip(m);
    DecimalRoundTrip(n);
  }

  /** `s.split([sep])[0]`: everything before the first `sep`, or all of `s` if there is none. */
  function BeforeFirst(s: string, sep: char): (r: string)
    ensures |r| <= |s| && r == s[..|r|]
    ensures sep !in r
    ensures |r| < |s| ==> s[|r|] == sep
  {
    if s == [] || s[0] == sep then [] else [s[0]] + BeforeFirst(s[1..], sep)
  }

  /** The edit-commit rule shared by the page title and the counter names
      (`if (buf.trim()) save(buf.trim())`): a blank buffer commits nothing,
      any other buffer commits its trimmed text. */
  function Commit(buffer: string): (r: Option<string>)
    ensures r == None <==> AllWhitespace(buffer)
    ensures r.Some? ==> r.value == Trim(buffer) && r.value != []
                        && !IsWhitespace(r.value[0]) && !IsWhitespace(r.value[|r.value| - 1])
  {
    TrimEmptyIffBlank(buffer);
    var t := Trim(buffer);
    if t == [] then None else Some(t)
  }
}
