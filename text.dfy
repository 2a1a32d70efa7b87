/**
 * String helpers shared by the whole model: ASCII lower-casing (`str.lower`),
 * the word tokens of the pattern `\b\w+\b`, substring search (`in` on strings),
 * `sep.join(parts)` and decimal formatting of naturals.
 */
module Text {

  /** `str.lower` on one character; only ASCII upper-case letters change. */
  function LowerChar(ch: char): char
  {
    if 'A' <= ch <= 'Z' then (ch as int + 32) as char else ch
  }

  function Lower(s: string): (r: string)
    ensures |r| == |s|
    ensures forall i :: 0 <= i < |s| ==> r[i] == LowerChar(s[i])
  {
    seq(|s|, i requires 0 <= i < |s| => LowerChar(s[i]))
  }

  lemma LowerConcat(a: string, b: string)
    ensures Lower(a + b) == Lower(a) + Lower(b)
  {
    assert forall i :: 0 <= i < |a + b| ==> Lower(a + b)[i] == (Lower(a) + Lower(b))[i];
  }

  /** A character of the regular-expression class `\w` (ASCII letters, digits, underscore). */
  predicate IsWordChar(ch: char)
  {
    'a' <= ch <= 'z' || 'A' <= ch <= 'Z' || '0' <= ch <= '9' || ch == '_'
  }

  lemma LowerKeepsWordChars(ch: char)
    ensures IsWordChar(LowerChar(ch)) == IsWordChar(ch)
  {
  }

  /** Length of the run of word characters at the start of `s`. */
  function RunLength(s: string): (n: nat)
    ensures n <= |s|
    ensures forall i :: 0 <= i < n ==> IsWordChar(s[i])
    ensures n < |s| ==> !IsWordChar(s[n])
  {
    if s == [] || !IsWordChar(s[0]) then 0 else 1 + RunLength(s[1..])
  }

  /** The matches of `\b\w+\b` in `s`, left to right: its maximal runs of word characters. */
  function Words(s: string): (ws: seq<string>)
    ensures forall k :: 0 <= k < |ws| ==> ws[k] != []
    decreases |s|
  {
    if s == [] then []
    else if !IsWordChar(s[0]) then Words(s[1..])
    else
      var n := RunLength(s);
      [s[..n]] + Words(s[n..])
  }

  /** `set(re.findall(r'\b\w+\b', s))` */
  function Tokens(s: string): set<string>
  {
    set w | w in Words(s)
  }

  /** A non-empty string of word characters only is one token: itself. */
  lemma SingleWord(s: string)
    requires s != [] && forall i :: 0 <= i < |s| ==> IsWordChar(s[i])
    ensures Words(s) == [s] && Tokens(s) == {s}
  {
    var n := RunLength(s);
    assert n == |s|;
    assert s[..n] == s && s[n..] == [];
    assert Words(s) == [s] + Words([]);
  }

  /** A string has no `\w+` token exactly when none of its characters is a word character. */
  lemma {:induction false} WordsEmptyIff(s: string)
    ensures Words(s) == [] <==> forall i :: 0 <= i < |s| ==> !IsWordChar(s[i])
    decreases |s|
  {
    if s == [] {
    } else if !IsWordChar(s[0]) {
      WordsEmptyIff(s[1..]);
      assert forall i :: 1 <= i < |s| ==> s[i] == s[1..][i - 1];
    } else {
      assert Words(s) != [];
    }
  }

  /** Lower-casing neither creates nor removes word characters. */
  lemma NoWordCharsAfterLower(s: string)
    requires forall i :: 0 <= i < |s| ==> !IsWordChar(s[i])
    ensures forall i :: 0 <= i < |Lower(s)| ==> !IsWordChar(Lower(s)[i])
  {
    forall i | 0 <= i < |s| ensures !IsWordChar(Lower(s)[i]) {
      LowerKeepsWordChars(s[i]);
    }
  }

  predicate StartsWith(s: string, p: string)
  {
    |p| <= |s| && s[..|p|] == p
  }

  /** `p in s` for strings: `p` occurs in `s` as a contiguous substring. */
  predicate Contains(s: string, p: string)
    decreases |s|
  {
    StartsWith(s, p) || (s != [] && Contains(s[1..], p))
  }

  /** `p` occurs in `a + p + b`. */
  lemma {:induction false} ContainsMiddle(a: string, p: string, b: string)
    ensures Contains(a + p + b, p)
    decreases |a|
  {
    if a == [] {
      assert (a + p + b)[..|p|] == p;
    } else {
      assert (a + p + b)[1..] == a[1..] + p + b;
      ContainsMiddle(a[1..], p, b);
    }
  }

  /** `sep.join(parts)` */
  function Join(sep: string, parts: seq<string>): string
  {
    if |parts| == 0 then ""
    else if |parts| == 1 then parts[0]
    else parts[0] + sep + Join(sep, parts[1..])
  }

  lemma JoinCons(sep: string, x: string, xs: seq<string>)
    requires xs != []
    ensures Join(sep, [x] + xs) == x + sep + Join(sep, xs)
  {
    assert ([x] + xs)[1..] == xs;
  }

  function LowerAll(xs: seq<string>): (r: seq<string>)
    ensures |r| == |xs|
    ensures forall i :: 0 <= i < |xs| ==> r[i] == Lower(xs[i])
  {
    seq(|xs|, i requires 0 <= i < |xs| => Lower(xs[i]))
  }

  /** Lower-casing a joined string is joining the lower-cased parts with the lower-cased separator. */
  lemma {:induction false} LowerJoin(sep: string, parts: seq<string>)
    ensures Lower(Join(sep, parts)) == Join(Lower(sep), LowerAll(parts))
  {
    if |parts| >= 2 {
      LowerJoin(sep, parts[1..]);
      assert LowerAll(parts)[1..] == LowerAll(parts[1..]);
      LowerConcat(parts[0] + sep, Join(sep, parts[1..]));
      LowerConcat(parts[0], sep);
    }
  }

  function DigitChar(d: nat): (ch: char)
    requires d < 10
    ensures '0' <= ch <= '9'
  {
    "0123456789"[d]
  }

  /** `str(n)` for a non-negative integer: its decimal digits, most significant first. */
  function NatToString(n: nat): (s: string)
    ensures s != []
    ensures forall i :: 0 <= i < |s| ==> '0' <= s[i] <= '9'
  {
    if n < 10 then [DigitChar(n)] else NatToString(n / 10) + [DigitChar(n % 10)]
  }

  /** Reads a string of decimal digits back into the number it denotes. */
  function ParseNat(s: string): nat
    requires forall i :: 0 <= i < |s| ==> '0' <= s[i] <= '9'
  {
    if s == [] then 0 else 10 * ParseNat(s[..|s| - 1]) + (s[|s| - 1] as int - '0' as int)
  }

  /** Decimal formatting loses nothing: reading the digits back gives the number. */
  lemma {:induction false} NatToStringRoundTrip(n: nat)
    ensures ParseNat(NatToString(n)) == n
  {
    if n >= 10 {
      var s := NatToString(n);
      assert s[..|s| - 1] == NatToString(n / 10);
      NatToStringRoundTrip(n / 10);
    }
  }
}
