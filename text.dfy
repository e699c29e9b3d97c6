/** Character-level helpers the level files are read with: maximal runs of
    characters (whitespace splitting and digit runs), decimal numbers and
    their text, and the small string tests the file filters use. */
module Text {
  import opened Wrappers

  /** Characters Python's str.isspace accepts, which str.split() splits on. */
  predicate IsSpace(c: char)
  {
    c == ' ' || c == '\t' || c == '\n' || c == '\r' || c == '\U{000b}' || c == '\U{000c}' ||
    ('\U{001c}' <= c <= '\U{001f}') || c == '\U{0085}' || c == '\U{00a0}' || c == '\U{1680}' ||
    ('\U{2000}' <= c <= '\U{200a}') || c == '\U{2028}' || c == '\U{2029}' || c == '\U{202f}' ||
    c == '\U{205f}' || c == '\U{3000}'
  }

  predicate NotSpace(c: char)
  {
    !IsSpace(c)
  }

  predicate IsDigit(c: char)
  {
    '0' <= c <= '9'
  }

  predicate All(s: string, p: char -> bool)
  {
    forall k :: 0 <= k < |s| ==> p(s[k])
  }

  /** The longest prefix of s whose characters all satisfy p. */
  function Prefix(s: string, p: char -> bool): (r: string)
    ensures |r| <= |s| && r == s[..|r|] && All(r, p)
    ensures |r| < |s| ==> !p(s[|r|])
  {
    if s == [] || !p(s[0]) then [] else [s[0]] + Prefix(s[1..], p)
  }

  /** The maximal runs of characters satisfying p, left to right: str.split()
      for p = NotSpace, and re.findall(r'\d+', s) for p = IsDigit. */
  function Runs(s: string, p: char -> bool): (rs: seq<string>)
    ensures forall k :: 0 <= k < |rs| ==> |rs[k]| > 0 && All(rs[k], p)
    decreases |s|
  {
    if s == [] then []
    else if !p(s[0]) then Runs(s[1..], p)
    else
      var r := Prefix(s, p);
      [r] + Runs(s[|r|..], p)
  }

  /** Python's argument-less str.split(). */
  function Split(s: string): (ws: seq<string>)
    ensures forall k :: 0 <= k < |ws| ==> |ws[k]| > 0 && All(ws[k], NotSpace)
  {
    Runs(s, NotSpace)
  }

  lemma {:induction false} PrefixAppend(x: string, y: string, p: char -> bool)
    requires y == [] || !p(y[0])
    ensures Prefix(x + y, p) == Prefix(x, p)
    decreases |x|
  {
    if x == [] {
    } else if p(x[0]) {
      assert (x + y)[1..] == x[1..] + y;
      PrefixAppend(x[1..], y, p);
    }
  }

  /** A run never spans a boundary the second part starts with a separator at. */
  lemma {:induction false} RunsAppend(x: string, y: string, p: char -> bool)
    requires y == [] || !p(y[0])
    ensures Runs(x + y, p) == Runs(x, p) + Runs(y, p)
    decreases |x|
  {
    if x == [] {
      assert x + y == y;
    } else if !p(x[0]) {
      assert (x + y)[1..] == x[1..] + y;
      RunsAppend(x[1..], y, p);
    } else {
      PrefixAppend(x, y, p);
      var r := Prefix(x, p);
      assert (x + y)[|r|..] == x[|r|..] + y;
      RunsAppend(x[|r|..], y, p);
    }
  }

  /** Separator characters before the text contribute no run. */
  lemma {:induction false} RunsSkip(sep: string, y: string, p: char -> bool)
    requires forall k :: 0 <= k < |sep| ==> !p(sep[k])
    ensures Runs(sep + y, p) == Runs(y, p)
    decreases |sep|
  {
    if sep != [] {
      assert (sep + y)[1..] == sep[1..] + y;
      RunsSkip(sep[1..], y, p);
    } else {
      assert sep + y == y;
    }
  }

  /** A non-empty text made of run characters is a single run. */
  lemma {:induction false} RunsOfRun(w: string, p: char -> bool)
    requires |w| > 0 && All(w, p)
    ensures Runs(w, p) == [w]
    decreases |w|
  {
    PrefixWhole(w, p);
    assert w[|w|..] == [];
  }

  lemma {:induction false} PrefixWhole(w: string, p: char -> bool)
    requires All(w, p)
    ensures Prefix(w, p) == w
    decreases |w|
  {
    if w != [] {
      PrefixWhole(w[1..], p);
    }
  }

  /** Value of a digit. */
  function DigitValue(c: char): (d: nat)
    requires IsDigit(c)
    ensures d < 10
  {
    (c as int) - ('0' as int)
  }

  function DigitChar(d: nat): (c: char)
    requires d < 10
    ensures IsDigit(c) && DigitValue(c) == d
  {
    (('0' as int) + d) as char
  }

  /** The number a string of decimal digits denotes, leading zeros allowed. */
  function DigitsValue(s: string): nat
    requires All(s, IsDigit)
  {
    if s == [] then 0 else DigitsValue(s[..|s| - 1]) * 10 + DigitValue(s[|s| - 1])
  }

  /** The decimal text of n, without leading zeros (Python's str on a nat). */
  function NatToString(n: nat): (s: string)
    ensures |s| > 0 && All(s, IsDigit)
  {
    if n < 10 then [DigitChar(n)] else NatToString(n / 10) + [DigitChar(n % 10)]
  }

  /** Python's str on an int. */
  function IntToString(i: int): (s: string)
    ensures |s| > 0
  {
    if i < 0 then "-" + NatToString(-i) else NatToString(i)
  }

  /** Python's int(token) on a token without whitespace: an optional sign and
      one or more ASCII digits; anything else raises, modelled as None. */
  function ParseInt(t: string): (r: Option<int>)
  {
    if |t| > 0 && (t[0] == '-' || t[0] == '+') then
      var body := t[1..];
      if |body| > 0 && All(body, IsDigit) then
        var v: int := DigitsValue(body);
        Some(if t[0] == '-' then -v else v)
      else None
    else if |t| > 0 && All(t, IsDigit) then Some(DigitsValue(t))
    else None
  }

  lemma {:induction false} DigitsOfNat(n: nat)
    ensures DigitsValue(NatToString(n)) == n
  {
    var s := NatToString(n);
    if n >= 10 {
      DigitsOfNat(n / 10);
      assert s[..|s| - 1] == NatToString(n / 10);
    }
  }

  /** Reading back the text of an int gives the int. */
  lemma ParseIntToString(i: int)
    ensures ParseInt(IntToString(i)) == Some(i)
  {
    if i < 0 {
      DigitsOfNat(-i);
      assert IntToString(i)[1..] == NatToString(-i);
    } else {
      DigitsOfNat(i);
    }
  }

  /** ASCII lower-casing. Python's str.lower also maps other letters, but no
      other character lowers to one of the ASCII letters the filters look for. */
  function LowerChar(c: char): (l: char)
    ensures ('A' <= c <= 'Z') ==> l as int == c as int + 32
    ensures !('A' <= c <= 'Z') ==> l == c
  {
    if 'A' <= c <= 'Z' then ((c as int) + 32) as char else c
  }

  function Lower(s: string): (l: string)
    ensures |l| == |s| && forall k :: 0 <= k < |s| ==> l[k] == LowerChar(s[k])
  {
    seq(|s|, k requires 0 <= k < |s| => LowerChar(s[k]))
  }

  predicate OccursAt(s: string, w: string, i: int)
  {
    0 <= i <= |s| - |w| && s[i..i + |w|] == w
  }

  /** Python's `w in s` on strings. */
  predicate Contains(s: string, w: string)
  {
    exists i | 0 <= i <= |s| - |w| :: OccursAt(s, w, i)
  }

  predicate EndsWith(s: string, suffix: string)
  {
    |suffix| <= |s| && s[|s| - |suffix|..] == suffix
  }

  /** Python's code-point order on strings. */
  predicate StrLe(a: string, b: string)
    decreases |a|
  {
    a == [] || (b != [] && (a[0] < b[0] || (a[0] == b[0] && StrLe(a[1..], b[1..]))))
  }

  lemma {:induction false} StrLeTotal(a: string, b: string)
    ensures StrLe(a, b) || StrLe(b, a)
    decreases |a|
  {
    if a != [] && b != [] && a[0] == b[0] {
      StrLeTotal(a[1..], b[1..]);
    }
  }

  lemma {:induction false} StrLeTrans(a: string, b: string, c: string)
    requires StrLe(a, b) && StrLe(b, c)
    ensures StrLe(a, c)
    decreases |a|
  {
    if a != [] && b != [] && c != [] && a[0] == b[0] && b[0] == c[0] {
      StrLeTrans(a[1..], b[1..], c[1..]);
    }
  }

  lemma {:induction false} StrLeAntisymmetric(a: string, b: string)
    requires StrLe(a, b) && StrLe(b, a)
    ensures a == b
    decreases |a|
  {
    if a != [] {
      StrLeAntisymmetric(a[1..], b[1..]);
    }
  }
}
