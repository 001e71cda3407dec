/** The JavaScript string operations the farm list relies on: `toLowerCase`,
    `toUpperCase`, `indexOf`/`includes`, `replace` with a string pattern,
    `slice(0, -1)` and `Number(...)` on the decimal numbers a farm's
    multiplier label carries. Case mapping is modelled on ASCII letters. */
module JsStrings {
  import opened Seqs

  function LowerChar(c: char): char {
    if 'A' <= c <= 'Z' then (c as int + 32) as char else c
  }

  function UpperChar(c: char): char {
    if 'a' <= c <= 'z' then (c as int - 32) as char else c
  }

  /** `s.toLowerCase()`: every upper-case letter becomes its lower-case
      letter and every other character is kept. */
  function ToLower(s: string): (r: string)
    ensures |r| == |s|
    ensures forall i :: 0 <= i < |s| ==> !('A' <= r[i] <= 'Z')
    ensures forall i :: 0 <= i < |s| && 'A' <= s[i] <= 'Z' ==> r[i] as int == s[i] as int + 32
    ensures forall i :: 0 <= i < |s| && !('A' <= s[i] <= 'Z') ==> r[i] == s[i]
  {
    seq(|s|, i requires 0 <= i < |s| => LowerChar(s[i]))
  }

  /** `s.toUpperCase()`: every lower-case letter becomes its upper-case
      letter and every other character is kept. */
  function ToUpper(s: string): (r: string)
    ensures |r| == |s|
    ensures forall i :: 0 <= i < |s| ==> !('a' <= r[i] <= 'z')
    ensures forall i :: 0 <= i < |s| && 'a' <= s[i] <= 'z' ==> r[i] as int == s[i] as int - 32
    ensures forall i :: 0 <= i < |s| && !('a' <= s[i] <= 'z') ==> r[i] == s[i]
  {
    seq(|s|, i requires 0 <= i < |s| => UpperChar(s[i]))
  }

  /** Lower-casing forgets the case a string was written in: two strings
      that differ only in the case of their letters lower-case alike. */
  lemma LowerForgetsCase(s: string)
    ensures ToLower(ToLower(s)) == ToLower(s)
    ensures ToLower(ToUpper(s)) == ToLower(s)
  {
    assert forall i :: 0 <= i < |s| ==> ToLower(ToUpper(s))[i] == ToLower(s)[i];
  }

  /** `pat` occurs in `s` starting at index `i`. */
  predicate OccursAt(s: string, pat: string, i: int) {
    0 <= i && i + |pat| <= |s| && s[i..i + |pat|] == pat
  }

  /** `i` is the first index at which `pat` occurs in `s`. */
  predicate IsFirstOccurrence(s: string, pat: string, i: int) {
    OccursAt(s, pat, i) && forall j :: 0 <= j < i ==> !OccursAt(s, pat, j)
  }

  lemma OccursAtShift(s: string, pat: string)
    requires s != []
    ensures forall i :: 0 <= i ==> (OccursAt(s[1..], pat, i) <==> OccursAt(s, pat, i + 1))
  {
    forall i | 0 <= i ensures OccursAt(s[1..], pat, i) <==> OccursAt(s, pat, i + 1) {
      if i + |pat| <= |s| - 1 {
        assert s[1..][i..i + |pat|] == s[i + 1..i + 1 + |pat|];
      }
    }
  }

  /** `s.indexOf(pat)`: the first index at which `pat` occurs in `s`, or -1
      when it occurs nowhere. */
  function IndexOf(s: string, pat: string): (r: int)
    ensures r == -1 || OccursAt(s, pat, r)
    ensures forall i :: 0 <= i && (r == -1 || i < r) ==> !OccursAt(s, pat, i)
    decreases |s|
  {
    if |pat| > |s| then -1
    else if s[..|pat|] == pat then 0
    else
      var j := IndexOf(s[1..], pat);
      OccursAtShift(s, pat);
      assert forall i :: 1 <= i ==> (OccursAt(s, pat, i) <==> OccursAt(s[1..], pat, i - 1));
      if j == -1 then -1 else j + 1
  }

  /** `s.includes(pat)`. */
  function Includes(s: string, pat: string): (b: bool)
    ensures b <==> exists i :: OccursAt(s, pat, i)
  {
    IndexOf(s, pat) != -1
  }

  /** `s < t` on two strings: `s` is a proper prefix of `t`, or at the first
      index where they differ the character of `s` is the smaller. */
  predicate JsLess(s: string, t: string)
    decreases |s|
  {
    t != [] && (s == [] || s[0] < t[0] || (s[0] == t[0] && JsLess(s[1..], t[1..])))
  }

  /** Of two different strings one is the smaller. */
  lemma {:induction false} JsLessTotal(s: string, t: string)
    requires s != t
    ensures JsLess(s, t) || JsLess(t, s)
    decreases |s|
  {
    if s != [] && t != [] && s[0] == t[0] {
      assert s == [s[0]] + s[1..] && t == [t[0]] + t[1..];
      JsLessTotal(s[1..], t[1..]);
    }
  }

  /** A string read as a fraction whose digits, in base 0x110001, are its
      characters' code points plus one: a real that orders strings as `<`
      does (`StringRankOrder`). */
  function StringRank(s: string): (r: real)
    ensures 0.0 <= r < 1.0
    ensures s != [] ==> r >= 1.0 / 1114113.0
  {
    if s == [] then 0.0 else ((s[0] as int + 1) as real + StringRank(s[1..])) / 1114113.0
  }

  lemma {:induction false} StringRankOrder(s: string, t: string)
    requires JsLess(s, t)
    ensures StringRank(s) < StringRank(t)
    decreases |s|
  {
    if s != [] && s[0] == t[0] {
      StringRankOrder(s[1..], t[1..]);
    }
  }

  /** Ranks compare as the strings do, and equal ranks mean equal strings. */
  lemma StringRankFaithful(s: string, t: string)
    ensures JsLess(s, t) <==> StringRank(s) < StringRank(t)
    ensures StringRank(s) == StringRank(t) <==> s == t
  {
    if s != t {
      JsLessTotal(s, t);
      if JsLess(s, t) {
        StringRankOrder(s, t);
      } else {
        StringRankOrder(t, s);
      }
    }
  }

  /** `s.replace(pat, rep)` with a string pattern: only the first occurrence
      is replaced; a string without an occurrence is returned as it is. */
  function ReplaceFirst(s: string, pat: string, rep: string): (r: string)
    ensures !Includes(s, pat) ==> r == s
    ensures Includes(s, pat) ==>
      exists i :: IsFirstOccurrence(s, pat, i) && r == s[..i] + rep + s[i + |pat|..]
  {
    var i := IndexOf(s, pat);
    if i == -1 then s else s[..i] + rep + s[i + |pat|..]
  }

  /** `s.slice(0, -1)`: everything but the last character (empty stays empty). */
  function DropLast(s: string): (r: string)
    ensures s != [] ==> r + [s[|s| - 1]] == s
    ensures s == [] ==> r == []
  {
    if s == [] then s else s[..|s| - 1]
  }

  predicate IsDigit(c: char) {
    '0' <= c <= '9'
  }

  predicate AllDigits(s: string) {
    forall i :: 0 <= i < |s| ==> IsDigit(s[i])
  }

  /** The number a string of decimal digits denotes. */
  function DigitsValue(s: string): nat
    requires AllDigits(s)
  {
    if s == [] then 0
    else DigitsValue(s[..|s| - 1]) * 10 + (s[|s| - 1] as int - '0' as int)
  }

  function Pow10(n: nat): (r: nat)
    ensures r >= 1
  {
    if n == 0 then 1 else 10 * Pow10(n - 1)
  }

  /** An unsigned decimal literal: digits, or digits and a fraction after a
      point, with at least one digit on one side of the point. */
  function ParseUnsigned(s: string): Option<real> {
    var dot := IndexOf(s, ".");
    if dot == -1 then
      if s != [] && AllDigits(s) then Some(DigitsValue(s) as real) else None
    else
      var whole, frac := s[..dot], s[dot + 1..];
      if (whole != [] || frac != []) && AllDigits(whole) && AllDigits(frac) then
        Some(DigitsValue(whole) as real + DigitsValue(frac) as real / Pow10(|frac|) as real)
      else None
  }

  /** `Number(s)` on the strings made of an optional sign and a decimal
      literal; the empty string is 0. `None` stands for every other string:
      the ones `Number` maps to `NaN` and the forms (white space, exponents,
      hexadecimal, `Infinity`) this model does not cover. The value is the
      exact decimal, not its nearest double. */
  function ParseNumber(s: string): (r: Option<real>)
    ensures s == "" ==> r == Some(0.0)
    ensures s != "" && AllDigits(s) ==> r == Some(DigitsValue(s) as real)
    ensures s != "" && !IsDigit(s[0]) && s[0] != '+' && s[0] != '-' && s[0] != '.' ==> r == None
  {
    if s == "" then Some(0.0)
    else if s[0] == '-' then
      match ParseUnsigned(s[1..])
      case Some(v) => Some(-v)
      case None => None
    else if s[0] == '+' then ParseUnsigned(s[1..])
    else ParseUnsigned(s)
  }

  /** A string of digits has no decimal point. */
  lemma NoPointInDigits(w: string)
    requires AllDigits(w)
    ensures IndexOf(w, ".") == -1
  {
    forall i | 0 <= i < |w| ensures !OccursAt(w, ".", i) {
      assert IsDigit(w[i]);
    }
  }

  /** The first point of `w + "." + f`, for digits `w`, is the one after `w`. */
  lemma PointAfterDigits(w: string, f: string)
    requires AllDigits(w)
    ensures IndexOf(w + "." + f, ".") == |w|
  {
    var s := w + "." + f;
    assert s[|w|..|w| + 1] == ".";
    assert OccursAt(s, ".", |w|);
    forall i | 0 <= i < |w| ensures !OccursAt(s, ".", i) {
      assert s[i] == w[i] && IsDigit(w[i]);
    }
  }

  /** The value a decimal literal with digits `w` before the point and `f`
      after it denotes. */
  function DecimalValue(w: string, f: string): real
    requires AllDigits(w) && AllDigits(f)
  {
    DigitsValue(w) as real + DigitsValue(f) as real / Pow10(|f|) as real
  }

  lemma ParseUnsignedOfDecimal(w: string, f: string)
    requires AllDigits(w) && AllDigits(f) && (w != [] || f != [])
    ensures ParseUnsigned(w + "." + f) == Some(DecimalValue(w, f))
    ensures (w + "." + f)[0] != '+' && (w + "." + f)[0] != '-'
  {
    var s := w + "." + f;
    PointAfterDigits(w, f);
    assert s[..|w|] == w && s[|w| + 1..] == f;
    if w != [] {
      assert s[0] == w[0] && IsDigit(w[0]);
    }
  }

  /** `Number` reads a literal `w.f`, with or without a "+", as its decimal
      value; this is the form of a fractional multiplier such as "0.5". With
      a "-" it reads the negated value (`ParseNumberMinus`). */
  lemma ParseNumberOfDecimal(w: string, f: string)
    requires AllDigits(w) && AllDigits(f) && (w != [] || f != [])
    ensures ParseNumber(w + "." + f) == Some(DecimalValue(w, f))
    ensures ParseNumber("+" + (w + "." + f)) == Some(DecimalValue(w, f))
  {
    var s := w + "." + f;
    ParseUnsignedOfDecimal(w, f);
    ParseNumberUnsigned(s);
    ParseNumberPlus(s);
  }

  /** Without a sign the string is read as unsigned. */
  lemma ParseNumberUnsigned(t: string)
    requires t != "" && t[0] != '+' && t[0] != '-'
    ensures ParseNumber(t) == ParseUnsigned(t)
  {
  }

  /** A leading "+" is read off. */
  lemma ParseNumberPlus(t: string)
    ensures ParseNumber("+" + t) == ParseUnsigned(t)
  {
    var plus := "+" + t;
    assert plus[0] == '+' && plus[1..] == t;
  }

  /** A leading "-" negates what the rest denotes. */
  lemma ParseNumberMinus(t: string)
    requires ParseUnsigned(t).Some?
    ensures ParseNumber("-" + t) == Some(-ParseUnsigned(t).value)
  {
    var minus := "-" + t;
    assert minus[0] == '-' && minus[1..] == t;
  }

  /** `Number` reads a signed string of digits as its value. */
  lemma ParseNumberOfSignedDigits(w: string)
    requires AllDigits(w) && w != []
    ensures ParseNumber("+" + w) == Some(DigitsValue(w) as real)
    ensures ParseNumber("-" + w) == Some(-(DigitsValue(w) as real))
  {
    NoPointInDigits(w);
    assert ParseUnsigned(w) == Some(DigitsValue(w) as real);
    ParseNumberPlus(w);
    ParseNumberMinus(w);
  }

  /** The decimal digits of `n`, as a template literal `${n}` writes it. */
  function NatToString(n: nat): (r: string)
    ensures r != [] && AllDigits(r)
  {
    var d := ['0' + (n % 10) as char];
    if n < 10 then d else NatToString(n / 10) + d
  }

  lemma {:induction false} DigitsValueOfNatToString(n: nat)
    ensures DigitsValue(NatToString(n)) == n
  {
    var s := NatToString(n);
    if n >= 10 {
      DigitsValueOfNatToString(n / 10);
      assert s[..|s| - 1] == NatToString(n / 10);
    }
  }

  /** `Number` reads back every natural number written in decimal. */
  lemma ParseNumberOfNatToString(n: nat)
    ensures ParseNumber(NatToString(n)) == Some(n as real)
  {
    DigitsValueOfNatToString(n);
  }
}
