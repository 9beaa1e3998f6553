/**
  * The few JavaScript string operations the application relies on:
  * `trim`, `toLowerCase`, `includes`, `join`, and the decimal rendering of
  * integers and of `Number.prototype.toFixed(1)` on half-gram amounts.
  */
module Text {
  import opened Base

  /**
    * The code points that `String.prototype.trim` removes: ECMAScript's
    * WhiteSpace (TAB, VT, FF, ZWNBSP and every space separator) and
    * LineTerminator (LF, CR, LS, PS).
    */
  predicate IsJsSpace(c: char) {
    || c == '\t' || c == '\U{000B}' || c == '\U{000C}' || c == '\U{FEFF}'
    || c == ' ' || c == '\U{00A0}' || c == '\U{1680}' || ('\U{2000}' <= c <= '\U{200A}')
    || c == '\U{202F}' || c == '\U{205F}' || c == '\U{3000}'
    || c == '\n' || c == '\r' || c == '\U{2028}' || c == '\U{2029}'
  }

  /** Removes leading white space: the result is a suffix of `s`. */
  function TrimStart(s: string): (r: string)
    ensures |r| <= |s| && r == s[|s| - |r|..]
    ensures r == [] || !IsJsSpace(r[0])
    ensures forall i | 0 <= i < |s| - |r| :: IsJsSpace(s[i])
  {
    if s != [] && IsJsSpace(s[0]) then
      var r := TrimStart(s[1..]);
      assert s[1..][|s| - 1 - |r|..] == s[|s| - |r|..];
      assert forall i | 1 <= i < |s| - |r| :: s[i] == s[1..][i - 1];
      r
    else
      s
  }

  /** Removes trailing white space: the result is a prefix of `s`. */
  function TrimEnd(s: string): (r: string)
    ensures |r| <= |s| && r == s[..|r|]
    ensures r == [] || !IsJsSpace(r[|r| - 1])
    ensures forall i | |r| <= i < |s| :: IsJsSpace(s[i])
  {
    if s != [] && IsJsSpace(s[|s| - 1]) then
      var r := TrimEnd(s[..|s| - 1]);
      assert s[..|s| - 1][..|r|] == s[..|r|];
      assert forall i | |r| <= i < |s| - 1 :: s[i] == s[..|s| - 1][i];
      r
    else
      s
  }

  /** `s.trim()`. */
  function Trim(s: string): string {
    TrimEnd(TrimStart(s))
  }

  /** Every character of `s` is white space. */
  predicate AllSpace(s: string) {
    forall i | 0 <= i < |s| :: IsJsSpace(s[i])
  }

  /**
    * `s.trim()` is the contiguous part of `s` left once the white space at
    * either end is cut off.
    */
  lemma TrimIsInnerSlice(s: string)
    ensures exists lo, hi | 0 <= lo <= hi <= |s| ::
              Trim(s) == s[lo..hi] && AllSpace(s[..lo]) && AllSpace(s[hi..])
  {
    var t := TrimStart(s);
    var lo := |s| - |t|;
    var u := TrimEnd(t);
    var hi := lo + |u|;
    LeadingSpace(s);
    TrailingSpace(t);
    assert t == s[lo..] && u == t[..|u|];
    assert s[hi..] == t[|u|..];
    assert s[lo..hi] == t[..|u|];
    assert Trim(s) == s[lo..hi] && AllSpace(s[..lo]) && AllSpace(s[hi..]);
  }

  /** What `TrimStart` cuts off is white space. */
  lemma LeadingSpace(s: string)
    ensures AllSpace(s[..|s| - |TrimStart(s)|])
  {
  }

  /** What `TrimEnd` cuts off is white space. */
  lemma TrailingSpace(s: string)
    ensures AllSpace(s[|TrimEnd(s)|..])
  {
    var r := TrimEnd(s);
    forall i | 0 <= i < |s| - |r| ensures IsJsSpace(s[|r|..][i]) {
      assert s[|r|..][i] == s[|r| + i];
    }
  }

  /** `s.trim()` neither starts nor ends with white space. */
  lemma TrimEdges(s: string)
    ensures Trim(s) == [] || (!IsJsSpace(Trim(s)[0]) && !IsJsSpace(Trim(s)[|Trim(s)| - 1]))
  {
    var t := TrimStart(s);
    var u := TrimEnd(t);
    if u != [] {
      assert u[0] == t[0];
    }
  }

  /** A string trims to nothing exactly when every character in it is white space. */
  lemma TrimEmptyIff(s: string)
    ensures Trim(s) == [] <==> forall i | 0 <= i < |s| :: IsJsSpace(s[i])
  {
  }

  /** Trimming twice is trimming once. */
  lemma TrimIdempotent(s: string)
    ensures Trim(Trim(s)) == Trim(s)
  {
    var t := Trim(s);
    TrimEdges(s);
    assert TrimStart(t) == t;
    assert TrimEnd(t) == t;
  }

  /** The lower-case form of an ASCII capital; every other character is kept. */
  function LowerChar(c: char): char {
    if 'A' <= c <= 'Z' then (c as int + 32) as char else c
  }

  /** `s.toLowerCase()`, restricted to the ASCII letters. */
  function ToLower(s: string): (r: string)
    ensures |r| == |s|
    ensures forall i | 0 <= i < |s| :: r[i] == LowerChar(s[i])
  {
    seq(|s|, i requires 0 <= i < |s| => LowerChar(s[i]))
  }

  /** `sub` occurs in `s` starting at `i`. */
  predicate OccursAt(s: string, sub: string, i: int) {
    0 <= i && i + |sub| <= |s| && s[i..i + |sub|] == sub
  }

  lemma OccursShift(s: string, sub: string, i: int)
    requires s != [] && 0 <= i
    ensures OccursAt(s, sub, i + 1) <==> OccursAt(s[1..], sub, i)
  {
    if OccursAt(s, sub, i + 1) || OccursAt(s[1..], sub, i) {
      assert s[1..][i..i + |sub|] == s[i + 1..i + 1 + |sub|];
    }
  }

  /** `s.includes(sub)`: some position of `s` starts a copy of `sub`. */
  function Includes(s: string, sub: string): (r: bool)
    ensures r <==> exists i :: OccursAt(s, sub, i)
  {
    if |s| < |sub| then false
    else if s[..|sub|] == sub then
      assert OccursAt(s, sub, 0);
      true
    else
      var rest := Includes(s[1..], sub);
      assert rest ==> exists i :: OccursAt(s, sub, i) by {
        if rest {
          var j :| OccursAt(s[1..], sub, j);
          OccursShift(s, sub, j);
        }
      }
      assert (exists i :: OccursAt(s, sub, i)) ==> rest by {
        if exists i :: OccursAt(s, sub, i) {
          var i :| OccursAt(s, sub, i);
          OccursShift(s, sub, i - 1);
        }
      }
      rest
  }

  /** `parts.join(sep)`. */
  function Join(parts: seq<string>, sep: string): string {
    if parts == [] then ""
    else if |parts| == 1 then parts[0]
    else parts[0] + sep + Join(parts[1..], sep)
  }

  /** Number of occurrences of `c` in `s`. */
  function CountChar(s: string, c: char): nat {
    if s == [] then 0 else (if s[0] == c then 1 else 0) + CountChar(s[1..], c)
  }

  lemma {:induction false} CountCharAppend(a: string, b: string, c: char)
    ensures CountChar(a + b, c) == CountChar(a, c) + CountChar(b, c)
  {
    if a != [] {
      assert (a + b)[0] == a[0] && (a + b)[1..] == a[1..] + b;
      CountCharAppend(a[1..], b, c);
    } else {
      assert a + b == b;
    }
  }

  predicate IsDigit(c: char) {
    '0' <= c <= '9'
  }

  function DigitChar(d: nat): char
    requires d < 10
  {
    ('0' as int + d) as char
  }

  /** The value of a string of decimal digits. */
  function DigitsValue(s: string): nat
    requires forall i | 0 <= i < |s| :: IsDigit(s[i])
  {
    if s == [] then 0
    else
      assert IsDigit(s[|s| - 1]);
      DigitsValue(s[..|s| - 1]) * 10 + (s[|s| - 1] as int - '0' as int)
  }

  /** The decimal rendering of a natural number, as `String(n)` gives it. */
  function NatToString(n: nat): (s: string)
    ensures |s| >= 1 && forall i | 0 <= i < |s| :: IsDigit(s[i])
    ensures s[0] == '0' ==> n == 0
  {
    if n < 10 then [DigitChar(n)] else NatToString(n / 10) + [DigitChar(n % 10)]
  }

  /** Reading back the rendered digits gives the number: the rendering loses nothing. */
  lemma {:induction false} NatToStringRoundTrip(n: nat)
    ensures DigitsValue(NatToString(n)) == n
  {
    if n >= 10 {
      var s := NatToString(n);
      assert s[..|s| - 1] == NatToString(n / 10);
      NatToStringRoundTrip(n / 10);
    }
  }

  /** `String(i)` for an integer: a minus sign before the digits of a negative value. */
  function IntToString(i: int): (s: string)
    ensures i < 0 <==> (s != [] && s[0] == '-')
  {
    if i < 0 then "-" + NatToString(-i) else NatToString(i)
  }

  /** Reads a decimal integer with an optional minus sign; `None` on anything else. */
  function ParseInt(s: string): (r: Option<int>) {
    if s != [] && s[0] == '-' then
      if |s| > 1 && forall i | 1 <= i < |s| :: IsDigit(s[i]) then Some(0 - DigitsValue(s[1..]) as int) else None
    else if s != [] && forall i | 0 <= i < |s| :: IsDigit(s[i]) then Some(DigitsValue(s))
    else None
  }

  /** A minus sign before the digits of `n` reads back as `-n`; `-0` reads as 0. */
  lemma NegativeWholeParses(n: nat)
    ensures ParseInt("-" + NatToString(n)) == Some(0 - n)
  {
    assert ("-" + NatToString(n))[1..] == NatToString(n);
    NatToStringRoundTrip(n);
  }

  lemma IntToStringRoundTrip(i: int)
    ensures ParseInt(IntToString(i)) == Some(i)
  {
    if i < 0 {
      NegativeWholeParses(-i);
    } else {
      NatToStringRoundTrip(i);
      assert IsDigit(NatToString(i)[0]);
    }
  }

  /**
    * `(h / 2).toFixed(1)` for an amount of `h` half-grams: the whole grams,
    * a point, and `5` or `0` for the odd half.
    */
  function HalvesToFixed1(h: int): (s: string)
    ensures |s| >= 3 && s[|s| - 2] == '.'
  {
    var a := if h < 0 then -h else h;
    (if h < 0 then "-" else "") + NatToString(a / 2) + "." + (if a % 2 == 1 then "5" else "0")
  }

  /** Reads a one-decimal amount whose decimal is 0 or 5 back into half-grams. */
  function ParseFixed1Halves(s: string): (r: Option<int>) {
    if |s| < 3 || s[|s| - 2] != '.' || (s[|s| - 1] != '0' && s[|s| - 1] != '5') then None
    else
      var whole := ParseInt(s[..|s| - 2]);
      var half := if s[|s| - 1] == '5' then 1 else 0;
      match whole
      case None => None
      case Some(w) =>
        if s[0] == '-' then Some(2 * w - half) else Some(2 * w + half)
  }

  /** The rendering splits into the signed whole grams, the point and the half digit. */
  lemma Fixed1Parts(h: int)
    ensures var s := HalvesToFixed1(h); var a := if h < 0 then -h else h;
            && s[..|s| - 2] == (if h < 0 then "-" else "") + NatToString(a / 2)
            && s[|s| - 1] == (if a % 2 == 1 then '5' else '0')
  {
  }

  /** The rendered amount reads back as the same number of half-grams. */
  lemma Fixed1RoundTrip(h: int)
    ensures ParseFixed1Halves(HalvesToFixed1(h)) == Some(h)
  {
    var a := if h < 0 then -h else h;
    var q, half := a / 2, a % 2;
    assert a == 2 * q + half;
    var s := HalvesToFixed1(h);
    var whole := s[..|s| - 2];
    Fixed1Parts(h);
    assert s[|s| - 1] == (if half == 1 then '5' else '0');
    assert s[0] == whole[0];
    if h < 0 {
      NegativeWholeParses(q);
      assert ParseInt(whole) == Some(0 - q);
      assert s[0] == '-';
    } else {
      NatToStringRoundTrip(q);
      assert whole == NatToString(q);
      assert IsDigit(whole[0]);
      assert s[0] != '-';
    }
  }
}
