/** The Python string operations the pipeline relies on, restricted to ASCII:
    `str.strip()`, `str.title()`, `str(int)`, `str.zfill(width)` and `int(str)`. */
module PyStr {
  import opened Wrappers

  /** `str.isspace()` on ASCII: space, \t, \n, \v, \f, \r and the four
      information separators \x1c..\x1f. */
  predicate IsSpace(c: char) {
    c == ' ' || (9 <= c as int <= 13) || (28 <= c as int <= 31)
  }

  /** Cased characters (ASCII letters); every other character is uncased. */
  predicate IsLetter(c: char) {
    ('a' <= c <= 'z') || ('A' <= c <= 'Z')
  }

  predicate IsDigit(c: char) {
    '0' <= c <= '9'
  }

  function Upper(c: char): (r: char)
    ensures IsLetter(c) ==> IsLetter(r) && 'A' <= r <= 'Z'
    ensures !IsLetter(c) ==> r == c
  {
    if 'a' <= c <= 'z' then (c as int - 32) as char else c
  }

  function Lower(c: char): (r: char)
    ensures IsLetter(c) ==> IsLetter(r) && 'a' <= r <= 'z'
    ensures !IsLetter(c) ==> r == c
  {
    if 'A' <= c <= 'Z' then (c as int + 32) as char else c
  }

  // ----- strip -----

  function LStrip(s: string): string
  {
    if s != [] && IsSpace(s[0]) then LStrip(s[1..]) else s
  }

  function RStrip(s: string): string
  {
    if s != [] && IsSpace(s[|s| - 1]) then RStrip(s[..|s| - 1]) else s
  }

  /** `str.strip()` with no argument. */
  function Strip(s: string): string
  {
    RStrip(LStrip(s))
  }

  /** Neither the first nor the last character is whitespace. */
  predicate NoOuterSpace(t: string) {
    t == [] || (!IsSpace(t[0]) && !IsSpace(t[|t| - 1]))
  }

  lemma {:induction false} LStripSlice(s: string) returns (a: nat)
    ensures a <= |s| && LStrip(s) == s[a..]
    ensures forall k :: 0 <= k < a ==> IsSpace(s[k])
    ensures a < |s| ==> !IsSpace(s[a])
    decreases |s|
  {
    if s != [] && IsSpace(s[0]) {
      var a' := LStripSlice(s[1..]);
      a := a' + 1;
      assert s[1..][a'..] == s[a..];
    } else {
      a := 0;
    }
  }

  lemma {:induction false} RStripSlice(s: string) returns (b: nat)
    ensures b <= |s| && RStrip(s) == s[..b]
    ensures forall k :: b <= k < |s| ==> IsSpace(s[k])
    ensures b > 0 ==> !IsSpace(s[b - 1])
    decreases |s|
  {
    if s != [] && IsSpace(s[|s| - 1]) {
      b := RStripSlice(s[..|s| - 1]);
      assert s[..|s| - 1][..b] == s[..b];
    } else {
      b := |s|;
    }
  }

  /** `strip()` removes exactly the leading and trailing whitespace: the result
      is the slice `s[a..b]`, everything cut off is whitespace, and the result
      neither starts nor ends with whitespace. */
  lemma StripSpec(s: string) returns (a: nat, b: nat)
    ensures a <= b <= |s| && Strip(s) == s[a..b]
    ensures forall k :: 0 <= k < a ==> IsSpace(s[k])
    ensures forall k :: b <= k < |s| ==> IsSpace(s[k])
    ensures NoOuterSpace(Strip(s))
  {
    a := LStripSlice(s);
    var t := s[a..];
    var b' := RStripSlice(t);
    b := a + b';
    assert t[..b'] == s[a..b];
    forall k | b <= k < |s| ensures IsSpace(s[k]) {
      assert s[k] == t[k - a];
    }
    if b' > 0 {
      assert Strip(s)[0] == t[0] == s[a];
    }
  }

  /** A string without outer whitespace is left as it is by `strip()`. */
  lemma StripNoOuterSpace(t: string)
    requires NoOuterSpace(t)
    ensures Strip(t) == t
  {
    if t != [] {
      assert LStrip(t) == t;
    }
  }

  // ----- title -----

  /** `str.title()` scanning left to right; `prevCased` tells whether the
      character before `s` was cased. */
  function TitleFrom(s: string, prevCased: bool): (r: string)
    ensures |r| == |s|
    decreases |s|
  {
    if s == [] then []
    else
      var c := s[0];
      [if !IsLetter(c) then c else if prevCased then Lower(c) else Upper(c)]
        + TitleFrom(s[1..], IsLetter(c))
  }

  /** `str.title()`. */
  function Title(s: string): string
  {
    TitleFrom(s, false)
  }

  /** The case rule of `str.title()` stated per position: a letter that starts
      the string or follows a non-letter is upper-cased, any other letter is
      lower-cased, and a non-letter is left as it is. */
  predicate TitleCaseAt(s: string, r: string, i: int)
    requires 0 <= i < |s| == |r|
  {
    if !IsLetter(s[i]) then r[i] == s[i]
    else if i > 0 && IsLetter(s[i - 1]) then r[i] == Lower(s[i])
    else r[i] == Upper(s[i])
  }

  lemma {:induction false} TitleFromAt(s: string, prevCased: bool, i: nat)
    requires i < |s|
    ensures var r := TitleFrom(s, prevCased);
      if !IsLetter(s[i]) then r[i] == s[i]
      else if (if i == 0 then prevCased else IsLetter(s[i - 1])) then r[i] == Lower(s[i])
      else r[i] == Upper(s[i])
    decreases |s|
  {
    if i > 0 {
      TitleFromAt(s[1..], IsLetter(s[0]), i - 1);
    }
  }

  lemma TitleSpec(s: string)
    ensures |Title(s)| == |s|
    ensures forall i :: 0 <= i < |s| ==> TitleCaseAt(s, Title(s), i)
  {
    forall i | 0 <= i < |s| ensures TitleCaseAt(s, Title(s), i) {
      TitleFromAt(s, false, i);
    }
  }

  /** Title-casing keeps every character's class: letters stay letters,
      whitespace stays whitespace. */
  lemma TitleKeepsClasses(s: string)
    ensures |Title(s)| == |s|
    ensures forall i :: 0 <= i < |s| ==>
      (IsLetter(Title(s)[i]) <==> IsLetter(s[i])) && (IsSpace(Title(s)[i]) <==> IsSpace(s[i]))
  {
    TitleSpec(s);
    forall i | 0 <= i < |s|
      ensures (IsLetter(Title(s)[i]) <==> IsLetter(s[i])) && (IsSpace(Title(s)[i]) <==> IsSpace(s[i]))
    {
      assert TitleCaseAt(s, Title(s), i);
    }
  }

  /** `title()` applied twice equals `title()` applied once. */
  lemma TitleIdempotent(s: string)
    ensures Title(Title(s)) == Title(s)
  {
    var t := Title(s);
    TitleSpec(s);
    TitleSpec(t);
    TitleKeepsClasses(s);
    forall i | 0 <= i < |s| ensures Title(t)[i] == t[i] {
      assert TitleCaseAt(s, t, i);
      assert TitleCaseAt(t, Title(t), i);
    }
  }

  // ----- integers and their decimal text -----

  function DigitChar(d: nat): (c: char)
    requires d < 10
    ensures IsDigit(c)
  {
    ('0' as int + d) as char
  }

  function DigitValue(c: char): (d: nat)
    requires IsDigit(c)
    ensures d < 10 && DigitChar(d) == c
  {
    c as int - '0' as int
  }

  predicate AllDigits(s: string) {
    forall k :: 0 <= k < |s| ==> IsDigit(s[k])
  }

  /** The number a string of decimal digits denotes. */
  function DigitsValue(s: string): nat
    requires AllDigits(s)
    decreases |s|
  {
    if s == [] then 0 else DigitsValue(s[..|s| - 1]) * 10 + DigitValue(s[|s| - 1])
  }

  /** `str(n)` for a non-negative integer: its shortest decimal digits. */
  function NatToStr(n: nat): string
    decreases n
  {
    if n < 10 then [DigitChar(n)] else NatToStr(n / 10) + [DigitChar(n % 10)]
  }

  /** `str(i)`: a minus sign in front of a negative number's digits. */
  function IntToStr(i: int): string
  {
    if i < 0 then "-" + NatToStr(-i) else NatToStr(i)
  }

  /** `str.zfill(width)`: left-pad with zeros up to `width`, keeping a leading
      sign in front of the padding. */
  function ZFill(s: string, width: nat): string
  {
    if |s| >= width then s
    else if s != [] && (s[0] == '+' || s[0] == '-') then [s[0]] + Zeros(width - |s|) + s[1..]
    else Zeros(width - |s|) + s
  }

  function Zeros(n: nat): (z: string)
    ensures |z| == n && forall k :: 0 <= k < n ==> z[k] == '0'
  {
    seq(n, _ => '0')
  }

  /** `str(n)` is a non-empty digit string whose value is `n`, without a
      superfluous leading zero; it has one digit below 10, two below 100 and
      at least three from 100 on. */
  lemma {:induction false} NatToStrDigits(n: nat)
    ensures var t := NatToStr(n);
      |t| >= 1 && AllDigits(t) && DigitsValue(t) == n && (n > 0 ==> t[0] != '0')
    ensures n < 10 ==> |NatToStr(n)| == 1
    ensures 10 <= n < 100 ==> |NatToStr(n)| == 2
    ensures 100 <= n ==> |NatToStr(n)| >= 3
    decreases n
  {
    if n >= 10 {
      NatToStrDigits(n / 10);
      var t := NatToStr(n);
      assert t[..|t| - 1] == NatToStr(n / 10);
    }
  }

  /** `int(s)` on a string: surrounding whitespace, an optional sign, then one
      or more decimal digits; anything else raises (`None`). */
  function ParseInt(s: string): (r: Option<int>)
  {
    var t := Strip(s);
    if t != [] && (t[0] == '+' || t[0] == '-') then
      var body := t[1..];
      if body != [] && AllDigits(body) then
        var v: int := DigitsValue(body);
        Some(if t[0] == '-' then -v else v)
      else None
    else if t != [] && AllDigits(t) then Some(DigitsValue(t))
    else None
  }

  /** The literal `int()` accepts once whitespace is stripped: an optional
      sign followed by one or more ASCII digits. */
  predicate IsIntText(t: string) {
    || (|t| >= 1 && AllDigits(t))
    || (|t| >= 2 && (t[0] == '+' || t[0] == '-') && AllDigits(t[1..]))
  }

  /** `int(s)` succeeds exactly on an optional sign and one or more digits
      surrounded by whitespace, and then gives the digits' value, negated
      after a minus sign. */
  lemma ParseIntSpec(s: string)
    ensures ParseInt(s).Some? <==> IsIntText(Strip(s))
    ensures var t := Strip(s);
      |t| >= 1 && AllDigits(t) ==> ParseInt(s) == Some(DigitsValue(t))
    ensures var t := Strip(s);
      |t| >= 2 && t[0] == '+' && AllDigits(t[1..]) ==> ParseInt(s) == Some(DigitsValue(t[1..]))
    ensures var t := Strip(s);
      |t| >= 2 && t[0] == '-' && AllDigits(t[1..]) ==> ParseInt(s) == Some(-(DigitsValue(t[1..]) as int))
  {
    var t := Strip(s);
    if t != [] && (t[0] == '+' || t[0] == '-') {
      assert !IsDigit(t[0]);
    }
  }

  /** Whitespace around the text of an integer does not change what `int()`
      reads. */
  lemma ParseIntPadded(pre: string, i: int, post: string)
    requires forall k :: 0 <= k < |pre| ==> IsSpace(pre[k])
    requires forall k :: 0 <= k < |post| ==> IsSpace(post[k])
    ensures ParseInt(pre + IntToStr(i) + post) == Some(i)
  {
    var d := NatToStr(if i < 0 then -i else i);
    NatToStrDigits(if i < 0 then -i else i);
    var t := IntToStr(i);
    var s := pre + t + post;
    assert !IsSpace(t[0]) && !IsSpace(t[|t| - 1]);
    var a, b := StripSpec(s);
    assert a == |pre| by {
      assert s[|pre|] == t[0];
      assert forall k :: 0 <= k < |pre| ==> s[k] == pre[k];
    }
    assert b == |pre| + |t| by {
      assert s[|pre| + |t| - 1] == t[|t| - 1];
      assert forall k :: |pre| + |t| <= k < |s| ==> s[k] == post[k - |pre| - |t|];
    }
    assert Strip(s) == t;
    ParseIntRoundTrip(i);
    StripNoOuterSpace(t);
  }

  /** `int()` on a few cells: whitespace is ignored, and a trailing letter or
      a decimal point makes the cast raise. */
  lemma ParseIntExamples()
    ensures ParseInt(" 7 ") == Some(7)
    ensures ParseInt("-3") == Some(-3)
    ensures ParseInt("12a") == None
    ensures ParseInt("2024.0") == None
    ensures ParseInt("") == None
    ensures ParseInt(" + ") == None
  {
    ParseIntPadded(" ", 7, " ");
    assert IntToStr(7) == "7";
    assert " " + "7" + " " == " 7 ";
    ParseIntRoundTrip(-3);
    assert IntToStr(-3) == "-3";
    ParseIntSpec("12a");
    ParseIntSpec("2024.0");
    ParseIntSpec(" + ");
  }

  /** `int(str(i)) == i`. */
  lemma ParseIntRoundTrip(i: int)
    ensures ParseInt(IntToStr(i)) == Some(i)
  {
    var s := IntToStr(i);
    var d := NatToStr(if i < 0 then -i else i);
    NatToStrDigits(if i < 0 then -i else i);
    assert !IsSpace(d[0]) && !IsSpace(d[|d| - 1]);
    StripNoOuterSpace(s);
    if i < 0 {
      assert s[1..] == d;
    }
  }
}
