/** The few Python string operations the program relies on: str.strip(),
    str.startswith(), the "in" test, str.lower() on ASCII, str(int) and int(str). */
module Text {
  import opened Wrappers

  /** Python's str.isspace(): the characters str.strip() and str.split() remove. */
  predicate IsSpace(c: char) {
    var n := c as int;
    || 9 <= n <= 13
    || 0x1C <= n <= 0x20
    || n == 0x85 || n == 0xA0 || n == 0x1680
    || 0x2000 <= n <= 0x200A
    || n == 0x2028 || n == 0x2029 || n == 0x202F || n == 0x205F || n == 0x3000
  }

  predicate AllSpace(s: string) {
    forall i :: 0 <= i < |s| ==> IsSpace(s[i])
  }

  /** Neither the first nor the last character is whitespace. */
  predicate IsStripped(s: string) {
    |s| == 0 || (!IsSpace(s[0]) && !IsSpace(s[|s| - 1]))
  }

  /** s without its trailing whitespace. */
  function TrimRight(s: string): string {
    if |s| > 0 && IsSpace(s[|s| - 1]) then TrimRight(s[..|s| - 1]) else s
  }

  /** Python's str.strip() with no argument: leading whitespace dropped one
      character at a time, then trailing whitespace. */
  function Strip(s: string): string {
    if |s| > 0 && IsSpace(s[0]) then Strip(s[1..]) else TrimRight(s)
  }

  /** TrimRight removes a whitespace-only suffix and stops at the last
      non-whitespace character. */
  lemma {:induction false} TrimRightFacts(s: string)
    ensures var r := TrimRight(s);
            && |r| <= |s| && r == s[..|r|]
            && (forall i :: |r| <= i < |s| ==> IsSpace(s[i]))
            && (|r| > 0 ==> !IsSpace(r[|r| - 1]))
  {
    if |s| > 0 && IsSpace(s[|s| - 1]) {
      TrimRightFacts(s[..|s| - 1]);
    }
  }

  /** What str.strip() promises: no whitespace at either end, nothing left
      exactly when the text is all whitespace, a stripped text unchanged,
      and the first character kept when it is not whitespace. */
  lemma {:induction false} StripFacts(s: string)
    ensures var r := Strip(s);
            && IsStripped(r) && |r| <= |s|
            && (r == [] <==> AllSpace(s))
            && (IsStripped(s) ==> r == s)
            && (|s| > 0 && !IsSpace(s[0]) ==> |r| > 0 && r[0] == s[0])
  {
    if |s| > 0 && IsSpace(s[0]) {
      StripFacts(s[1..]);
      assert AllSpace(s) <==> AllSpace(s[1..]) by {
        assert forall i :: 0 <= i < |s[1..]| ==> s[1..][i] == s[i + 1];
      }
    } else {
      TrimRightFacts(s);
    }
  }

  /** Python's s.startswith(p). */
  predicate StartsWith(s: string, p: string) {
    |p| <= |s| && s[..|p|] == p
  }

  /** Position of the first occurrence of c in s, if any. */
  function IndexOf(s: string, c: char): (r: Option<nat>)
    ensures r.None? <==> c !in s
    ensures r.Some? ==> r.value < |s| && s[r.value] == c
  {
    if |s| == 0 then None
    else if s[0] == c then Some(0)
    else
      match IndexOf(s[1..], c)
      case None => None
      case Some(i) => Some(i + 1)
  }

  /** IndexOf finds the first occurrence. */
  lemma {:induction false} IndexOfFirst(s: string, c: char)
    ensures IndexOf(s, c).Some? ==> c !in s[..IndexOf(s, c).value]
  {
    if |s| > 0 && s[0] != c {
      IndexOfFirst(s[1..], c);
      if IndexOf(s, c).Some? {
        assert s[..IndexOf(s, c).value] == [s[0]] + s[1..][..IndexOf(s[1..], c).value];
      }
    }
  }

  /** An occurrence of c with none before it is the one IndexOf finds. */
  lemma IndexOfAt(s: string, c: char, k: nat)
    requires k < |s| && s[k] == c && c !in s[..k]
    ensures IndexOf(s, c) == Some(k)
  {
    assert s[..k + 1][k] == c;
    IndexOfFirst(s, c);
  }

  /** Position of the first whitespace character in s, if any. */
  function FirstSpace(s: string): (r: Option<nat>)
    ensures r.Some? ==> r.value < |s| && IsSpace(s[r.value])
  {
    if |s| == 0 then None
    else if IsSpace(s[0]) then Some(0)
    else
      match FirstSpace(s[1..])
      case None => None
      case Some(i) => Some(i + 1)
  }

  /** FirstSpace finds the first whitespace character, and nothing when
      there is none. */
  lemma {:induction false} FirstSpaceFirst(s: string)
    ensures FirstSpace(s).None? <==> forall i :: 0 <= i < |s| ==> !IsSpace(s[i])
    ensures FirstSpace(s).Some? ==> forall i :: 0 <= i < FirstSpace(s).value ==> !IsSpace(s[i])
  {
    if |s| > 0 && !IsSpace(s[0]) {
      FirstSpaceFirst(s[1..]);
      assert forall i :: 1 <= i < |s| ==> s[i] == s[1..][i - 1];
    }
  }

  /** Python's str.lower(), restricted to ASCII letters. */
  function LowerAscii(s: string): (r: string)
    ensures |r| == |s|
  {
    seq(|s|, i requires 0 <= i < |s| => if 'A' <= s[i] <= 'Z' then (s[i] as int + 32) as char else s[i])
  }

  predicate IsDigit(c: char) {
    '0' <= c <= '9'
  }

  function DigitValue(c: char): nat
    requires IsDigit(c)
  {
    c as int - '0' as int
  }

  function DigitChar(d: nat): (c: char)
    requires d < 10
    ensures IsDigit(c) && DigitValue(c) == d
  {
    ('0' as int + d) as char
  }

  /** Python's str() of a non-negative int: decimal digits, no leading zero. */
  function NatToString(n: nat): (r: string)
    ensures |r| > 0 && IsDigit(r[0]) && IsDigit(r[|r| - 1])
    ensures r[0] == '0' ==> n == 0
    decreases n
  {
    if n < 10 then [DigitChar(n)] else NatToString(n / 10) + [DigitChar(n % 10)]
  }

  /** Python's str() of an int. */
  function IntToString(n: int): (r: string)
    ensures |r| > 0 && IsStripped(r)
    ensures r[0] == '-' <==> n < 0
  {
    if n < 0 then "-" + NatToString(-n) else NatToString(n)
  }

  /** Digits, with single underscores allowed between two digits, as int()
      accepts them in base 10. */
  predicate IsDigitGroup(s: string) {
    && |s| > 0
    && IsDigit(s[0])
    && IsDigit(s[|s| - 1])
    && forall i :: 0 <= i < |s| ==> IsDigit(s[i]) || (s[i] == '_' && i + 1 < |s| && IsDigit(s[i + 1]))
  }

  /** The number a digit group denotes; underscores carry no value. */
  function DigitsValue(s: string): nat
  {
    if |s| == 0 then 0
    else if IsDigit(s[|s| - 1]) then DigitsValue(s[..|s| - 1]) * 10 + DigitValue(s[|s| - 1])
    else DigitsValue(s[..|s| - 1])
  }

  /** The number of digits in s, underscores not counted. */
  function DigitCount(s: string): nat
  {
    if |s| == 0 then 0
    else DigitCount(s[..|s| - 1]) + (if IsDigit(s[|s| - 1]) then 1 else 0)
  }

  /** CPython's default limit on the digits int() reads and str() writes in
      base 10 (sys.get_int_max_str_digits()); past it both raise ValueError. */
  const MaxStrDigits := 4300

  /** A digit group int() accepts: within the digit limit. */
  predicate Readable(g: string) {
    IsDigitGroup(g) && DigitCount(g) <= MaxStrDigits
  }

  /** The whitespace int() skips around a numeral: what str.isspace()
      accepts except the ASCII separators U+001C to U+001F, which int()
      does not skip (it skips ASCII 9 to 13 and 32 only, after mapping
      every non-ASCII whitespace character to a space). */
  predicate IsIntSpace(c: char) {
    IsSpace(c) && !(0x1C <= c as int <= 0x1F)
  }

  /** s without the leading whitespace int() skips. */
  function DropIntSpace(s: string): string {
    if |s| > 0 && IsIntSpace(s[0]) then DropIntSpace(s[1..]) else s
  }

  /** s without the trailing whitespace int() skips. */
  function TrimIntSpace(s: string): string {
    if |s| > 0 && IsIntSpace(s[|s| - 1]) then TrimIntSpace(s[..|s| - 1]) else s
  }

  /** Whitespace stays whitespace once int() has skipped what it skips. */
  lemma {:induction false} IntSpaceKeepsSpace(s: string)
    requires AllSpace(s)
    ensures AllSpace(DropIntSpace(s)) && AllSpace(TrimIntSpace(DropIntSpace(s)))
  {
    if |s| > 0 && IsIntSpace(s[0]) {
      assert AllSpace(s[1..]) by {
        assert forall i :: 0 <= i < |s[1..]| ==> s[1..][i] == s[i + 1];
      }
      IntSpaceKeepsSpace(s[1..]);
    } else {
      TrimKeepsSpace(s);
    }
  }

  lemma {:induction false} TrimKeepsSpace(s: string)
    requires AllSpace(s)
    ensures AllSpace(TrimIntSpace(s))
  {
    if |s| > 0 && IsIntSpace(s[|s| - 1]) {
      assert AllSpace(s[..|s| - 1]) by {
        assert forall i :: 0 <= i < |s| - 1 ==> s[..|s| - 1][i] == s[i];
      }
      TrimKeepsSpace(s[..|s| - 1]);
    }
  }

  /** A numeral as int() reads it once the surrounding whitespace is gone:
      one optional sign, then a digit group of at most MaxStrDigits digits. */
  function ParseNumeral(t: string): (r: Option<int>)
    ensures |t| > 0 && !IsDigit(t[0]) && t[0] != '+' && t[0] != '-' ==> r.None?
  {
    if |t| > 0 && (t[0] == '+' || t[0] == '-') then
      if Readable(t[1..]) then
        var v: int := DigitsValue(t[1..]);
        Some(if t[0] == '-' then -v else v)
      else
        None
    else if Readable(t) then
      Some(DigitsValue(t))
    else
      None
  }

  /** Python's int(s) for ASCII digits: surrounding whitespace as int()
      skips it, then a numeral; None where int() raises ValueError. */
  function ParseInt(s: string): (r: Option<int>)
    ensures AllSpace(s) ==> r.None?
  {
    if AllSpace(s) then IntSpaceKeepsSpace(s); ParseNumeral(TrimIntSpace(DropIntSpace(s)))
    else ParseNumeral(TrimIntSpace(DropIntSpace(s)))
  }

  /** The number of decimal digits str(n) writes, the sign not counted. */
  function DecimalDigits(n: int): nat {
    |NatToString(if n < 0 then -n else n)|
  }

  lemma {:induction false} NatToStringIsDigitGroup(n: nat)
    ensures IsDigitGroup(NatToString(n))
    ensures forall i :: 0 <= i < |NatToString(n)| ==> IsDigit(NatToString(n)[i])
    ensures DigitsValue(NatToString(n)) == n
    ensures DigitCount(NatToString(n)) == |NatToString(n)|
    decreases n
  {
    var r := NatToString(n);
    if n >= 10 {
      NatToStringIsDigitGroup(n / 10);
      var p := NatToString(n / 10);
      assert r == p + [DigitChar(n % 10)];
      assert r[..|r| - 1] == p;
    }
  }

  /** int(str(n)) == n for every n whose str() stays within the digit
      limit (beyond it str(n) itself raises). */
  lemma ParseIntRoundTrip(n: int)
    requires DecimalDigits(n) <= MaxStrDigits
    ensures ParseInt(IntToString(n)) == Some(n)
  {
    if n < 0 {
      ParseNegative(-n);
    } else {
      ParseNatural(n);
    }
  }

  /** Past the digit limit int() rejects even a plain decimal numeral. */
  lemma ParseIntTooLong(n: int)
    requires DecimalDigits(n) > MaxStrDigits
    ensures ParseInt(IntToString(n)) == None
  {
    var m := if n < 0 then -n else n;
    var s := IntToString(n);
    NatToStringIsDigitGroup(m);
    ParseIntUnpadded(s);
    if n < 0 {
      assert s[1..] == NatToString(m);
    }
  }

  /** A text that neither starts nor ends with whitespace is read as is. */
  lemma ParseIntUnpadded(s: string)
    requires IsStripped(s)
    ensures ParseInt(s) == ParseNumeral(s)
  {
    if |s| > 0 {
      assert !IsIntSpace(s[0]) && !IsIntSpace(s[|s| - 1]);
    }
    assert DropIntSpace(s) == s;
    assert TrimIntSpace(s) == s;
  }

  lemma ParseNatural(n: nat)
    requires |NatToString(n)| <= MaxStrDigits
    ensures ParseInt(NatToString(n)) == Some(n)
  {
    var s := NatToString(n);
    NumeralReadable(n);
    ParseIntUnpadded(s);
  }

  lemma ParseNegative(n: int)
    requires n > 0 && |NatToString(n)| <= MaxStrDigits
    ensures ParseInt("-" + NatToString(n)) == Some(-n)
  {
    var g := NatToString(n);
    NumeralReadable(n);
    MinusNumeralStripped(n);
    ParseMinus(g);
    ParseIntUnpadded("-" + g);
  }

  /** str(n) within the digit limit is a digit group int() reads as n. */
  lemma NumeralReadable(n: nat)
    requires |NatToString(n)| <= MaxStrDigits
    ensures Readable(NatToString(n)) && DigitsValue(NatToString(n)) == n
  {
    NatToStringIsDigitGroup(n);
  }

  lemma MinusNumeralStripped(n: nat)
    ensures IsStripped("-" + NatToString(n))
  {
  }

  lemma ParseMinus(g: string)
    requires Readable(g)
    ensures ParseNumeral("-" + g) == Some(-(DigitsValue(g) as int))
  {
    assert ("-" + g)[1..] == g;
  }

  /** Leading whitespace int() skips is dropped up to the first other character. */
  lemma {:induction false} DropIntSpacePadded(pre: string, x: string)
    requires forall i :: 0 <= i < |pre| ==> IsIntSpace(pre[i])
    requires |x| > 0 && !IsIntSpace(x[0])
    ensures DropIntSpace(pre + x) == x
  {
    if |pre| > 0 {
      assert (pre + x)[1..] == pre[1..] + x;
      DropIntSpacePadded(pre[1..], x);
    } else {
      assert pre + x == x;
    }
  }

  /** Trailing whitespace int() skips is trimmed back to the last other character. */
  lemma {:induction false} TrimIntSpacePadded(x: string, post: string)
    requires forall i :: 0 <= i < |post| ==> IsIntSpace(post[i])
    requires |x| > 0 && !IsIntSpace(x[|x| - 1])
    ensures TrimIntSpace(x + post) == x
  {
    if |post| > 0 {
      assert (x + post)[..|x + post| - 1] == x + post[..|post| - 1];
      TrimIntSpacePadded(x, post[..|post| - 1]);
    } else {
      assert x + post == x;
    }
  }

  /** int() reads str(n) back as n through any whitespace it skips on
      either side. */
  lemma ParseIntPadded(pre: string, n: int, post: string)
    requires forall i :: 0 <= i < |pre| ==> IsIntSpace(pre[i])
    requires forall i :: 0 <= i < |post| ==> IsIntSpace(post[i])
    requires DecimalDigits(n) <= MaxStrDigits
    ensures ParseInt(pre + IntToString(n) + post) == Some(n)
  {
    var x := IntToString(n);
    assert pre + x + post == pre + (x + post);
    DropIntSpacePadded(pre, x + post);
    TrimIntSpacePadded(x, post);
    ParseIntRoundTrip(n);
    ParseIntUnpadded(x);
  }

  /** The ASCII separators U+001C to U+001F are whitespace to str.strip()
      but not to int(): in front of a numeral they make int() fail. */
  lemma ParseIntRejectsSeparator(c: char, n: int)
    requires 0x1C <= c as int <= 0x1F
    ensures Strip([c] + IntToString(n)) == IntToString(n)
    ensures ParseInt([c] + IntToString(n)) == None
  {
    var x := IntToString(n);
    var s := [c] + x;
    assert AllSpace([c]) && AllSpace([]);
    StripPadded([c], x, []);
    assert [c] + x + [] == s;
    assert s[0] == c && s[|s| - 1] == x[|x| - 1];
    assert DropIntSpace(s) == s;
    assert TrimIntSpace(s) == s;
  }

  lemma {:induction false} StripSkipsSpace(pre: string, x: string)
    requires AllSpace(pre)
    ensures Strip(pre + x) == Strip(x)
  {
    if |pre| > 0 {
      assert (pre + x)[0] == pre[0] && IsSpace(pre[0]);
      assert Strip(pre + x) == Strip((pre + x)[1..]);
      assert (pre + x)[1..] == pre[1..] + x;
      StripSkipsSpace(pre[1..], x);
    } else {
      assert pre + x == x;
    }
  }

  lemma {:induction false} TrimRightPadded(x: string, post: string)
    requires AllSpace(post) && (|x| == 0 || !IsSpace(x[|x| - 1]))
    ensures TrimRight(x + post) == x
  {
    if |post| > 0 {
      assert (x + post)[..|x + post| - 1] == x + post[..|post| - 1];
      TrimRightPadded(x, post[..|post| - 1]);
    }
  }

  /** Stripping a stripped text padded with whitespace gives the text back. */
  lemma StripPadded(pre: string, w: string, post: string)
    requires AllSpace(pre) && IsStripped(w) && AllSpace(post)
    ensures Strip(pre + w + post) == w
  {
    if |w| == 0 {
      assert pre + w + post == pre + post;
      assert AllSpace(pre + post);
      StripFacts(pre + post);
    } else {
      assert pre + w + post == pre + (w + post);
      StripSkipsSpace(pre, w + post);
      TrimRightPadded(w, post);
    }
  }
}
