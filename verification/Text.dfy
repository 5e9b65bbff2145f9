/** Trimming, and decimal numbers as the JavaScript runtime prints and parses them. */
module Text {
  import opened Options

  // ----- White space

  /** The white space and line terminators of ECMA-262, sections 12.2 and 12.3. */
  predicate IsSpace(c: char) {
    '\t' <= c <= '\r' || c == ' ' || c == 0xa0 as char || c == 0x1680 as char
    || 0x2000 as char <= c <= 0x200a as char || c == 0x2028 as char || c == 0x2029 as char
    || c == 0x202f as char || c == 0x205f as char || c == 0x3000 as char || c == 0xfeff as char
  }

  function TrimStart(s: string): (r: string)
    ensures |r| <= |s|
    ensures r != "" ==> !IsSpace(r[0])
    ensures s != "" && !IsSpace(s[0]) ==> r == s
  {
    if s != "" && IsSpace(s[0]) then TrimStart(s[1..]) else s
  }

  function TrimEnd(s: string): (r: string)
    ensures r <= s
    ensures r != "" ==> !IsSpace(r[|r| - 1])
    ensures s != "" && !IsSpace(s[|s| - 1]) ==> r == s
  {
    if s != "" && IsSpace(s[|s| - 1]) then TrimEnd(s[..|s| - 1]) else s
  }

  function Trim(s: string): string {
    TrimEnd(TrimStart(s))
  }

  predicate AllSpace(s: string) {
    forall i :: 0 <= i < |s| ==> IsSpace(s[i])
  }

  /** `text` is `input` without the white space around it. */
  ghost predicate Stripped(text: string, input: string) {
    && (text != "" ==> !IsSpace(text[0]) && !IsSpace(text[|text| - 1]))
    && exists a: string, b: string :: input == a + text + b && AllSpace(a) && AllSpace(b)
  }

  lemma {:induction false} TrimStartKeeps(s: string) returns (a: string)
    ensures s == a + TrimStart(s) && AllSpace(a)
  {
    if s != "" && IsSpace(s[0]) {
      var rest := TrimStartKeeps(s[1..]);
      a := [s[0]] + rest;
      assert s == [s[0]] + s[1..];
    } else {
      a := "";
    }
  }

  lemma {:induction false} TrimEndKeeps(s: string) returns (b: string)
    ensures s == TrimEnd(s) + b && AllSpace(b)
  {
    if s != "" && IsSpace(s[|s| - 1]) {
      var rest := TrimEndKeeps(s[..|s| - 1]);
      b := rest + [s[|s| - 1]];
      assert s == s[..|s| - 1] + [s[|s| - 1]];
    } else {
      b := "";
    }
  }

  /** Trimming removes the white space at both ends and nothing else. */
  lemma TrimStrips(s: string)
    ensures Stripped(Trim(s), s)
    ensures Trim(s) == "" <==> AllSpace(s)
  {
    var a := TrimStartKeeps(s);
    var b := TrimEndKeeps(TrimStart(s));
    assert s == a + Trim(s) + b;
    if Trim(s) != "" {
      assert Trim(s)[0] == TrimStart(s)[0];
      assert s[|a|] == Trim(s)[0];
    }
  }

  /** White space, number by number. */
  lemma SpacesAre(c: char)
    ensures IsSpace(c) <==>
              c as int in {9, 10, 11, 12, 13, 32, 160, 5760, 8232, 8233, 8239, 8287, 12288, 65279}
              || 8192 <= c as int <= 8202
  {
  }

  /** A trimmed text has no white space at either end, so trimming it again changes nothing. */
  lemma TrimTwice(s: string)
    ensures Trim(Trim(s)) == Trim(s)
  {
    if Trim(s) != "" {
      assert Trim(s)[0] == TrimStart(s)[0];
    }
  }

  // ----- Decimal numbers

  const DIGITS := "0123456789"

  /** String(n) */
  function Decimal(n: nat): (s: string)
    ensures s != ""
  {
    if n < 10 then [DIGITS[n]] else Decimal(n / 10) + [DIGITS[n % 10]]
  }

  function DigitValue(c: char): Option<nat> {
    if '0' <= c <= '9' then Some(c as int - '0' as int) else None
  }

  /** The number that a text of digits stands for. */
  function ParseDecimal(s: string): Option<nat> {
    if s == "" then None
    else
      match DigitValue(s[|s| - 1])
      case None => None
      case Some(d) =>
        if |s| == 1 then Some(d)
        else match ParseDecimal(s[..|s| - 1])
          case None => None
          case Some(high) => Some(10 * high + d)
  }

  /** How many digits `s` starts with. */
  function DigitCount(s: string): (n: nat)
    ensures n <= |s|
    ensures forall i :: 0 <= i < n ==> DigitValue(s[i]).Some?
    ensures n < |s| ==> DigitValue(s[n]) == None
  {
    if s != "" && DigitValue(s[0]).Some? then 1 + DigitCount(s[1..]) else 0
  }

  /** The number that the digits at the front stand for; without any, None is NaN. */
  function ReadDigits(s: string): Option<nat> {
    ParseDecimal(s[..DigitCount(s)])
  }

  function ReadSigned(s: string): Option<int> {
    if s != "" && s[0] == '-' then
      match ReadDigits(s[1..])
      case None => None
      case Some(n) => Some(-1 * n)
    else if s != "" && s[0] == '+' then ReadDigits(s[1..])
    else ReadDigits(s)
  }

  /** Number.parseInt(text, 10): leading white space, a sign, and the longest run of digits. */
  function ParseInt(text: string): Option<int> {
    ReadSigned(TrimStart(text))
  }

  /** The ten digits, and a number as its last digit behind the others. */
  lemma DecimalExact(n: nat, d: nat)
    requires d < 10
    ensures Decimal(d) == [(48 + d) as char]
    ensures n > 0 ==> Decimal(10 * n + d) == Decimal(n) + Decimal(d)
  {
  }

  lemma DigitRoundTrip(d: nat)
    requires d < 10
    ensures DigitValue(DIGITS[d]) == Some(d)
  {
  }

  lemma {:induction false} DecimalRoundTrip(n: nat)
    ensures ParseDecimal(Decimal(n)) == Some(n)
    ensures forall i :: 0 <= i < |Decimal(n)| ==> DigitValue(Decimal(n)[i]).Some?
  {
    DigitRoundTrip(n % 10);
    if n >= 10 {
      DecimalRoundTrip(n / 10);
      var s := Decimal(n);
      assert s[..|s| - 1] == Decimal(n / 10);
    }
  }

  lemma DigitIsPlain(c: char)
    requires DigitValue(c).Some?
    ensures !IsSpace(c) && c != '-' && c != '+'
  {
  }

  /** A printed time is read back as the same number. */
  lemma ParseIntReadsDecimal(n: nat)
    ensures ParseInt(Decimal(n)) == Some(n)
  {
    ParseIntReads("", "", n, "");
    assert "" + ("" + (Decimal(n) + "")) == Decimal(n);
  }

  lemma DecimalInjective(i: nat, j: nat)
    requires Decimal(i) == Decimal(j)
    ensures i == j
  {
    DecimalRoundTrip(i);
    DecimalRoundTrip(j);
  }

  lemma {:induction false} DigitsStop(s: string, tail: string)
    requires forall i :: 0 <= i < |s| ==> DigitValue(s[i]).Some?
    requires tail == "" || DigitValue(tail[0]) == None
    ensures DigitCount(s + tail) == |s|
    decreases |s|
  {
    if s == "" {
      assert s + tail == tail;
    } else {
      assert (s + tail)[0] == s[0] && (s + tail)[1..] == s[1..] + tail;
      DigitsStop(s[1..], tail);
    }
  }

  lemma {:induction false} SpaceIsSkipped(space: string, s: string)
    requires AllSpace(space) && (s == "" || !IsSpace(s[0]))
    ensures TrimStart(space + s) == s
    decreases |space|
  {
    if space == "" {
      assert space + s == s;
    } else {
      assert (space + s)[0] == space[0] && (space + s)[1..] == space[1..] + s;
      SpaceIsSkipped(space[1..], s);
    }
  }

  lemma DigitsAreRead(n: nat, tail: string)
    requires tail == "" || DigitValue(tail[0]) == None
    ensures ReadDigits(Decimal(n) + tail) == Some(n)
    ensures !IsSpace((Decimal(n) + tail)[0]) && (Decimal(n) + tail)[0] !in "+-"
  {
    var digits := Decimal(n);
    DecimalRoundTrip(n);
    DigitsStop(digits, tail);
    DigitIsPlain(digits[0]);
    assert (digits + tail)[..|digits|] == digits && (digits + tail)[0] == digits[0];
  }

  lemma SignedIsRead(sign: string, n: nat, tail: string)
    requires sign in {"", "+", "-"} && (tail == "" || DigitValue(tail[0]) == None)
    ensures ReadSigned(sign + (Decimal(n) + tail)) == Some(if sign == "-" then -1 * n else n)
    ensures !IsSpace((sign + (Decimal(n) + tail))[0])
  {
    var number := Decimal(n) + tail;
    DigitsAreRead(n, tail);
    if sign == "" {
      assert sign + number == number;
    } else {
      assert (sign + number)[0] == sign[0] && (sign + number)[1..] == number;
    }
  }

  /** White space before a number, its sign, and whatever is not a digit behind it. */
  lemma ParseIntReads(space: string, sign: string, n: nat, tail: string)
    requires AllSpace(space) && sign in {"", "+", "-"}
    requires tail == "" || DigitValue(tail[0]) == None
    ensures ParseInt(space + (sign + (Decimal(n) + tail))) == Some(if sign == "-" then -1 * n else n)
  {
    SignedIsRead(sign, n, tail);
    SpaceIsSkipped(space, sign + (Decimal(n) + tail));
  }

  /** Without a digit there the text is no number. */
  lemma ParseIntRefuses(space: string, sign: string, tail: string)
    requires AllSpace(space) && sign in {"", "+", "-"}
    requires tail == "" || (DigitValue(tail[0]) == None && !IsSpace(tail[0]) && (sign == "" ==> tail[0] !in "+-"))
    ensures ParseInt(space + (sign + tail)) == None
  {
    assert sign == "" ==> sign + tail == tail;
    assert sign != "" ==> (sign + tail)[0] == sign[0] && (sign + tail)[1..] == tail;
    SpaceIsSkipped(space, sign + tail);
    assert DigitCount(tail) == 0 && tail[..0] == "";
  }
}
