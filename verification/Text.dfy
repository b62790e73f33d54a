/** Number texts and C string scanning shared by the logger and the router. */
module Text {
  /** The longest path that the logger handles. */
  const MAXLEN_PATH := 1024

  /** The value of a digit character, -1 for every other character. */
  function DigitValue(c: char): (d: int)
    ensures -1 <= d < 16
  {
    if '0' <= c <= '9' then c as int - '0' as int
    else if 'a' <= c <= 'f' then c as int - 'a' as int + 10
    else -1
  }

  function DigitChar(d: nat): (c: char)
    requires d < 16
    ensures DigitValue(c) == d
  {
    if d < 10 then '0' + d as char else 'a' + (d - 10) as char
  }

  lemma DigitChars(d: nat)
    requires d < 16
    ensures DigitChar(d) == "0123456789abcdef"[d]
  {
  }

  predicate IsDigit(c: char, base: nat) {
    0 <= DigitValue(c) < base
  }

  predicate AllDigits(s: string, base: nat) {
    forall i :: 0 <= i < |s| ==> IsDigit(s[i], base)
  }

  /** The shortest text of v in the given base: no leading zero except for 0 itself. */
  function Digits(v: nat, base: nat): (s: string)
    requires 2 <= base <= 16
    ensures 0 < |s|
    ensures AllDigits(s, base)
    decreases v
  {
    if v < base then [DigitChar(v)]
    else
      DivisionShrinks(v, base);
      Digits(v / base, base) + [DigitChar(v % base)]
  }

  lemma DivisionShrinks(v: nat, base: nat)
    requires 2 <= base
    ensures v == (v / base) * base + v % base
    ensures 0 <= v % base < base
    ensures base <= v ==> 0 <= v / base < v
  {
    var q := v / base;
    if base <= v {
      assert q * base >= 2 * q by { ScaleAtLeast(q, 2, base); }
    }
  }

  lemma ScaleAtLeast(q: nat, a: nat, b: nat)
    requires a <= b
    ensures q * a <= q * b
  {
  }

  /** The number that a digit text denotes. */
  function Value(s: string, base: nat): (v: nat)
    requires AllDigits(s, base)
  {
    if s == "" then 0 else Value(s[..|s| - 1], base) * base + DigitValue(s[|s| - 1])
  }

  function Power(base: nat, n: nat): (p: nat) {
    if n == 0 then 1 else base * Power(base, n - 1)
  }

  function Repeat(c: char, n: nat): (s: string)
    ensures |s| == n
    ensures forall i :: 0 <= i < n ==> s[i] == c
  {
    seq(n, _ => c)
  }

  function Concat(texts: seq<string>): (r: string) {
    if texts == [] then "" else texts[0] + Concat(texts[1..])
  }

  /** printf's %0*d and %*d paddings. */
  function PadLeft(c: char, s: string, width: nat): (r: string)
    ensures |r| == if |s| < width then width else |s|
  {
    if |s| < width then Repeat(c, width - |s|) + s else s
  }

  function ZeroPad(s: string, width: nat): (r: string) {
    PadLeft('0', s, width)
  }

  lemma {:induction false} DigitsDenote(v: nat, base: nat)
    requires 2 <= base <= 16
    ensures Value(Digits(v, base), base) == v
  {
    if v >= base {
      var s := Digits(v / base, base);
      DivisionShrinks(v, base);
      DigitsDenote(v / base, base);
      assert Digits(v, base) == s + [DigitChar(v % base)];
      assert Digits(v, base)[..|s|] == s;
    } else {
      assert Digits(v, base)[..0] == "";
    }
  }

  /** A value needs at most n digits exactly when it is below base to the n. */
  lemma {:induction false} DigitsLength(v: nat, base: nat, n: nat)
    requires 2 <= base <= 16 && 0 < n
    ensures |Digits(v, base)| <= n <==> v < Power(base, n)
    decreases n
  {
    var p := Power(base, n - 1);
    assert Power(base, n) == base * p;
    PowerPositive(base, n - 1);
    if n == 1 {
    } else if v >= base {
      DigitsLength(v / base, base, n - 1);
      DivBound(v, base, p);
    } else {
      PowerPositive(base, n - 2);
      assert p == base * Power(base, n - 2) && base <= p;
      assert base * p >= base by { MulAtLeast(base, p); }
    }
  }

  lemma {:induction false} PowerPositive(base: nat, n: nat)
    requires 0 < base
    ensures 1 <= Power(base, n)
    ensures 0 < n ==> base <= Power(base, n)
  {
    if n > 0 {
      PowerPositive(base, n - 1);
      MulAtLeast(base, Power(base, n - 1));
    }
  }

  lemma MulAtLeast(a: nat, b: nat)
    requires 1 <= b
    ensures a <= a * b
  {
    assert a * b == a + a * (b - 1);
  }

  lemma DivBound(v: nat, base: nat, p: nat)
    requires 2 <= base
    ensures v / base < p <==> v < base * p
  {
    var q := v / base;
    DivisionShrinks(v, base);
    if q < p {
      ScaleAtLeast(base, q + 1, p);
    } else {
      ScaleAtLeast(base, p, q);
    }
  }

  lemma {:induction false} ValueAppend(s: string, t: string, base: nat)
    requires AllDigits(s, base) && AllDigits(t, base)
    ensures AllDigits(s + t, base)
    ensures Value(s + t, base) == Value(s, base) * Power(base, |t|) + Value(t, base)
  {
    if t == "" {
      assert s + t == s;
    } else {
      var t' := t[..|t| - 1];
      ValueAppend(s, t', base);
      assert (s + t)[..|s + t| - 1] == s + t';
      Distribute(Value(s, base), Power(base, |t'|), Value(t', base), base);
    }
  }

  lemma Distribute(a: nat, p: nat, b: nat, base: nat)
    ensures (a * p + b) * base == a * (base * p) + b * base
  {
  }

  lemma {:induction false} ZerosDenoteZero(n: nat, base: nat)
    requires 2 <= base
    ensures AllDigits(Repeat('0', n), base) && Value(Repeat('0', n), base) == 0
  {
    if n > 0 {
      ZerosDenoteZero(n - 1, base);
      assert Repeat('0', n)[..n - 1] == Repeat('0', n - 1);
    }
  }

  /** Zero padding keeps the value, so a padded number still denotes its input. */
  lemma ZeroPadDenotes(v: nat, base: nat, width: nat)
    requires 2 <= base <= 16
    ensures AllDigits(ZeroPad(Digits(v, base), width), base)
    ensures Value(ZeroPad(Digits(v, base), width), base) == v
  {
    var s := Digits(v, base);
    DigitsDenote(v, base);
    if |s| < width {
      ZerosDenoteZero(width - |s|, base);
      ValueAppend(Repeat('0', width - |s|), s, base);
    }
  }

  lemma ZeroPadInjective(v: nat, w: nat, base: nat, width: nat)
    requires 2 <= base <= 16
    requires ZeroPad(Digits(v, base), width) == ZeroPad(Digits(w, base), width)
    ensures v == w
  {
    ZeroPadDenotes(v, base, width);
    ZeroPadDenotes(w, base, width);
  }

  // ---------------------------------------------------------------- scanning

  /** The length of the leading run of decimal digits. */
  function LeadingDigits(s: string): (n: nat)
    ensures n <= |s| && AllDigits(s[..n], 10)
  {
    if s == "" || !IsDigit(s[0], 10) then 0
    else
      var n := LeadingDigits(s[1..]);
      assert forall i :: 0 < i <= n ==> s[i] == s[1..][..n][i - 1];
      1 + n
  }

  lemma {:induction false} LeadingDigitsOf(s: string, t: string)
    requires AllDigits(s, 10) && (t == "" || !IsDigit(t[0], 10))
    ensures LeadingDigits(s + t) == |s|
  {
    if s == "" {
      assert s + t == t;
    } else {
      LeadingDigitsOf(s[1..], t);
      assert (s + t)[1..] == s[1..] + t;
    }
  }

  predicate IsSpace(c: char) {
    c == ' ' || '\t' <= c <= '\r'
  }

  function LeadingSpaces(s: string): (n: nat)
    ensures n <= |s|
  {
    if s == "" || !IsSpace(s[0]) then 0 else 1 + LeadingSpaces(s[1..])
  }

  lemma {:induction false} LeadingSpacesOf(n: nat, s: string)
    requires s == "" || !IsSpace(s[0])
    ensures LeadingSpaces(Repeat(' ', n) + s) == n
  {
    if n == 0 {
      assert Repeat(' ', 0) + s == s;
    } else {
      LeadingSpacesOf(n - 1, s);
      assert (Repeat(' ', n) + s)[1..] == Repeat(' ', n - 1) + s;
    }
  }

  /** A scanned number and how many characters it took; nothing scanned is 0 and 0. */
  datatype Scanned = Scanned(value: int, length: nat)

  /** An optional sign and digits. */
  function ScanNumber(s: string): (r: Scanned)
    ensures r.length <= |s|
  {
    var sign := if s != "" && (s[0] == '-' || s[0] == '+') then 1 else 0;
    var t := s[sign..];
    var digits := LeadingDigits(t);
    if digits == 0 then Scanned(0, 0)
    else
      var v: int := Value(t[..digits], 10);
      Scanned(if sign == 1 && s[0] == '-' then -v else v, sign + digits)
  }

  /** sscanf's %d%n, and atoi by its value: spaces in front of the number are skipped. */
  function ScanInt(s: string): (r: Scanned)
    ensures r.length <= |s|
  {
    var spaces := LeadingSpaces(s);
    Behind(spaces, ScanNumber(s[spaces..]))
  }

  function Behind(spaces: nat, number: Scanned): (r: Scanned) {
    if number.length == 0 then Scanned(0, 0) else Scanned(number.value, spaces + number.length)
  }

  lemma ScanNumberOf(number: string, rest: string)
    requires number != "" && AllDigits(number, 10) && (rest == "" || !IsDigit(rest[0], 10))
    ensures ScanNumber(number + rest) == Scanned(Value(number, 10), |number|)
  {
    var t := number + rest;
    assert IsDigit(number[0], 10) && t[0] == number[0];
    LeadingDigitsOf(number, rest);
    assert t[0..] == t && t[..|number|] == number;
  }

  lemma ScanIntPlain(number: string, rest: string)
    requires number != "" && AllDigits(number, 10) && (rest == "" || !IsDigit(rest[0], 10))
    ensures ScanInt(number + rest) == Scanned(Value(number, 10), |number|)
  {
    NotASpace(number, rest);
    ScanNumberOf(number, rest);
    assert (number + rest)[0..] == number + rest;
  }

  lemma NotASpace(number: string, rest: string)
    requires number != "" && AllDigits(number, 10)
    ensures LeadingSpaces(number + rest) == 0
  {
    assert IsDigit(number[0], 10) && (number + rest)[0] == number[0];
  }

  /** A space-padded unsigned number followed by no further digit scans as that number. */
  lemma ScanIntOf(s: string, pad: nat, number: string, rest: string)
    requires s == Repeat(' ', pad) + (number + rest)
    requires number != "" && AllDigits(number, 10) && (rest == "" || !IsDigit(rest[0], 10))
    ensures ScanInt(s) == Scanned(Value(number, 10), pad + |number|)
  {
    assert IsDigit(number[0], 10) && (number + rest)[0] == number[0];
    LeadingSpacesOf(pad, number + rest);
    assert s[pad..] == number + rest;
    ScanNumberOf(number, rest);
  }

  lemma ScanNumberNegative(number: string, rest: string)
    requires number != "" && AllDigits(number, 10) && (rest == "" || !IsDigit(rest[0], 10))
    ensures ScanNumber("-" + (number + rest)) == Scanned(-(Value(number, 10) as int), |number| + 1)
  {
    var s := "-" + (number + rest);
    assert s[1..] == number + rest;
    LeadingDigitsOf(number, rest);
    assert (number + rest)[..|number|] == number;
  }

  lemma ScanIntNegative(number: string, rest: string)
    requires number != "" && AllDigits(number, 10) && (rest == "" || !IsDigit(rest[0], 10))
    ensures ScanInt("-" + (number + rest)) == Scanned(-(Value(number, 10) as int), |number| + 1)
  {
    var s := "-" + (number + rest);
    ScanNumberNegative(number, rest);
    MinusIsNoSpace(number + rest);
    assert s[0..] == s;
  }

  lemma MinusIsNoSpace(t: string)
    ensures LeadingSpaces("-" + t) == 0
  {
  }
}
