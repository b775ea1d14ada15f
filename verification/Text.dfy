/** Splitting, decimal printing and the scanning of formatted numbers. Text is a string of bytes. */
module Text {
  import opened Options
  import opened Sequences

  /** The pieces between occurrences of c: always one more than there are occurrences. */
  function Split(s: string, c: char): (parts: seq<string>)
    ensures |parts| > 0
    decreases |s|
  {
    var i := Position(s, c);
    if i == |s| then [s] else [s[..i]] + Split(s[i + 1..], c)
  }

  lemma PositionAfter(a: string, c: char, rest: string)
    requires c !in a
    ensures Position(a + [c] + rest, c) == |a|
  {
    var s := a + [c] + rest;
    assert s[|a|] == c && forall j | 0 <= j < |a| :: s[j] == a[j] && a[j] in a;
  }

  /** A piece without the separator, then the separator, splits off exactly that piece. */
  lemma SplitStep(a: string, c: char, rest: string)
    requires c !in a
    ensures Split(a + [c] + rest, c) == [a] + Split(rest, c)
  {
    PositionAfter(a, c, rest);
    var s := a + [c] + rest;
    assert s[..|a|] == a && s[|a| + 1..] == rest;
  }

  lemma SplitLast(a: string, c: char)
    requires c !in a
    ensures Split(a, c) == [a]
  {
  }

  // ---- Decimal numbers ----

  function Digit(d: nat): char
    requires d < 10
  {
    ('0' as int + d) as char
  }

  predicate IsDigit(c: char) {
    '0' <= c <= '9'
  }

  function DigitValue(c: char): nat
    requires IsDigit(c)
  {
    c as int - '0' as int
  }

  predicate AllDigits(s: string) {
    forall c | c in s :: IsDigit(c)
  }

  function Print(n: nat): (s: string)
    ensures |s| > 0 && AllDigits(s)
  {
    if n < 10 then [Digit(n)] else Print(n / 10) + [Digit(n % 10)]
  }

  function Number(s: string): nat
    requires AllDigits(s)
  {
    if |s| == 0 then 0 else Number(s[..|s| - 1]) * 10 + DigitValue(s[|s| - 1])
  }

  lemma {:induction false} NumberOfPrint(n: nat)
    ensures Number(Print(n)) == n
  {
    if n >= 10 {
      NumberOfPrint(n / 10);
      assert Print(n)[..|Print(n)| - 1] == Print(n / 10);
    } else {
      assert Print(n)[..0] == "";
    }
  }

  /** How many digits the text starts with. */
  function DigitRun(s: string): (k: nat)
    ensures k <= |s| && AllDigits(s[..k])
    ensures k < |s| ==> !IsDigit(s[k])
  {
    if |s| == 0 || !IsDigit(s[0]) then 0
    else
      var k := DigitRun(s[1..]);
      assert s[..k + 1] == [s[0]] + s[1..][..k];
      k + 1
  }

  predicate IsBlank(c: char) {
    c == ' ' || c == '\t' || c == '\r' || c == 11 as char || c == 12 as char
  }

  function SkipBlanks(s: string): string {
    if |s| > 0 && IsBlank(s[0]) then SkipBlanks(s[1..]) else s
  }

  /** Scans an unsigned number of at most max: the number and what follows it. */
  function ScanUint(text: string, max: nat): Option<(nat, string)> {
    var s := SkipBlanks(text);
    var k := DigitRun(s);
    if k == 0 || Number(s[..k]) > max then None else Some((Number(s[..k]), s[k..]))
  }

  const MAX_INT := 0x7fff_ffff_ffff_ffff

  /** Scans a signed 64-bit number. */
  function ScanInt(text: string): Option<(int, string)> {
    ScanSigned(SkipBlanks(text))
  }

  function ScanSigned(s: string): Option<(int, string)> {
    if |s| > 0 && (s[0] == '+' || s[0] == '-') then ScanDigits(s[1..], s[0] == '-') else ScanDigits(s, false)
  }

  function ScanDigits(s: string, negative: bool): Option<(int, string)> {
    var k := DigitRun(s);
    if k == 0 then None
    else
      var n: int := Number(s[..k]);
      if n > (if negative then MAX_INT + 1 else MAX_INT) then None else Some((if negative then -n else n, s[k..]))
  }

  /** Scans literal text. */
  function Expect(text: string, literal: string): Option<string> {
    if literal <= text then Some(text[|literal|..]) else None
  }

  lemma {:induction false} DigitRunOf(a: string, rest: string)
    requires AllDigits(a) && (|rest| > 0 ==> !IsDigit(rest[0]))
    ensures DigitRun(a + rest) == |a|
  {
    if |a| == 0 {
      assert a + rest == rest;
    } else {
      assert a[0] in a && (a + rest)[1..] == a[1..] + rest;
      assert forall c | c in a[1..] :: c in a;
      DigitRunOf(a[1..], rest);
    }
  }

  lemma PrintStartsWithDigit(n: nat, rest: string)
    ensures var s := Print(n) + rest; |s| > 0 && IsDigit(s[0]) && SkipBlanks(s) == s
  {
  }

  /** A printed number, followed by anything that is not a digit, scans back to itself. */
  lemma ScanPrinted(n: nat, rest: string, max: nat)
    requires |rest| > 0 ==> !IsDigit(rest[0])
    ensures ScanUint(Print(n) + rest, max) == if n <= max then Some((n, rest)) else None
    ensures ScanInt(Print(n) + rest) == if n < 9223372036854775808 then Some((n, rest)) else None
  {
    var s := Print(n) + rest;
    PrintStartsWithDigit(n, rest);
    DigitRunOf(Print(n), rest);
    NumberOfPrint(n);
    assert s[..|Print(n)|] == Print(n) && s[|Print(n)|..] == rest;
  }

  lemma ExpectPrefix(literal: string, rest: string)
    ensures Expect(literal + rest, literal) == Some(rest)
    ensures forall text :: Expect(text, literal) == Some(rest) ==> text == literal + rest
  {
  }

  /** Blanks, a sign or none, digits, and something that is no digit or nothing. */
  predicate Numeral(text: string, blanks: string, sign: string, digits: string, rest: string) {
    && text == blanks + (sign + (digits + rest))
    && (forall c | c in blanks :: c == ' ' || c == '\t' || c == '\r' || c == 11 as char || c == 12 as char)
    && (sign == "" || sign == "+" || sign == "-")
    && |digits| > 0 && (forall c | c in digits :: '0' <= c <= '9')
    && (|rest| > 0 ==> !('0' <= rest[0] <= '9'))
  }

  lemma {:induction false} SkipsBlanks(blanks: string, s: string)
    requires (forall c | c in blanks :: IsBlank(c)) && (|s| > 0 ==> !IsBlank(s[0]))
    ensures SkipBlanks(blanks + s) == s
  {
    if |blanks| == 0 {
      assert blanks + s == s;
    } else {
      assert blanks[0] in blanks && (blanks + s)[1..] == blanks[1..] + s;
      SkipsBlanks(blanks[1..], s);
    }
  }

  /** The value of a signed numeral, if it fits 64 bits. */
  function SignedValue(sign: string, digits: string): Option<int>
    requires AllDigits(digits)
  {
    var n: int := Number(digits);
    if sign == "-" then (if n <= 9223372036854775808 then Some(-n) else None)
    else if n < 9223372036854775808 then Some(n) else None
  }

  lemma DigitsScan(sign: string, digits: string, rest: string)
    requires |digits| > 0 && AllDigits(digits) && (|rest| > 0 ==> !IsDigit(rest[0]))
    ensures ScanDigits(digits + rest, sign == "-") ==
            match SignedValue(sign, digits) case Some(v) => Some((v, rest)) case None => None
  {
    DigitRunOf(digits, rest);
    assert (digits + rest)[..|digits|] == digits && (digits + rest)[|digits|..] == rest;
  }

  lemma SignScans(sign: string, tail: string)
    requires sign == "" || sign == "+" || sign == "-"
    requires |tail| > 0 && IsDigit(tail[0])
    ensures ScanSigned(sign + tail) == ScanDigits(tail, sign == "-")
    ensures |sign + tail| > 0 && !IsBlank((sign + tail)[0])
  {
    if sign == "" { assert sign + tail == tail; } else { assert (sign + tail)[1..] == tail; }
  }

  /** A numeral scans to its value and what follows it, if the value fits 64 bits. */
  lemma ScanNumeral(text: string, blanks: string, sign: string, digits: string, rest: string)
    requires Numeral(text, blanks, sign, digits, rest)
    ensures ScanInt(text) == match SignedValue(sign, digits) case Some(v) => Some((v, rest)) case None => None
  {
    assert digits[0] in digits && (digits + rest)[0] == digits[0];
    DigitsScan(sign, digits, rest);
    SignScans(sign, digits + rest);
    SkipsBlanks(blanks, sign + (digits + rest));
  }

  lemma {:induction false} SkippedBlanks(text: string) returns (blanks: string)
    ensures text == blanks + SkipBlanks(text) && forall c | c in blanks :: IsBlank(c)
  {
    if |text| > 0 && IsBlank(text[0]) {
      blanks := SkippedBlanks(text[1..]);
      blanks := [text[0]] + blanks;
    } else {
      blanks := "";
    }
  }

  /** The same without a sign, up to the largest number of the type scanned for. */
  lemma ScanUintIff(text: string, max: nat, blanks: string, digits: string, rest: string)
    requires Numeral(text, blanks, "", digits, rest)
    ensures ScanUint(text, max) == if Number(digits) <= max then Some((Number(digits), rest)) else None
  {
    assert digits[0] in digits && (digits + rest)[0] == digits[0] && "" + (digits + rest) == digits + rest;
    DigitRunOf(digits, rest);
    assert (digits + rest)[..|digits|] == digits && (digits + rest)[|digits|..] == rest;
    SkipsBlanks(blanks, digits + rest);
  }

  lemma ScannedDigits(s: string, negative: bool) returns (digits: string, rest: string)
    requires ScanDigits(s, negative).Some?
    ensures s == digits + rest && |digits| > 0 && AllDigits(digits) && (|rest| > 0 ==> !IsDigit(rest[0]))
  {
    var k := DigitRun(s);
    digits, rest := s[..k], s[k..];
  }

  /** Nothing else scans. */
  lemma ScannedNumeral(text: string) returns (blanks: string, sign: string, digits: string, rest: string)
    requires ScanInt(text).Some?
    ensures Numeral(text, blanks, sign, digits, rest)
  {
    blanks := SkippedBlanks(text);
    var s := SkipBlanks(text);
    if |s| > 0 && (s[0] == '+' || s[0] == '-') {
      sign := [s[0]];
      digits, rest := ScannedDigits(s[1..], s[0] == '-');
      assert s == sign + (digits + rest);
    } else {
      sign := "";
      digits, rest := ScannedDigits(s, false);
      assert s == sign + (digits + rest);
    }
  }

  lemma ScannedUint(text: string, max: nat) returns (blanks: string, digits: string, rest: string)
    requires ScanUint(text, max).Some?
    ensures Numeral(text, blanks, "", digits, rest)
  {
    blanks := SkippedBlanks(text);
    var s := SkipBlanks(text);
    var k := DigitRun(s);
    digits, rest := s[..k], s[k..];
    assert s == digits + rest == "" + (digits + rest);
  }
}
