/** The C string functions that the proxy uses, on strings without their terminating NUL. */
module CText {
  import opened Common

  predicate StartsWith(s: string, p: string) { p <= s }

  /** `strchr`. */
  function IndexOf(s: string, c: char): (r: Option<nat>)
    ensures r.Some? ==> r.value < |s| && s[r.value] == c && c !in s[..r.value]
    ensures r.None? <==> c !in s
  {
    if s == "" then None
    else if s[0] == c then Some(0)
    else
      match IndexOf(s[1..], c)
      case None => None
      case Some(i) => assert s[..i + 1] == [s[0]] + s[1..][..i]; Some(i + 1)
  }

  /** The two parts of a concatenation. */
  lemma Parts(a: string, b: string)
    ensures (a + b)[..|a|] == a && (a + b)[|a|..] == b && StartsWith(a + b, a)
    ensures a != "" ==> (a + b)[0] == a[0]
    ensures b != "" ==> (a + b)[|a|] == b[0]
  {
  }

  predicate OccursAt(s: string, p: string, i: nat) { i + |p| <= |s| && s[i..i + |p|] == p }

  lemma OccursShift(s: string, p: string, j: nat)
    requires s != "" && j >= 1
    ensures OccursAt(s, p, j) <==> OccursAt(s[1..], p, j - 1)
  {
    if j + |p| <= |s| {
      var a, b := s[j..j + |p|], s[1..][j - 1..j - 1 + |p|];
      assert |a| == |b| && forall k :: 0 <= k < |a| ==> a[k] == s[j + k] == b[k];
      assert a == b;
    }
  }

  /** `strstr`: the first occurrence. */
  function FindSub(s: string, p: string): (r: Option<nat>)
    ensures r.Some? ==> OccursAt(s, p, r.value) && forall j :: 0 <= j < r.value ==> !OccursAt(s, p, j)
    ensures r.None? ==> forall j :: 0 <= j <= |s| ==> !OccursAt(s, p, j)
  {
    if StartsWith(s, p) then assert s[0..|p|] == p; Some(0)
    else
      assert !OccursAt(s, p, 0);
      if s == "" then None
      else
        assert forall j :: 1 <= j <= |s| ==> (OccursAt(s, p, j) <==> OccursAt(s[1..], p, j - 1)) by {
          forall j | 1 <= j <= |s| ensures OccursAt(s, p, j) <==> OccursAt(s[1..], p, j - 1) {
            OccursShift(s, p, j);
          }
        }
        match FindSub(s[1..], p)
        case None => None
        case Some(i) => Some(i + 1)
  }

  /** `isspace`. */
  predicate IsSpace(c: char) { c == ' ' || '\t' <= c <= '\r' }

  /** Tab, line feed, vertical tab, form feed, carriage return and space, of the C locale. */
  lemma SpacesAre(c: char)
    ensures IsSpace(c) <==> c as int in {9, 10, 11, 12, 13, 32}
  {
  }

  predicate Blank(s: string) { forall i :: 0 <= i < |s| ==> IsSpace(s[i]) }

  predicate IsDigit(c: char) { '0' <= c <= '9' }

  function SkipSpace(s: string): (r: string)
    ensures |r| <= |s| && (r == "" || !IsSpace(r[0]))
  {
    if s != "" && IsSpace(s[0]) then SkipSpace(s[1..]) else s
  }

  /** The length of the run of characters that are not space. */
  function TokenLen(s: string): (n: nat)
    ensures n <= |s| && (forall i :: 0 <= i < n ==> !IsSpace(s[i])) && (n < |s| ==> IsSpace(s[n]))
  {
    if s == "" || IsSpace(s[0]) then 0 else 1 + TokenLen(s[1..])
  }

  predicate IsToken(s: string) { s != "" && forall i :: 0 <= i < |s| ==> !IsSpace(s[i]) }

  lemma TokenThenSpace(t: string, rest: string)
    requires IsToken(t) && (rest == "" || IsSpace(rest[0]))
    ensures TokenLen(t + rest) == |t| && SkipSpace(t + rest) == t + rest
  {
    var s := t + rest;
    assert forall i :: 0 <= i < |t| ==> s[i] == t[i];
    assert rest != "" ==> s[|t|] == rest[0];
    assert s[0] == t[0];
  }

  // ---- decimal numbers

  function DigitChar(d: nat): char
    requires d < 10
  {
    "0123456789"[d]
  }

  function Decimal(n: nat): (s: string)
    ensures s != "" && forall i :: 0 <= i < |s| ==> IsDigit(s[i])
  {
    if n < 10 then [DigitChar(n)] else Decimal(n / 10) + [DigitChar(n % 10)]
  }

  /** `printf("%d")`. */
  function IntText(n: int): (s: string)
    ensures IsToken(s)
    ensures forall i :: 0 <= i < |s| ==> IsDigit(s[i]) || s[i] == '-'
  {
    if n < 0 then "-" + Decimal(-n) else Decimal(n)
  }

  function DigitsLen(s: string): (n: nat)
    ensures n <= |s| && (forall i :: 0 <= i < n ==> IsDigit(s[i])) && (n < |s| ==> !IsDigit(s[n]))
  {
    if s == "" || !IsDigit(s[0]) then 0 else 1 + DigitsLen(s[1..])
  }

  function DigitNumber(c: char): nat
    requires IsDigit(c)
  {
    c as int - '0' as int
  }

  function DecimalValue(s: string): nat
    requires forall i :: 0 <= i < |s| ==> IsDigit(s[i])
  {
    if s == "" then 0 else 10 * DecimalValue(s[..|s| - 1]) + DigitNumber(s[|s| - 1])
  }

  function ScanDigits(s: string, neg: bool): Option<(int, string)>
  {
    var k := DigitsLen(s);
    if k == 0 then None
    else Some((if neg then -(DecimalValue(s[..k]) as int) else DecimalValue(s[..k]), s[k..]))
  }

  /** `%d` of `scanf`: an optional sign and at least one digit, after any space. */
  function ScanInt(s: string): Option<(int, string)>
  {
    var t := SkipSpace(s);
    if t != "" && (t[0] == '-' || t[0] == '+') then ScanDigits(t[1..], t[0] == '-') else ScanDigits(t, false)
  }

  /** `atoi`: 0 when there is no number. */
  function Atoi(s: string): int
  {
    match ScanInt(s)
    case None => 0
    case Some((n, _)) => n
  }

  lemma {:induction false} SkipBlank(b: string, s: string)
    requires Blank(b) && (s == "" || !IsSpace(s[0]))
    ensures SkipSpace(b + s) == s
    decreases |b|
  {
    if b == "" {
      assert b + s == s;
    } else {
      assert (b + s)[0] == b[0] && (b + s)[1..] == b[1..] + s;
      SkipBlank(b[1..], s);
    }
  }

  lemma ScanDigitsExactly(digits: string, rest: string, neg: bool)
    requires (forall i :: 0 <= i < |digits| ==> IsDigit(digits[i])) && (rest == "" || !IsDigit(rest[0]))
    ensures ScanDigits(digits + rest, neg) ==
            if digits == "" then None
            else Some((if neg then -(DecimalValue(digits) as int) else DecimalValue(digits), rest))
  {
    DigitsThen(digits, rest);
    Parts(digits, rest);
    hide DecimalValue, DigitsLen;
  }

  lemma SignScans(blanks: string, sign: string, number: string)
    requires Blank(blanks) && sign in {"", "+", "-"}
    requires sign == "" && number != "" ==> !IsSpace(number[0]) && number[0] != '+' && number[0] != '-'
    ensures ScanInt(blanks + (sign + number)) == ScanDigits(number, sign == "-")
  {
    var text := sign + number;
    assert sign == "" ==> text == number;
    assert sign != "" ==> text[0] == sign[0] && text[1..] == number;
    SkipBlank(blanks, text);
    hide SkipSpace, ScanDigits;
  }

  /** `atoi` skips blanks and one sign, and takes the digits that follow; 0 when there are none. */
  lemma AtoiExactly(blanks: string, sign: string, digits: string, rest: string)
    requires Blank(blanks) && sign in {"", "+", "-"} && (forall i :: 0 <= i < |digits| ==> IsDigit(digits[i]))
    requires rest == "" || !IsDigit(rest[0])
    requires sign == "" && digits == "" && rest != "" ==> !IsSpace(rest[0]) && rest[0] != '+' && rest[0] != '-'
    ensures Atoi(blanks + (sign + (digits + rest))) ==
            if digits == "" then 0 else if sign == "-" then -(DecimalValue(digits) as int) else DecimalValue(digits)
  {
    var number := digits + rest;
    assert if digits == "" then number == rest else number[0] == digits[0] && IsDigit(digits[0]);
    ScanDigitsExactly(digits, rest, sign == "-");
    hide ScanDigits, ScanInt, DecimalValue;
    SignScans(blanks, sign, number);
  }

  lemma {:induction false} DecimalRoundTrip(n: nat)
    ensures DecimalValue(Decimal(n)) == n
  {
    var s := Decimal(n);
    if n < 10 {
      assert s[..|s| - 1] == "";
    } else {
      DecimalRoundTrip(n / 10);
      assert s[..|s| - 1] == Decimal(n / 10) && s[|s| - 1] == DigitChar(n % 10);
    }
  }

  lemma DigitsThen(d: string, rest: string)
    requires (forall i :: 0 <= i < |d| ==> IsDigit(d[i])) && (rest == "" || !IsDigit(rest[0]))
    ensures DigitsLen(d + rest) == |d|
  {
    var s := d + rest;
    assert forall i :: 0 <= i < |d| ==> s[i] == d[i];
    assert rest != "" ==> s[|d|] == rest[0];
  }

  lemma PlainScan(s: string)
    requires s != "" && IsDigit(s[0])
    ensures ScanInt(s) == ScanDigits(s, false) && ScanInt("-" + s) == ScanDigits(s, true)
  {
    Parts("-", s);
    assert SkipSpace(s) == s;
    assert SkipSpace("-" + s) == "-" + s;
    hide ScanDigits, SkipSpace;
  }

  /** A printed number scans back. */
  lemma IntRoundTrip(n: int, rest: string)
    requires rest == "" || !IsDigit(rest[0])
    ensures ScanInt(IntText(n) + rest) == Some((n, rest))
  {
    var d := Decimal(if n < 0 then -n else n);
    DecimalRoundTrip(if n < 0 then -n else n);
    ScanDigitsExactly(d, rest, n < 0);
    Parts(d, rest);
    assert IsDigit((d + rest)[0]);
    PlainScan(d + rest);
    assert IntText(n) == if n < 0 then "-" + d else d;
    Assoc("-", d, rest);
    hide *;
  }

  function Pow10(k: nat): (p: nat)
    ensures p >= 1
  {
    if k == 0 then 1 else 10 * Pow10(k - 1)
  }

  lemma {:induction false} DecimalLength(n: nat, k: nat)
    requires k >= 1 && n < Pow10(k)
    ensures |Decimal(n)| <= k
  {
    if n >= 10 {
      assert k > 1 by { assert Pow10(1) == 10 * Pow10(0); }
      DecimalLength(n / 10, k - 1);
    }
  }

  // ---- case

  function LowerChar(c: char): char
  {
    if 'A' <= c <= 'Z' then (c as int + 32) as char else c
  }

  function Lower(s: string): (r: string)
    ensures |r| == |s|
  {
    seq(|s|, i requires 0 <= i < |s| => LowerChar(s[i]))
  }

  /** `stricmp(a, b) == 0`. */
  predicate SameIgnoringCase(a: string, b: string) { Lower(a) == Lower(b) }

  /** The same letter in upper or lower case, or the same character. */
  predicate SameLetter(x: char, y: char)
  {
    || x == y || (65 <= x as int <= 90 && y as int == x as int + 32)
    || (65 <= y as int <= 90 && x as int == y as int + 32)
  }

  lemma SameIgnoringCaseMeans(a: string, b: string)
    ensures SameIgnoringCase(a, b) <==> |a| == |b| && forall i :: 0 <= i < |a| ==> SameLetter(a[i], b[i])
  {
    if SameIgnoringCase(a, b) {
      assert |Lower(a)| == |Lower(b)|;
      forall i | 0 <= i < |a| ensures SameLetter(a[i], b[i]) {
        assert Lower(a)[i] == Lower(b)[i];
      }
    }
  }

  /** `strncpy` into a zeroed field of `n + 1` bytes. */
  function Truncate(s: string, n: nat): (r: string)
    ensures |r| <= n && r <= s
  {
    if |s| <= n then s else s[..n]
  }

  /** What a C function sees of a buffer: everything before the first NUL. */
  function CStr(s: string): (r: string)
    ensures r <= s && '\0' !in r
  {
    match IndexOf(s, '\0')
    case None => s
    case Some(i) => s[..i]
  }
}
