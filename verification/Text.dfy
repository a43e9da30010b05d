/** C text: strings in buffers, decimal numbers, fields and lines. */
module Text {
  const U64_MAX := 0xFFFF_FFFF_FFFF_FFFF
  const I64_MAX := 0x7FFF_FFFF_FFFF_FFFF
  const I64_MIN := -0x8000_0000_0000_0000

  /** The text a buffer holds: its characters up to the first NUL. */
  function TextOf(buffer: seq<char>): (r: string)
    ensures |r| <= |buffer| && r == buffer[..|r|] && '\0' !in r
    ensures |r| < |buffer| ==> buffer[|r|] == '\0'
  {
    if buffer == [] || buffer[0] == '\0' then "" else [buffer[0]] + TextOf(buffer[1..])
  }

  lemma {:induction false} TextOfTerminated(text: string, buffer: seq<char>)
    requires '\0' !in text && |text| < |buffer| && buffer[..|text|] == text && buffer[|text|] == '\0'
    ensures TextOf(buffer) == text
  {
    if text != "" {
      assert buffer[1..][..|text| - 1] == text[1..];
      TextOfTerminated(text[1..], buffer[1..]);
    }
  }

  lemma {:induction false} TextOfAll(text: string)
    requires '\0' !in text
    ensures TextOf(text) == text
  {
    if text != "" { TextOfAll(text[1..]); }
  }

  lemma Assoc(a: string, b: string, c: string)
    ensures a + (b + c) == a + b + c
  {
  }

  // ---- Decimal numbers ----

  const DECIMALS: string := "0123456789"

  predicate IsDigit(c: char) { '0' <= c <= '9' }

  predicate IsSpace(c: char) { c == ' ' || '\t' <= c <= '\r' }

  function DigitValue(c: char): (d: nat)
    requires IsDigit(c)
    ensures d < 10
  {
    c as int - '0' as int
  }

  function Decimal(n: nat): (r: string)
    ensures r != "" && forall i :: 0 <= i < |r| ==> IsDigit(r[i])
  {
    if n < 10 then [DECIMALS[n]] else Decimal(n / 10) + [DECIMALS[n % 10]]
  }

  function SignedDecimal(i: int): string {
    if i < 0 then "-" + Decimal(-i) else Decimal(i)
  }

  function DigitRun(s: string): (n: nat)
    ensures n <= |s| && forall i :: 0 <= i < n ==> IsDigit(s[i])
  {
    if s == "" || !IsDigit(s[0]) then 0 else 1 + DigitRun(s[1..])
  }

  function NatValue(digits: string): nat
    requires forall i :: 0 <= i < |digits| ==> IsDigit(digits[i])
  {
    if digits == "" then 0 else NatValue(digits[..|digits| - 1]) * 10 + DigitValue(digits[|digits| - 1])
  }

  function SkipSpace(s: string): string {
    if s != "" && IsSpace(s[0]) then SkipSpace(s[1..]) else s
  }

  predicate Signed(s: string) { s != "" && (s[0] == '-' || s[0] == '+') }

  /** The number the leading digits spell, behind spaces and a sign; no digits are zero. */
  function Magnitude(s: string): nat {
    var t := SkipSpace(s);
    var u := if Signed(t) then t[1..] else t;
    NatValue(u[..DigitRun(u)])
  }

  predicate Negative(s: string) {
    var t := SkipSpace(s);
    t != "" && t[0] == '-'
  }

  /** strtoull: saturates, and negates modulo 2^64. */
  function ParseU64(s: string): (v: nat)
    ensures v <= U64_MAX
  {
    var m := Magnitude(s);
    if m > U64_MAX then U64_MAX else if Negative(s) && m > 0 then U64_MAX + 1 - m else m
  }

  /** strtoll: saturates at both ends. */
  function ParseI64(s: string): (v: int)
    ensures I64_MIN <= v <= I64_MAX
  {
    var m: int := Magnitude(s);
    if Negative(s) then (if -m < I64_MIN then I64_MIN else -m) else if m > I64_MAX then I64_MAX else m
  }

  lemma {:induction false} DecimalValue(n: nat)
    ensures NatValue(Decimal(n)) == n
  {
    if n >= 10 {
      DecimalValue(n / 10);
      assert Decimal(n)[..|Decimal(n)| - 1] == Decimal(n / 10);
    }
  }

  lemma {:induction false} DigitRunAll(s: string)
    requires forall i :: 0 <= i < |s| ==> IsDigit(s[i])
    ensures DigitRun(s) == |s|
  {
    if s != "" { DigitRunAll(s[1..]); }
  }

  lemma DigitIsPlain(c: char)
    requires IsDigit(c)
    ensures !IsSpace(c) && c != '-' && c != '+'
  {
  }

  lemma DigitsUnsigned(digits: string)
    requires digits != "" && forall i :: 0 <= i < |digits| ==> IsDigit(digits[i])
    ensures Magnitude(digits) == NatValue(digits) && !Negative(digits)
  {
    hide NatValue, IsDigit, IsSpace;
    DigitIsPlain(digits[0]);
    DigitRunAll(digits);
    assert digits[..|digits|] == digits;
  }

  lemma DigitsBehindMinus(digits: string)
    requires forall i :: 0 <= i < |digits| ==> IsDigit(digits[i])
    ensures Magnitude("-" + digits) == NatValue(digits) && Negative("-" + digits)
  {
    hide NatValue, IsDigit;
    var s := "-" + digits;
    assert SkipSpace(s) == s;
    assert s[1..] == digits;
    DigitRunAll(digits);
    assert digits[..|digits|] == digits;
  }

  lemma ParsePrinted(n: nat)
    requires n <= U64_MAX
    ensures ParseU64(Decimal(n)) == n
  {
    hide Decimal, NatValue, Magnitude, Negative;
    DecimalValue(n);
    DigitsUnsigned(Decimal(n));
  }

  lemma ParsePrintedSigned(i: int)
    requires I64_MIN <= i <= I64_MAX
    ensures ParseI64(SignedDecimal(i)) == i
  {
    hide Decimal, NatValue, Magnitude, Negative;
    DecimalValue(if i < 0 then -i else i);
    if i < 0 { DigitsBehindMinus(Decimal(-i)); } else { DigitsUnsigned(Decimal(i)); }
  }

  function Power10(n: nat): nat { if n == 0 then 1 else 10 * Power10(n - 1) }

  lemma {:induction false} DecimalLength(n: nat, k: nat)
    requires k > 0 && n < Power10(k)
    ensures |Decimal(n)| <= k
  {
    if n >= 10 { DecimalLength(n / 10, k - 1); }
  }

  lemma U64Length(n: nat)
    requires n <= U64_MAX
    ensures |Decimal(n)| <= 20
  {
    assert Power10(5) == 10 * 10 * 10 * 10 * 10;
    assert Power10(10) == 10 * 10 * 10 * 10 * 10 * Power10(5);
    assert Power10(15) == 10 * 10 * 10 * 10 * 10 * Power10(10);
    assert Power10(20) == 10 * 10 * 10 * 10 * 10 * Power10(15);
    DecimalLength(n, 20);
  }

  // ---- Fields ----

  /** Where `c` first occurs; the length when it does not. */
  function IndexOf(s: string, c: char): (n: nat)
    ensures n <= |s| && c !in s[..n] && (n < |s| ==> s[n] == c)
  {
    if s == "" || s[0] == c then 0 else 1 + IndexOf(s[1..], c)
  }

  lemma {:induction false} IndexOfAt(front: string, c: char, rest: string)
    requires c !in front && (rest != "" ==> rest[0] == c)
    ensures IndexOf(front + rest, c) == |front|
  {
    if front == "" {
      assert front + rest == rest;
    } else {
      assert (front + rest)[1..] == front[1..] + rest;
      IndexOfAt(front[1..], c, rest);
    }
  }

  lemma {:induction false} IndexAtMost(s: string, c: char, k: nat)
    requires k < |s| && s[k] == c
    ensures IndexOf(s, c) <= k
  {
    if k > 0 { IndexAtMost(s[1..], c, k - 1); }
  }

  lemma {:induction false} IndexAtLeast(s: string, c: char, k: nat)
    requires k <= |s| && c !in s[..k]
    ensures IndexOf(s, c) >= k
  {
    if k > 0 {
      assert s[0] == s[..k][0];
      assert s[..k][1..] == s[1..][..k - 1];
      IndexAtLeast(s[1..], c, k - 1);
    }
  }

  /** How much fgets takes into a buffer: through the line end, but no more than the buffer holds beside the NUL. */
  function Fragment(text: string, capacity: nat): (n: nat)
    requires text != "" && capacity > 1
    ensures 0 < n <= |text| && n < capacity
  {
    var end := IndexOf(text, '\n');
    if end + 1 < capacity && end < |text| then end + 1 else if |text| < capacity then |text| else capacity - 1
  }

  /** What stands behind a line end has no part in how the text before it is taken. */
  lemma FragmentOfFront(front: string, rest: string, capacity: nat)
    requires front != "" && front[|front| - 1] == '\n' && capacity > 1
    ensures Fragment(front + rest, capacity) == Fragment(front, capacity)
  {
    hide IndexOf;
    var end := IndexOf(front, '\n');
    IndexAtMost(front, '\n', |front| - 1);
    assert front == front[..end] + front[end..];
    assert front + rest == front[..end] + (front[end..] + rest);
    IndexOfAt(front[..end], '\n', front[end..] + rest);
  }

  /** What stands before the first tab, and what stands behind it. */
  datatype Fields = OneField | TwoFields(first: string, rest: string)

  function CutAtTab(s: string): Fields {
    var n := IndexOf(s, '\t');
    if n == |s| then OneField else TwoFields(s[..n], s[n + 1..])
  }

  lemma CutExact(first: string, rest: string)
    requires '\t' !in first
    ensures CutAtTab(first + "\t" + rest) == TwoFields(first, rest)
    ensures CutAtTab(first) == OneField
  {
    var s := first + "\t" + rest;
    Assoc(first, "\t", rest);
    IndexOfAt(first, '\t', "\t" + rest);
    IndexOfAt(first, '\t', "");
    assert first + "" == first;
    assert s[..|first|] == first && s[|first| + 1..] == rest;
  }

  lemma CutMeans(s: string)
    ensures CutAtTab(s).OneField? <==> '\t' !in s
    ensures var f := CutAtTab(s); f.TwoFields? ==> s == f.first + "\t" + f.rest && '\t' !in f.first
  {
    var n := IndexOf(s, '\t');
    if n < |s| {
      assert s[n] == '\t';
    } else {
      assert s[..n] == s;
    }
  }

  /** Without its trailing line ends. */
  function Trim(line: string): (r: string)
    ensures |r| <= |line| && r == line[..|r|]
  {
    if line != "" && line[|line| - 1] in {'\n', '\r'} then Trim(line[..|line| - 1]) else line
  }
}
