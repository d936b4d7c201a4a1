/** Printing of numbers and the parser that reads them back. */
module Printf {
  import opened Basics

  const INT_MAX := 0x7fff_ffff

  // ----- numerals --------------------------------------------------------------------------------

  function DigitChar(d: nat): char
    requires d < 16
  {
    if d < 10 then '0' + d as char else 'a' + (d - 10) as char
  }

  function DigitValue(c: char): int {
    if '0' <= c <= '9' then c as int - '0' as int else 10 + c as int - 'a' as int
  }

  /** The digits of n, highest first, at least one. */
  function Numeral(n: nat, base: nat): (s: string)
    requires 2 <= base <= 16
    ensures s != []
    decreases n
  {
    if n < base then [DigitChar(n)] else Numeral(n / base, base) + [DigitChar(n % base)]
  }

  function Value(s: string, base: nat): int {
    if s == [] then 0 else Value(s[..|s| - 1], base) * base + DigitValue(s[|s| - 1])
  }

  predicate IsDigit(c: char, base: nat) {
    ('0' <= c <= '9' && c as int - '0' as int < base) || ('a' <= c <= 'f' && 10 + c as int - 'a' as int < base)
  }

  predicate AllDigits(s: string, base: nat) { forall i | 0 <= i < |s| :: IsDigit(s[i], base) }

  lemma {:induction false} NumeralValue(n: nat, base: nat)
    requires 2 <= base <= 16
    ensures Value(Numeral(n, base), base) == n && AllDigits(Numeral(n, base), base)
    decreases n
  {
    hide DigitChar, DigitValue, IsDigit;
    var s := Numeral(n, base);
    DigitBack(n % base, base);
    NumeralStep(n, base);
    if n < base {
      assert s[..0] == [] && Value([], base) * base == 0;
    } else {
      NumeralValue(n / base, base);
      Division(n, base);
    }
  }

  lemma DigitBack(d: nat, base: nat)
    requires d < base <= 16
    ensures DigitValue(DigitChar(d)) == d && IsDigit(DigitChar(d), base)
  {
  }

  /** The digits in order. */
  lemma DigitText(d: nat)
    requires d < 16
    ensures DigitChar(d) == "0123456789abcdef"[d]
  {
  }

  /** The characters that are read as digits, and their values. */
  lemma DigitLetters(c: char)
    ensures IsDigit(c, 10) <==> exists d :: 0 <= d < 10 && "0123456789"[d] == c
    ensures IsDigit(c, 16) <==> exists d :: 0 <= d < 16 && "0123456789abcdef"[d] == c
    ensures forall d | 0 <= d < 16 && "0123456789abcdef"[d] == c :: DigitValue(c) == d
  {
    if IsDigit(c, 16) {
      assert "0123456789abcdef"[DigitValue(c)] == c;
      if IsDigit(c, 10) {
        assert "0123456789"[DigitValue(c)] == c;
      }
    }
  }

  /** No numeral but that of zero starts with a zero. */
  lemma {:induction false} NoLeadingZero(n: nat, base: nat)
    requires 2 <= base <= 16
    ensures Numeral(n, base)[0] == '0' <==> n == 0
    decreases n
  {
    NumeralStep(n, base);
    if n >= base {
      NoLeadingZero(n / base, base);
    }
  }

  lemma NumeralStep(n: nat, base: nat)
    requires 2 <= base <= 16
    ensures var s := Numeral(n, base);
      && s[|s| - 1] == DigitChar(n % base)
      && (n < base ==> |s| == 1 && n / base == 0 && n % base == n)
      && (n >= base ==> s[..|s| - 1] == Numeral(n / base, base) && 0 < n / base < n)
  {
    hide DigitChar;
    Division(n, base);
  }

  lemma Division(n: nat, base: nat)
    requires 2 <= base
    ensures n == n / base * base + n % base
    ensures if n < base then n / base == 0 && n % base == n else 0 < n / base < n
  {
    var q := n / base;
    assert n == q * base + n % base;
    assert q >= 1 ==> q * base >= base;
    assert q * base >= q * 2;
  }

  function Power8(k: nat): nat { if k == 0 then 1 else 8 * Power8(k - 1) }

  /** A numeral in base 8 or more has at most 11 digits for a 32-bit number. */
  lemma {:induction false} NumeralLength(n: nat, base: nat, k: nat)
    requires 8 <= base <= 16 && k > 0 && n < Power8(k)
    ensures |Numeral(n, base)| <= k
    decreases k
  {
    if n >= base {
      assert n / base <= n / 8 < Power8(k - 1) by { Quotients(n, base); }
      NumeralLength(n / base, base, k - 1);
    }
  }

  lemma Quotients(n: nat, base: nat)
    requires base >= 8
    ensures n / base <= n / 8
  {
    var q := n / base;
    assert q * base <= n;
    assert q * 8 <= q * base;
  }

  lemma WordLength(n: nat, base: nat)
    requires 8 <= base <= 16 && n < 0x1_0000_0000
    ensures |Numeral(n, base)| <= 11
  {
    assert Power8(11) == 8589934592 by {
      assert Power8(4) == 4096;
      assert Power8(8) == 16777216;
    }
    NumeralLength(n, base, 11);
  }

  // ----- printing ----------------------------------------------------------------------------------

  /** The do-while loop that leaves the digits in the buffer, lowest first. */
  method FillBuffer(value0: nat, base: nat, buffer: array<char>) returns (charCount: nat)
    requires 8 <= base <= 16 && value0 < 0x1_0000_0000 && buffer.Length == 20
    modifies buffer
    ensures charCount == |Numeral(value0, base)| <= buffer.Length
    ensures forall i | 0 <= i < charCount :: buffer[i] == Numeral(value0, base)[charCount - 1 - i]
  {
    hide Numeral, DigitChar;
    WordLength(value0, base);
    NumeralStep(value0, base);
    ghost var s := Numeral(value0, base);
    ghost var left := s;
    var value: nat := value0;
    buffer[0] := DigitChar(value % base);
    left := s[..|s| - 1];
    value := value / base;
    charCount := 1;
    while value != 0
      invariant charCount + |left| == |s| && left == s[..|left|]
      invariant value == 0 <==> left == []
      invariant value != 0 ==> left == Numeral(value, base)
      invariant forall i | 0 <= i < charCount :: buffer[i] == s[|s| - 1 - i]
      decreases value
    {
      NumeralStep(value, base);
      buffer[charCount] := DigitChar(value % base);
      left := left[..|left| - 1];
      value := value / base;
      charCount := charCount + 1;
    }
  }

  function Repeat(c: char, n: int): (s: string)
    ensures n <= 0 ==> s == []
    ensures n > 0 ==> |s| == n && forall i | 0 <= i < n :: s[i] == c
  {
    if n <= 0 then [] else seq(n, _ => c)
  }

  /** Pads, then the buffer from its end. */
  method Emit(out0: string, buffer: array<char>, charCount: nat, width: int, pad: char, ghost s: string)
    returns (out: string)
    requires charCount == |s| <= buffer.Length && forall i | 0 <= i < charCount :: buffer[i] == s[charCount - 1 - i]
    ensures out == out0 + Repeat(pad, width - charCount) + s
  {
    out := out0;
    var i := charCount as int;
    while i < width
      invariant i >= charCount && out == out0 + Repeat(pad, i - charCount)
      invariant i <= width || i == charCount
      decreases width - i
    {
      out := out + [pad];
      i := i + 1;
    }
    assert out == out0 + Repeat(pad, width - charCount);
    ghost var before := out;
    var p := charCount;
    while p > 0
      invariant 0 <= p <= charCount && out == before + s[..charCount - p]
    {
      p := p - 1;
      out := out + [buffer[p]];
    }
    assert s[..charCount] == s;
  }

  method PrintUnsigned(value: nat, width: int, pad: char) returns (out: string, charCount: nat)
    requires value < 0x1_0000_0000
    ensures out == Repeat(pad, width - |Numeral(value, 10)|) + Numeral(value, 10) && charCount == |Numeral(value, 10)|
  {
    hide Numeral, Repeat;
    var buffer := new char[20];
    charCount := FillBuffer(value, 10, buffer);
    out := Emit("", buffer, charCount, width, pad, Numeral(value, 10));
    NoPrefix(Repeat(pad, width - charCount));
  }

  lemma NoPrefix(s: string)
    ensures "" + s == s
  {
  }

  /** The text of a signed number: the sign takes one place of the width. */
  function DecimalText(value: int, width: int, pad: char): string {
    if value < 0 then "-" + Repeat(pad, width - 1 - |Numeral(-value, 10)|) + Numeral(-value, 10)
    else Repeat(pad, width - |Numeral(value, 10)|) + Numeral(value, 10)
  }

  /** For every int above the smallest: negating that one overflows. */
  method PrintDecimal(value0: int, width0: int, pad: char) returns (out: string, charCount: nat)
    requires -INT_MAX <= value0 <= INT_MAX
    ensures out == DecimalText(value0, width0, pad)
    ensures charCount == |Numeral(if value0 < 0 then -value0 else value0, 10)| + if value0 < 0 then 1 else 0
  {
    hide Numeral, Repeat;
    var buffer := new char[20];
    var value, width := value0, width0;
    out := "";
    var neg := value < 0;
    if neg {
      value := -value;
      out := "-";
      width := width - 1;
    }
    charCount := FillBuffer(value, 10, buffer);
    out := Emit(out, buffer, charCount, width, pad, Numeral(value, 10));
    NoPrefix(Repeat(pad, width - charCount));
    if neg {
      charCount := charCount + 1;
    }
  }

  /** Bases 8 and 16 print the bit pattern without padding; other bases fail. */
  method PrintInt(value: int, width: int, pad: char, base: int) returns (out: string, charCount: int)
    requires -INT_MAX <= value <= INT_MAX || (value == -0x8000_0000 && base != 10)
    ensures base == 10 ==> out == DecimalText(value, width, pad)
    ensures base == 10 ==> charCount == |Numeral(if value < 0 then -value else value, 10)| + if value < 0 then 1 else 0
    ensures base == 8 || base == 16 ==> out == Numeral(value % 0x1_0000_0000, base) && charCount == |out|
    ensures base != 8 && base != 10 && base != 16 ==> out == "" && charCount == -1
  {
    if base == 10 {
      out, charCount := PrintDecimal(value, width, pad);
      return;
    }
    var buffer := new char[20];
    var uu := value % 0x1_0000_0000;
    out := "";
    if base == 8 || base == 16 {
      var n := FillBuffer(uu, base, buffer);
      out := Emit(out, buffer, n, 0, pad, Numeral(uu, base));
      assert out == Numeral(uu, base);
      charCount := n;
    } else {
      charCount := -1;
    }
  }

  // ----- parsing -------------------------------------------------------------------------------------

  /** The character at position i of a NUL-terminated string. */
  function At(s: string, i: nat): char { if i < |s| then s[i] else '\0' }

  predicate Hexadecimal(s: string, i: nat) { At(s, i) == '0' && At(s, i + 1) == 'x' }

  /** How far the digits reach from position i. */
  function DigitsEnd(s: string, i: nat, base: nat): (j: nat)
    ensures i <= j && (j == i || j <= |s|) && !(j < |s| && IsDigit(s[j], base))
    ensures forall k | i <= k < j :: k < |s| && IsDigit(s[k], base)
    decreases if i < |s| then |s| - i else 0
  {
    if i < |s| && IsDigit(s[i], base) then DigitsEnd(s, i + 1, base) else i
  }

  /** The digits between two positions; none when the string ends first. */
  function Part(s: string, i: nat, j: nat): string
    requires i <= j
  {
    if j <= |s| then s[i..j] else []
  }

  /** parseval: sign, digits in base 10 or 16, and a K or M behind them, all of it
      modulo 2^32. */
  function Parsed(s: string): int {
    var start := if At(s, 0) == '-' then 1 else 0;
    var base := if Hexadecimal(s, start) then 16 else 10;
    var first := if base == 16 then start + 2 else start;
    var end := DigitsEnd(s, first, base);
    var unit := if At(s, end) == 'K' then 1024 else if At(s, end) == 'M' then 1048576 else 1;
    Wrap32(Value(Part(s, first, end), base) * unit * if start == 1 then -1 else 1)
  }

  lemma WrapMul(a: int, k: int, d: int)
    ensures Wrap32(Wrap32(a) * k + d) == Wrap32(a * k + d)
  {
    var q := (Wrap32(a) - a) / 0x1_0000_0000;
    assert Wrap32(a) == a + q * 0x1_0000_0000;
    assert Wrap32(a) * k + d == a * k + d + (q * k) * 0x1_0000_0000;
    WrapShift(a * k + d, q * k);
  }

  lemma WrapShift(x: int, m: int)
    ensures Wrap32(x + m * 0x1_0000_0000) == Wrap32(x)
  {
  }

  /** The digit loops. */
  method ParseDigits(s: string, first: nat, base: nat) returns (retval: int, i: nat)
    ensures i == DigitsEnd(s, first, base) && retval == Wrap32(Value(Part(s, first, i), base))
  {
    hide Wrap32, IsDigit, DigitValue, Value, Part;
    retval, i := 0, first;
    WrapZero();
    NoPart(s, first, base);
    while i < |s| && IsDigit(s[i], base)
      invariant first <= i && (i == first || i <= |s|) && DigitsEnd(s, first, base) == DigitsEnd(s, i, base)
      invariant retval == Wrap32(Value(Part(s, first, i), base))
      decreases |s| - i
    {
      var digit := DigitValue(s[i]);
      ghost var v := Value(Part(s, first, i), base);
      PartStep(s, first, i, base);
      WrapMul(v, base, 0);
      retval := Wrap32(retval * base);
      WrapMul(v * base, 1, digit);
      retval := Wrap32(retval + digit);
      i := i + 1;
    }
  }

  method ParseVal(s: string) returns (retval: int)
    ensures retval == Parsed(s)
  {
    hide Wrap32, DigitsEnd, Value, Part;
    var neg, i := 1, 0;
    if At(s, 0) == '-' {
      neg := -1;
      i := i + 1;
    }
    var base := 10;
    if At(s, i) == '0' && At(s, i + 1) == 'x' {
      base := 16;
      i := i + 2;
    }
    ghost var first := i;
    retval, i := ParseDigits(s, i, base);
    ghost var total := Value(Part(s, first, i), base);
    if At(s, i) == 'K' {
      WrapMul(total, 1024, 0);
      retval := Wrap32(retval * 1024);
      total := total * 1024;
    }
    if At(s, i) == 'M' {
      WrapMul(total, 1048576, 0);
      retval := Wrap32(retval * (1024 * 1024));
      total := total * 1048576;
    }
    WrapMul(total, neg, 0);
    retval := Wrap32(retval * neg);
  }

  lemma NoPart(s: string, i: nat, base: nat)
    ensures Value(Part(s, i, i), base) == 0
  {
  }

  lemma PartStep(s: string, first: nat, i: nat, base: nat)
    requires first <= i < |s|
    ensures Value(Part(s, first, i + 1), base) == Value(Part(s, first, i), base) * base + DigitValue(s[i])
  {
    assert s[first..i + 1][..i - first] == s[first..i];
  }

  lemma WrapZero()
    ensures Wrap32(0) == 0
  {
  }

  // ----- round trips ---------------------------------------------------------------------------------

  lemma {:induction false} LeadingZeros(n: int, s: string, base: nat)
    requires base == 10 && s != [] && AllDigits(s, base)
    ensures var t := Repeat('0', n) + s; Value(t, base) == Value(s, base) && AllDigits(t, base)
    decreases |s|
  {
    hide DigitValue;
    var t := Repeat('0', n) + s;
    assert t[..|t| - 1] == Repeat('0', n) + s[..|s| - 1];
    if |s| == 1 {
      assert s[..0] == [] && Repeat('0', n) + [] == Repeat('0', n);
      ZerosValue(n);
    } else {
      LeadingZeros(n, s[..|s| - 1], base);
    }
  }

  lemma {:induction false} ZerosValue(n: int)
    ensures Value(Repeat('0', n), 10) == 0
    decreases n
  {
    if n > 0 {
      ZerosValue(n - 1);
      assert Repeat('0', n)[..n - 1] == Repeat('0', n - 1);
    }
  }

  /** A run of digits that fills the rest of the string is what gets parsed. */
  lemma {:induction false} DigitsToEnd(s: string, i: nat, base: nat)
    requires i <= |s| && forall k | i <= k < |s| :: IsDigit(s[k], base)
    ensures DigitsEnd(s, i, base) == |s|
    decreases |s| - i
  {
    hide IsDigit;
    if i < |s| {
      DigitsToEnd(s, i + 1, base);
    }
  }

  /** parseval undoes whisperPrintDecimal, for any width padded with zeros. */
  lemma DecimalRoundTrip(value: int, width: int)
    requires -INT_MAX <= value <= INT_MAX
    ensures Parsed(DecimalText(value, width, '0')) == value
  {
    hide Numeral, IsDigit, DigitValue, Value, Parsed, AllDigits;
    var n := if value < 0 then -value else value;
    var pads := width - |Numeral(n, 10)| - if value < 0 then 1 else 0;
    var body := Repeat('0', pads) + Numeral(n, 10);
    NumeralValue(n, 10);
    LeadingZeros(pads, Numeral(n, 10), 10);
    var s := DecimalText(value, width, '0');
    if value < 0 {
      assert s == "-" + body;
    } else {
      assert s == body;
    }
    ParsedPlain(body);
    ParsedNegative(body);
  }

  lemma ParsedPlain(s: string)
    requires s != [] && AllDigits(s, 10)
    ensures Parsed(s) == Wrap32(Value(s, 10))
  {
    hide IsDigit, Value, Wrap32;
    DecimalChars(s);
    DigitsToEnd(s, 0, 10);
    assert s[0..|s|] == s;
  }

  lemma ParsedNegative(body: string)
    requires body != [] && AllDigits(body, 10)
    ensures Parsed("-" + body) == Wrap32(-Value(body, 10))
  {
    hide IsDigit, Value, Wrap32;
    var s := "-" + body;
    DecimalChars(body);
    assert forall k | 1 <= k < |s| :: s[k] == body[k - 1];
    DigitsToEnd(s, 1, 10);
    assert s[1..|s|] == body;
  }

  lemma DecimalChars(s: string)
    requires AllDigits(s, 10)
    ensures forall i | 0 <= i < |s| :: s[i] != '-' && s[i] != 'x' && s[i] != 'K' && s[i] != 'M'
  {
  }

  /** parseval of "0x" and the hexadecimal text gives the word back, as a signed
      number. */
  lemma HexRoundTrip(value: int)
    requires -0x8000_0000 <= value <= INT_MAX
    ensures Parsed("0x" + Numeral(value % 0x1_0000_0000, 16)) == value
  {
    hide Numeral, IsDigit, DigitValue, Value;
    var n := value % 0x1_0000_0000;
    var t := Numeral(n, 16);
    var s := "0x" + t;
    NumeralValue(n, 16);
    assert forall k | 2 <= k < |s| :: s[k] == t[k - 2];
    DigitsToEnd(s, 2, 16);
    assert s[2..|s|] == t;
    assert Wrap32(n) == value;
  }

  /** The text is as wide as asked for, or as wide as the number with its sign. */
  lemma DecimalLength(value: int, width: int, pad: char)
    ensures var digits := |Numeral(if value < 0 then -value else value, 10)| + if value < 0 then 1 else 0;
      |DecimalText(value, width, pad)| == if width > digits then width else digits
  {
    hide Numeral;
  }

  /** A K behind the digits counts in units of 2^10 and an M in units of 2^20. */
  lemma UnitSuffix(body: string)
    requires body != [] && AllDigits(body, 10)
    ensures Parsed(body + "K") == Wrap32(Value(body, 10) * 1024)
    ensures Parsed(body + "M") == Wrap32(Value(body, 10) * 1048576)
    ensures Parsed("-" + (body + "K")) == Wrap32(-(Value(body, 10) * 1024))
  {
    hide Wrap32;
    Suffixed(body, 'K');
    Suffixed(body, 'M');
    SuffixedNegative(body, 'K');
  }

  lemma Suffixed(body: string, unit: char)
    requires body != [] && AllDigits(body, 10) && (unit == 'K' || unit == 'M')
    ensures Parsed(body + [unit]) == Wrap32(Value(body, 10) * if unit == 'K' then 1024 else 1048576)
  {
    hide IsDigit, Value, Wrap32;
    var s := body + [unit];
    DecimalChars(body);
    NotDigit(unit);
    assert forall k | 0 <= k < |body| :: s[k] == body[k];
    DigitsUpTo(s, 0, |body|);
    assert s[0..|body|] == body;
  }

  lemma SuffixedNegative(body: string, unit: char)
    requires body != [] && AllDigits(body, 10) && (unit == 'K' || unit == 'M')
    ensures Parsed("-" + (body + [unit])) == Wrap32(-(Value(body, 10) * if unit == 'K' then 1024 else 1048576))
  {
    hide IsDigit, Value, Wrap32;
    var s := "-" + (body + [unit]);
    DecimalChars(body);
    NotDigit(unit);
    assert forall k | 1 <= k < |body| + 1 :: s[k] == body[k - 1];
    DigitsUpTo(s, 1, |body| + 1);
    assert s[1..|body| + 1] == body;
  }

  lemma NotDigit(c: char)
    requires c == 'K' || c == 'M'
    ensures !IsDigit(c, 10)
  {
  }

  lemma {:induction false} DigitsUpTo(s: string, i: nat, j: nat)
    requires i <= j < |s| && !IsDigit(s[j], 10) && forall k | i <= k < j :: IsDigit(s[k], 10)
    ensures DigitsEnd(s, i, 10) == j
    decreases j - i
  {
    hide IsDigit;
    if i < j {
      DigitsUpTo(s, i + 1, j);
    }
  }
}
