/** Bounded number parsing: `parseNumberFromStringWithBase` for every integer type. */
module ParseNumber {
  import opened Wrappers

  /** The error statuses, one per message. */
  datatype Error = InvalidBase | NoDigits | BadDigit | Underflow | Overflow | NegativeValue

  /** An integer type by its signedness and its largest value, which is 2^k - 1. */
  datatype NumberType = NumberType(signed: bool, max: nat) {
    function Min(): int {
      if signed then -(max as int) - 1 else 0
    }

    predicate Fits(v: int) {
      Min() <= v <= max
    }

    /** The instantiated types: int8_t, short, int and long, signed and not. */
    predicate Supported() {
      max in (if signed then {0x7f, 0x7fff, 0x7fff_ffff, 0x7fff_ffff_ffff_ffff}
              else {0xff, 0xffff, 0xffff_ffff, 0xffff_ffff_ffff_ffff})
    }
  }

  // ---------------------------------------------------------------- the language

  predicate SupportedBase(base: int) {
    base == 0 || 2 <= base <= 36
  }

  /** The value of a digit character; 36 is illegal in every base. */
  function DigitValue(c: char): nat {
    if '0' <= c <= '9' then c as int - '0' as int
    else if 'a' <= c <= 'z' then c as int - 'a' as int + 10
    else if 'A' <= c <= 'Z' then c as int - 'A' as int + 10
    else 36
  }

  predicate AllDigits(s: string, base: int) {
    forall i | 0 <= i < |s| :: DigitValue(s[i]) < base
  }

  /** The number a digit string denotes. */
  function Value(digits: string, base: nat): (n: int)
    ensures n >= 0
  {
    if digits == [] then 0
    else Value(digits[..|digits| - 1], base) * base + DigitValue(digits[|digits| - 1])
  }

  /** How a string is put together under an input base: an optional sign, an optional prefix, and
      digits of base b. */
  predicate Put(s: string, base: int, sign: string, prefix: string, b: nat, digits: string) {
    && s == sign + (prefix + digits)
    && sign in {"", "+", "-"} && prefix in {"", "0x", "0X"}
    && digits != [] && AllDigits(digits, b)
    && BaseOf(base, prefix, b, digits)
  }

  /** Which base the digits are in. Base 0 takes it from the look of the number. */
  predicate BaseOf(base: int, prefix: string, b: nat, digits: string)
    requires digits != []
  {
    if base == 0 then
      if prefix != "" then b == 16
      else if digits[0] == '0' && |digits| > 1 then b == 8
      else b == 10
    else
      b == base && (prefix != "" ==> base == 16)
  }

  /** s denotes v under an input base. */
  ghost predicate Denotes(s: string, base: int, negative: bool, v: int) {
    exists sign, prefix, b, digits ::
      Put(s, base, sign, prefix, b, digits) && negative == (sign == "-") && v == Signed(negative, Value(digits, b))
  }

  function Signed(negative: bool, n: int): int {
    if negative then -n else n
  }

  // ---------------------------------------------------------------- sign and base

  function ExtractSign(s: string): (bool, string) {
    if s == "" then (false, s)
    else if s[0] == '-' then (true, s[1..])
    else if s[0] == '+' then (false, s[1..])
    else (false, s)
  }

  predicate HasHexPrefix(s: string) {
    "0x" <= s || "0X" <= s
  }

  function ExtractBase(s: string, base: int): (int, string) {
    if base == 0 then
      if |s| > 2 && HasHexPrefix(s) then (16, s[2..])
      else if |s| > 1 && s[0] == '0' then (8, s)
      else (10, s)
    else
      (base, if base == 16 && HasHexPrefix(s) then s[2..] else s)
  }

  lemma SignFound(sign: string, rest: string)
    requires sign in {"", "+", "-"} && rest != "" && DigitValue(rest[0]) < 36
    ensures ExtractSign(sign + rest) == (sign == "-", rest)
  {
    assert (sign + rest)[|sign|..] == rest;
  }

  lemma BaseFound(base: int, prefix: string, b: nat, digits: string)
    requires SupportedBase(base) && prefix in {"", "0x", "0X"}
    requires digits != [] && AllDigits(digits, b) && BaseOf(base, prefix, b, digits)
    ensures ExtractBase(prefix + digits, base) == (b, digits)
  {
    var rest := prefix + digits;
    assert rest[|prefix|..] == digits;
    assert DigitValue('x') == DigitValue('X') == 33;
    if prefix == "" {
      assert rest == digits;
      if HasHexPrefix(rest) {
        assert DigitValue(digits[1]) < b;
      }
    } else {
      assert rest[..2] == prefix;
      assert HasHexPrefix(rest);
    }
  }

  lemma PrefixStripped(rest: string, base: int) returns (prefix: string)
    requires SupportedBase(base)
    ensures prefix in {"", "0x", "0X"}
    ensures var (b, digits) := ExtractBase(rest, base);
      rest == prefix + digits && b >= 0 && (digits != [] && AllDigits(digits, b) ==> BaseOf(base, prefix, b, digits))
  {
    var (b, digits) := ExtractBase(rest, base);
    prefix := rest[..|rest| - |digits|];
    assert HasHexPrefix(rest) ==> rest[..2] == "0x" || rest[..2] == "0X";
  }

  lemma SignStripped(s: string) returns (sign: string)
    ensures sign in {"", "+", "-"}
    ensures var (negative, rest) := ExtractSign(s); s == sign + rest && negative == (sign == "-")
  {
    var (negative, rest) := ExtractSign(s);
    sign := s[..|s| - |rest|];
    assert sign != "" ==> sign == [s[0]];
  }

  /** The two extraction steps take apart any string that is put together. */
  lemma ExtractionFinds(s: string, base: int, sign: string, prefix: string, b: nat, digits: string)
    requires SupportedBase(base) && Put(s, base, sign, prefix, b, digits)
    ensures ExtractSign(s).0 == (sign == "-") && ExtractBase(ExtractSign(s).1, base) == (b, digits)
  {
    assert DigitValue(digits[0]) < b;
    SignFound(sign, prefix + digits);
    BaseFound(base, prefix, b, digits);
  }

  /** So the extracted parts are the only reading of a string. */
  lemma DenotesExtracted(s: string, base: int, negative: bool, v: int)
    requires SupportedBase(base)
    ensures Denotes(s, base, negative, v) <==>
      var (sign, rest) := ExtractSign(s);
      var (b, digits) := ExtractBase(rest, base);
      digits != [] && AllDigits(digits, b) && negative == sign && v == Signed(negative, Value(digits, b))
  {
    var (_, rest) := ExtractSign(s);
    var (b, digits) := ExtractBase(rest, base);
    var sign := SignStripped(s);
    var prefix := PrefixStripped(rest, base);
    hide ExtractSign;
    hide ExtractBase;
    hide BaseOf;
    hide Value;
    hide AllDigits;
    if digits != [] && AllDigits(digits, b) {
      assert Put(s, base, sign, prefix, b, digits);
    }
    hide Put;
    if Denotes(s, base, negative, v) {
      var sign', prefix', b', digits' :| Put(s, base, sign', prefix', b', digits') && negative == (sign' == "-")
        && v == Signed(negative, Value(digits', b'));
      ExtractionFinds(s, base, sign', prefix', b', digits');
      DigitsPut(s, base, sign', prefix', b', digits');
    }
  }

  lemma DigitsPut(s: string, base: int, sign: string, prefix: string, b: nat, digits: string)
    requires Put(s, base, sign, prefix, b, digits)
    ensures digits != [] && AllDigits(digits, b)
  {
  }

  // ---------------------------------------------------------------- arithmetic of the checks

  /** C's division, which truncates towards zero. */
  function TruncatedQuotient(a: int, b: int): int
    requires b > 0
  {
    if a >= 0 then a / b else -((-a) / b)
  }

  /** The division check is exact: it passes exactly when the multiplication stays in range. */
  lemma QuotientCheck(limit: nat, base: nat, n: nat)
    requires base > 0
    ensures limit / base < n <==> n * base > limit
  {
    var q := limit / base;
    assert limit == q * base + limit % base;
    if q < n {
      Times(base, q + 1, n);
      assert (q + 1) * base == q * base + base;
    } else {
      Times(base, n, q);
    }
  }

  lemma Times(k: nat, a: int, b: int)
    requires a <= b
    ensures a * k <= b * k
  {
  }

  lemma ValueStep(digits: string, base: nat, i: nat)
    requires i < |digits|
    ensures Value(digits[..i + 1], base) == Value(digits[..i], base) * base + DigitValue(digits[i])
  {
    assert digits[..i + 1][..i] == digits[..i];
  }

  lemma GrowsBy(n: int, base: nat, digit: nat)
    requires n >= 0 && base >= 1
    ensures n <= n * base + digit
  {
  }

  lemma Negated(n: int, base: nat)
    ensures (-n) * base == -(n * base)
  {
  }

  /** Reading on never makes a value smaller, so an overflow stays one. */
  lemma {:induction false} ValueGrows(digits: string, base: nat, i: nat)
    requires i <= |digits| && base >= 1
    ensures Value(digits[..i], base) <= Value(digits, base)
    decreases |digits| - i
  {
    if i < |digits| {
      ValueStep(digits, base, i);
      ValueGrows(digits, base, i + 1);
      hide Value;
      GrowsBy(Value(digits[..i], base), base, DigitValue(digits[i]));
    } else {
      assert digits[..i] == digits;
    }
  }

  // ---------------------------------------------------------------- parsing

  /** One more digit: the division check is exact, and the new value only grows from here. */
  lemma UpStep(str: string, base: nat, max: nat, n: nat, i: nat)
    requires base >= 2 && i < |str| && n == Value(str[..i], base) && AllDigits(str[..i], base)
    ensures max / base < n <==> n * base > max
    ensures Value(str[..i + 1], base) == n * base + DigitValue(str[i])
    ensures Value(str[..i + 1], base) <= Value(str, base)
    ensures n * base >= 0
    ensures DigitValue(str[i]) < base ==> AllDigits(str[..i + 1], base)
  {
    QuotientCheck(max, base, n);
    ValueStep(str, base, i);
    ValueGrows(str, base, i + 1);
    Times(base, 0, n);
  }

  lemma BadDigitStays(str: string, base: nat, i: nat)
    requires i < |str| && DigitValue(str[i]) >= base
    ensures !AllDigits(str, base)
  {
  }

  /** The loop for numbers that are not negative. */
  method ParseUp(str: string, base: nat, t: NumberType) returns (r: Result<int, Error>)
    requires 2 <= base <= 36 && t.max >= 36
    ensures r.Ok? <==> AllDigits(str, base) && t.Fits(Value(str, base))
    ensures r.Ok? ==> r.value == Value(str, base)
    ensures r.Err? ==> r.error == BadDigit || r.error == Overflow
    ensures r == Err(BadDigit) ==> !AllDigits(str, base)
    ensures r == Err(Overflow) ==> exists i :: 0 <= i <= |str| && AllDigits(str[..i], base) && !t.Fits(Value(str[..i], base))
  {
    var n := 0;
    var i := 0;
    assert Value(str[..0], base) == 0 && AllDigits(str[..0], base);
    hide Value;
    hide AllDigits;
    while i < |str|
      invariant 0 <= i <= |str| && t.Fits(n) && n >= 0
      invariant AllDigits(str[..i], base) && n == Value(str[..i], base)
    {
      var digitValue := DigitValue(str[i]);
      assert t.Fits(digitValue);
      if digitValue >= base {
        BadDigitStays(str, base, i);
        return Err(BadDigit);
      }
      UpStep(str, base, t.max, n, i);
      if t.max / base < n {
        return Err(Overflow);
      }
      assert t.Fits(n * base) && t.Fits(t.max - n * base);
      if t.max - n * base < digitValue {
        return Err(Overflow);
      }
      n := n * base;
      n := n + digitValue;
      i := i + 1;
    }
    assert str[..i] == str;
    return Ok(n);
  }

  lemma DownStep(str: string, base: nat, min: int, n: int, i: nat)
    requires base >= 2 && i < |str| && n <= 0 && min < 0
    requires -n == Value(str[..i], base) && AllDigits(str[..i], base)
    ensures TruncatedQuotient(min, base) > n <==> n * base < min
    ensures Value(str[..i + 1], base) == -(n * base) + DigitValue(str[i])
    ensures Value(str[..i + 1], base) <= Value(str, base)
    ensures n * base <= 0
    ensures DigitValue(str[i]) < base ==> AllDigits(str[..i + 1], base)
  {
    UpStep(str, base, -min, -n, i);
    Negated(n, base);
  }

  /** The loop for negative numbers of signed types; it counts down. */
  method ParseDown(str: string, base: nat, t: NumberType) returns (r: Result<int, Error>)
    requires 2 <= base <= 36 && t.max >= 36 && t.signed
    ensures r.Ok? <==> AllDigits(str, base) && t.Fits(-Value(str, base))
    ensures r.Ok? ==> r.value == -Value(str, base)
    ensures r.Err? ==> r.error == BadDigit || r.error == Underflow
    ensures r == Err(BadDigit) ==> !AllDigits(str, base)
    ensures r == Err(Underflow) ==> exists i :: 0 <= i <= |str| && AllDigits(str[..i], base) && !t.Fits(-Value(str[..i], base))
  {
    var n := 0;
    var i := 0;
    assert Value(str[..0], base) == 0 && AllDigits(str[..0], base);
    hide Value;
    hide AllDigits;
    hide TruncatedQuotient;
    while i < |str|
      invariant 0 <= i <= |str| && t.Fits(n) && n <= 0
      invariant AllDigits(str[..i], base) && -n == Value(str[..i], base)
    {
      var digitValue := DigitValue(str[i]);
      assert t.Fits(digitValue) && t.Fits(-digitValue);
      if digitValue >= base {
        BadDigitStays(str, base, i);
        return Err(BadDigit);
      }
      DownStep(str, base, t.Min(), n, i);
      if TruncatedQuotient(t.Min(), base) > n {
        return Err(Underflow);
      }
      assert t.Fits(n * base) && t.Fits(t.Min() - n * base);
      if t.Min() - n * base > -digitValue {
        return Err(Underflow);
      }
      n := n * base;
      n := n - digitValue;
      i := i + 1;
    }
    assert str[..i] == str;
    return Ok(n);
  }

  /** Nothing is left to read after the sign and a stripped prefix. */
  predicate NothingToRead(s: string, base: int) {
    var rest := ExtractSign(s).1;
    rest == "" || (base == 16 && rest in {"0x", "0X"})
  }

  lemma NothingLeft(s: string, base: int)
    requires SupportedBase(base)
    ensures ExtractBase(ExtractSign(s).1, base).1 == "" <==> NothingToRead(s, base)
  {
    var rest := ExtractSign(s).1;
    if |rest| == 2 && HasHexPrefix(rest) {
      assert rest == "0x" || rest == "0X";
    }
    if |rest| > 2 {
      assert |rest[2..]| > 0;
    }
  }

  /** Parsing succeeds with v exactly when the string denotes v and v fits the type; a minus sign
      never succeeds for an unsigned one. */
  method Parse(s: string, base: int, t: NumberType) returns (r: Result<int, Error>)
    requires t.Supported()
    ensures r == Err(InvalidBase) <==> !SupportedBase(base)
    ensures r.Ok? ==> t.Fits(r.value) && exists negative :: Denotes(s, base, negative, r.value) && (negative ==> t.signed)
    ensures SupportedBase(base) ==>
      forall negative, v :: Denotes(s, base, negative, v) && t.Fits(v) && (negative ==> t.signed) ==> r == Ok(v)
    ensures SupportedBase(base) ==> (r == Err(NoDigits) <==> NothingToRead(s, base))
    ensures SupportedBase(base) ==>
      (r == Err(NegativeValue) <==> !t.signed && "-" <= s && !NothingToRead(s, base))
  {
    if base == 1 || base < 0 || base > 36 {
      return Err(InvalidBase);
    }
    NothingLeft(s, base);
    var (isNegative, rest) := ExtractSign(s);
    var (outBase, str) := ExtractBase(rest, base);
    assert 2 <= outBase <= 36 && (isNegative <==> "-" <= s);
    hide NothingToRead;
    hide ExtractSign;
    hide ExtractBase;
    hide Denotes;
    hide Value;
    hide AllDigits;
    if str == "" {
      r := Err(NoDigits);
    } else if isNegative {
      if t.signed {
        r := ParseDown(str, outBase, t);
      } else {
        r := Err(NegativeValue);
      }
    } else {
      r := ParseUp(str, outBase, t);
    }
    ParsedReading(s, base, t, r);
  }

  /** A result that is right for the extracted parts is right for the string. */
  lemma ParsedReading(s: string, base: int, t: NumberType, r: Result<int, Error>)
    requires SupportedBase(base)
    requires
      var (negative, rest) := ExtractSign(s);
      var (b, digits) := ExtractBase(rest, base);
      && b >= 0
      && (r.Ok? <==> digits != [] && AllDigits(digits, b) && (negative ==> t.signed) && t.Fits(Signed(negative, Value(digits, b))))
      && (r.Ok? ==> r.value == Signed(negative, Value(digits, b)))
    ensures r.Ok? ==> t.Fits(r.value) && exists negative :: Denotes(s, base, negative, r.value) && (negative ==> t.signed)
    ensures forall negative, v :: Denotes(s, base, negative, v) && t.Fits(v) && (negative ==> t.signed) ==> r == Ok(v)
  {
    if r.Ok? {
      DenotesExtracted(s, base, ExtractSign(s).0, r.value);
    }
    forall negative, v | Denotes(s, base, negative, v) && t.Fits(v) && (negative ==> t.signed) ensures r == Ok(v) {
      DenotesExtracted(s, base, negative, v);
    }
  }

  // ---------------------------------------------------------------- printing

  function DigitChar(d: nat): (c: char)
    requires d < 36
    ensures DigitValue(c) == d
  {
    if d < 10 then '0' + d as char else 'a' + (d - 10) as char
  }

  /** The base-b form of a number, most significant digit first. */
  function Printed(n: nat, base: nat): (s: string)
    requires 2 <= base <= 36
    ensures s != []
  {
    if n < base then [DigitChar(n)]
    else
      assert n / base < n by { QuotientShrinks(n, base); }
      Printed(n / base, base) + [DigitChar(n % base)]
  }

  lemma QuotientShrinks(n: nat, base: nat)
    requires 2 <= base <= n
    ensures 1 <= n / base < n
  {
  }

  /** Printed numbers are digit strings that denote the number, without leading zeros. */
  lemma {:induction false} PrintedValue(n: nat, base: nat)
    requires 2 <= base <= 36
    ensures var s := Printed(n, base);
      AllDigits(s, base) && Value(s, base) == n && (s[0] == '0' ==> n == 0 && |s| == 1)
  {
    if n < base {
      var s := Printed(n, base);
      assert s == [DigitChar(n)] && s[..0] == "";
      assert Value(s[..0], base) == 0;
      assert Value(s, base) == Value(s[..0], base) * base + n;
    } else {
      QuotientShrinks(n, base);
      PrintedValue(n / base, base);
      PushDigit(Printed(n / base, base), base, n % base);
      Divide(n, base);
      assert Printed(n, base) == Printed(n / base, base) + [DigitChar(n % base)];
    }
  }

  lemma Divide(n: nat, base: nat)
    requires base > 0
    ensures n == (n / base) * base + n % base
  {
  }

  lemma PushDigit(s: string, base: nat, d: nat)
    requires AllDigits(s, base) && d < base <= 36
    ensures AllDigits(s + [DigitChar(d)], base)
    ensures Value(s + [DigitChar(d)], base) == Value(s, base) * base + d
  {
  }

  function PrintedNumber(v: int, base: int): string
    requires SupportedBase(base)
  {
    var b := if base == 0 then 10 else base;
    if v < 0 then "-" + Printed(-v, b) else Printed(v, b)
  }

  lemma PlainPut(base: int, sign: string, b: nat, digits: string)
    requires sign in {"", "-"} && digits != [] && AllDigits(digits, b) && BaseOf(base, "", b, digits)
    ensures Put(sign + digits, base, sign, "", b, digits)
  {
  }

  lemma PrintedDenotes(v: int, base: int)
    requires SupportedBase(base)
    ensures Denotes(PrintedNumber(v, base), base, v < 0, v)
  {
    var b := if base == 0 then 10 else base;
    var sign, digits := if v < 0 then "-" else "", Printed(if v < 0 then -v else v, b);
    assert PrintedNumber(v, base) == sign + digits;
    PrintedValue(if v < 0 then -v else v, b);
    hide Value;
    hide Printed;
    hide AllDigits;
    hide PrintedNumber;
    PlainPut(base, sign, b, digits);
    hide Put;
    hide BaseOf;
    assert Put(PrintedNumber(v, base), base, sign, "", b, digits);
  }

  /** Parsing inverts printing, in every base and at every width; base 0 reads decimal. */
  method ParsePrinted(v: int, base: int, t: NumberType) returns (r: Result<int, Error>)
    requires t.Supported() && SupportedBase(base) && t.Fits(v)
    ensures r == Ok(v)
  {
    PrintedDenotes(v, base);
    hide Denotes;
    r := Parse(PrintedNumber(v, base), base, t);
  }
}
