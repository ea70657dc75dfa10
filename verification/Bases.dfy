/** Cast's numbers: 256-bit values printed in four bases and read back, with the base detected
    from the text. Digit strings are read as ruint and the standard library read them. */
module Bases {
  import opened Common

  datatype Base = Binary | Octal | Decimal | Hexadecimal {
    function Radix(): (r: nat)
      ensures r == 2 || r == 8 || r == 10 || r == 16
    {
      match this case Binary => 2 case Octal => 8 case Decimal => 10 case Hexadecimal => 16
    }

    function Prefix(): string {
      match this case Binary => "0b" case Octal => "0o" case Decimal => "" case Hexadecimal => "0x"
    }
  }

  const I256_MIN: nat := 0x80000000_00000000_00000000_00000000_00000000_00000000_00000000_00000000

  // ---- Digits ----------------------------------------------------------------------------

  /** The digits of a positive number; none for zero. */
  function Digits(n: nat, base: Base): string
    decreases n
  {
    if n == 0 then "" else Digits(n / base.Radix(), base) + [DigitChar(n % base.Radix())]
  }

  function ToText(n: nat, base: Base): string {
    if n == 0 then "0" else Digits(n, base)
  }

  /** The value of a digit string; underscores do not count. None on any other character. */
  function DigitsValue(s: string, radix: nat): Option<nat> {
    if s == "" then Some(0)
    else if Last(s) == '_' then DigitsValue(DropLast(s), radix)
    else
      var front, d := DigitsValue(DropLast(s), radix), DigitValue(Last(s), radix);
      if front.None? || d.None? then None else Some(front.value * radix + d.value)
  }

  predicate AreDigits(s: string, base: Base) {
    forall c :: c in s ==> DigitValue(c, base.Radix()).Some?
  }

  lemma DivMod(n: nat, base: Base)
    ensures n / base.Radix() * base.Radix() + n % base.Radix() == n
  {
    match base
    case Binary => assert n / 2 * 2 + n % 2 == n;
    case Octal => assert n / 8 * 8 + n % 8 == n;
    case Decimal => assert n / 10 * 10 + n % 10 == n;
    case Hexadecimal => assert n / 16 * 16 + n % 16 == n;
  }

  lemma DigitsValueSnoc(s: string, c: char, radix: nat)
    requires c != '_' && DigitsValue(s, radix).Some? && DigitValue(c, radix).Some?
    ensures DigitsValue(s + [c], radix) == Some(DigitsValue(s, radix).value * radix + DigitValue(c, radix).value)
  {
    assert DropLast(s + [c]) == s;
  }

  lemma {:induction false} DigitsRoundTrip(n: nat, base: Base)
    ensures DigitsValue(Digits(n, base), base.Radix()) == Some(n)
    decreases n
  {
    if n > 0 {
      var radix := base.Radix();
      var q, d := n / radix, n % radix;
      DigitsRoundTrip(q, base);
      assert DigitsValue(Digits(n, base), radix) == Some(q * radix + d) by {
        DigitRoundTrip(d, radix);
        DigitsValueSnoc(Digits(q, base), DigitChar(d), radix);
      }
      DivMod(n, base);
    }
  }

  lemma {:induction false} DigitsAreDigits(n: nat, base: Base)
    ensures AreDigits(Digits(n, base), base)
    decreases n
  {
    if n > 0 {
      DigitsAreDigits(n / base.Radix(), base);
      DigitRoundTrip(n % base.Radix(), base.Radix());
    }
  }

  lemma TextRoundTrip(n: nat, base: Base)
    ensures DigitsValue(ToText(n, base), base.Radix()) == Some(n)
    ensures AreDigits(ToText(n, base), base) && ToText(n, base) != ""
  {
    DigitsRoundTrip(n, base);
    DigitsAreDigits(n, base);
    if n == 0 {
      assert DropLast("0") == "";
    }
  }

  /** Digits are printed in lower case and without leading zeros. */
  lemma TextIsPlain(n: nat, base: Base)
    ensures forall c :: c in ToText(n, base) ==> '0' <= c <= '9' || 'a' <= c <= 'f'
    ensures |ToText(n, base)| > 1 ==> ToText(n, base)[0] != '0'
    ensures ToText(n, base) == "0" <==> n == 0
  {
    if n > 0 {
      DigitsArePlain(n, base);
    }
  }

  lemma {:induction false} DigitsArePlain(n: nat, base: Base)
    requires n > 0
    ensures Digits(n, base) != "" && Digits(n, base)[0] != '0'
    ensures forall c :: c in Digits(n, base) ==> '0' <= c <= '9' || 'a' <= c <= 'f'
  {
    var q, d := n / base.Radix(), n % base.Radix();
    assert n == q * base.Radix() + d by {
      DivMod(n, base);
    }
    if q > 0 {
      DigitsArePlain(q, base);
    } else {
      assert Digits(q, base) == "" && d == n;
    }
    PlainSnoc(Digits(q, base), d);
  }

  lemma PlainSnoc(s: string, d: nat)
    requires d < 16 && (forall c :: c in s ==> '0' <= c <= '9' || 'a' <= c <= 'f')
    requires if s == "" then d > 0 else s[0] != '0'
    ensures var t := s + [DigitChar(d)];
            t != "" && t[0] != '0' && forall c :: c in t ==> '0' <= c <= '9' || 'a' <= c <= 'f'
  {
  }

  // ---- Reading ---------------------------------------------------------------------------

  /** `TooManyDecimals` stands for the panic of a number of decimals that is no `usize`. */
  datatype ParseError = BadBase | BadNumber | TooManyDecimals

  /** `U256::from_str_radix`. */
  function ParseU256(s: string, base: Base): Option<nat> {
    var v := DigitsValue(s, base.Radix());
    if v.Some? && v.value < U256 then v else None
  }

  datatype U64Result = Fits | PosOverflow | Invalid

  /** `u64::from_str_radix` on digits, as a left-to-right scan that stops at the first fault. */
  function ScanU64(s: string, base: Base, value: nat): U64Result {
    if s == "" then Fits
    else
      var d := DigitValue(s[0], base.Radix());
      if d.None? then Invalid
      else if value * base.Radix() + d.value >= U64 then PosOverflow
      else ScanU64(s[1..], base, value * base.Radix() + d.value)
  }

  function ParseU64(s: string, base: Base): U64Result {
    if s == "" || s == "+" then Invalid
    else ScanU64(if s[0] == '+' then s[1..] else s, base, 0)
  }

  function DetectPrefixed(s: string, base: Base): Result<Base, ParseError>
    requires |s| >= 2
  {
    if ParseU64(s[2..], base) == Invalid then Err(BadBase) else Ok(base)
  }

  function Detect(s: string): Result<Base, ParseError> {
    if s != "" && (s[0] == '+' || s[0] == '-') then Detect(s[1..])
    else if StartsWith(s, "0b") then DetectPrefixed(s, Binary)
    else if StartsWith(s, "0o") then DetectPrefixed(s, Octal)
    else if StartsWith(s, "0x") then DetectPrefixed(s, Hexadecimal)
    else if ParseU256(s, Decimal).Some? then Ok(Decimal)
    else if ParseU256(s, Hexadecimal).Some? then Ok(Hexadecimal)
    else Err(BadBase)
  }

  /** A 256-bit word, whether it stands for a value at least zero, and the base to print it in. */
  datatype NumberWithBase = NumberWithBase(number: nat, isNonnegative: bool, base: Base) {
    predicate Valid() {
      number < U256
    }
  }

  function Negate(n: nat): nat
    requires n < U256
  {
    (U256 - n) % U256
  }

  function StripPrefix(s: string): string {
    if |s| >= 2 && s[..2] in {"0x", "0X", "0o", "0O", "0b", "0B"} then s[2..] else s
  }

  function ParseUint(s: string, base: Base): Option<nat> {
    ParseU256(StripPrefix(s), base)
  }

  /** `NumberWithBase::parse_int` with the base given or detected. */
  function ParseInt(s: string, base: Option<Base>): (r: Result<NumberWithBase, ParseError>)
    ensures r.Ok? ==> r.value.Valid()
  {
    var detected := if base.Some? then Ok(base.value) else Detect(s);
    if detected.Err? then Err(detected.error)
    else
      var signed := s != "" && (s[0] == '+' || s[0] == '-');
      var n := ParseUint(if signed then s[1..] else s, detected.value);
      if n.None? then Err(BadNumber)
      else if signed && s[0] == '-' then Ok(NumberWithBase(Negate(n.value), false, detected.value))
      else Ok(NumberWithBase(n.value, true, detected.value))
  }

  // ---- Printing --------------------------------------------------------------------------

  /** The number that printing in signed decimal shows after the minus sign. */
  function Magnitude(x: NumberWithBase): (m: nat)
    requires x.Valid()
    ensures m < U256
  {
    if x.isNonnegative || x.number < I256_MIN then x.number else U256 - x.number
  }

  /** `NumberWithBase::format`: digits only, without leading zeros. */
  function Format(x: NumberWithBase): string
    requires x.Valid()
  {
    if x.base.Decimal? then Digits(Magnitude(x), Decimal) else Digits(x.number, x.base)
  }

  /** `Formatter::pad_integral` with `#`. */
  function PadIntegral(isNonnegative: bool, prefix: string, body: string): string {
    if isNonnegative then prefix + body else "-" + (prefix + body)
  }

  /** The Debug form with `#`: a minus sign only in decimal, the prefix, the digits. */
  function Show(x: NumberWithBase): string
    requires x.Valid()
  {
    if x.number == 0 then PadIntegral(true, x.base.Prefix(), "0")
    else PadIntegral(!x.base.Decimal? || x.isNonnegative, x.base.Prefix(), Format(x))
  }

  lemma ShowIs(x: NumberWithBase)
    requires x.Valid()
    ensures !x.base.Decimal? ==> Show(x) == x.base.Prefix() + ToText(x.number, x.base)
    ensures x.base.Decimal? && (x.number == 0 || x.isNonnegative) ==> Show(x) == ToText(x.number, Decimal)
    ensures x.base.Decimal? && x.number != 0 && !x.isNonnegative ==> Show(x) == "-" + ToText(Magnitude(x), Decimal)
  {
    if x.base.Decimal? {
      var body := ToText(Magnitude(x), Decimal);
      assert x.base.Prefix() + body == body;
    }
  }

  // ---- Reading what was printed ----------------------------------------------------------

  lemma {:induction false} ScanDigits(s: string, base: Base, value: nat)
    requires AreDigits(s, base)
    ensures ScanU64(s, base, value) != Invalid
    decreases |s|
  {
    if s != "" {
      assert s[0] in s;
      var d := DigitValue(s[0], base.Radix()).value;
      assert forall c :: c in s[1..] ==> c in s;
      ScanDigits(s[1..], base, value * base.Radix() + d);
    }
  }

  lemma NotSigns(s: string, base: Base)
    requires AreDigits(s, base) && s != ""
    ensures s[0] != '+' && s[0] != '-'
    ensures base.Decimal? ==>
      StripPrefix(s) == s && !StartsWith(s, "0b") && !StartsWith(s, "0o") && !StartsWith(s, "0x")
  {
    assert s[0] in s;
    if |s| >= 2 {
      assert s[1] in s && s[..2][1] == s[1];
    }
  }

  lemma ReadPrefixed(n: nat, base: Base)
    requires n < U256 && !base.Decimal?
    ensures ParseInt(base.Prefix() + ToText(n, base), None) == Ok(NumberWithBase(n, true, base))
  {
    var digits, s := ToText(n, base), base.Prefix() + ToText(n, base);
    TextRoundTrip(n, base);
    NotSigns(digits, base);
    ScanDigits(digits, base, 0);
    assert s[2..] == digits && s[..2] == base.Prefix();
    assert base.Prefix()[1] != (if base.Binary? then 'o' else 'b');
    PrefixOf(base, s);
  }

  lemma PrefixOf(base: Base, s: string)
    requires !base.Decimal? && |s| >= 2 && s[..2] == base.Prefix()
    ensures s[0] == '0' && Detect(s) == DetectPrefixed(s, base) && StripPrefix(s) == s[2..]
  {
    var second := match base case Binary => 'b' case Octal => 'o' case _ => 'x';
    assert base.Prefix() == ['0', second];
    assert s[0] == '0' && s[1] == second by {
      assert s[0] == s[..2][0] && s[1] == s[..2][1];
    }
    StartsWithTwo(s, 'b');
    StartsWithTwo(s, 'o');
    StartsWithTwo(s, 'x');
  }

  lemma StartsWithTwo(s: string, c: char)
    requires |s| >= 2 && s[0] == '0'
    ensures StartsWith(s, ['0', c]) <==> s[1] == c
  {
    assert s[..2] == [s[0], s[1]];
  }

  lemma DetectDecimal(n: nat)
    requires n < U256
    ensures var s := ToText(n, Decimal);
            && s != "" && s[0] != '+' && s[0] != '-'
            && Detect(s) == Ok(Decimal) && ParseUint(s, Decimal) == Some(n)
  {
    var s := ToText(n, Decimal);
    TextRoundTrip(n, Decimal);
    NotSigns(s, Decimal);
    DetectPlain(s, n);
  }

  lemma DetectPlain(s: string, n: nat)
    requires s != "" && s[0] != '+' && s[0] != '-'
    requires !StartsWith(s, "0b") && !StartsWith(s, "0o") && !StartsWith(s, "0x")
    requires DigitsValue(s, 10) == Some(n) && n < U256
    ensures Detect(s) == Ok(Decimal)
  {
    assert ParseU256(s, Decimal) == Some(n);
  }

  lemma ReadDecimal(n: nat)
    requires n < U256
    ensures ParseInt(ToText(n, Decimal), None) == Ok(NumberWithBase(n, true, Decimal))
  {
    DetectDecimal(n);
  }

  predicate IsUnsigned(s: string) {
    s != "" && s[0] != '+' && s[0] != '-'
  }

  lemma ReadNegative(n: nat)
    requires n < U256
    ensures ParseInt("-" + ToText(n, Decimal), None) == Ok(NumberWithBase(Negate(n), false, Decimal))
  {
    DetectDecimal(n);
    NegativeOf(ToText(n, Decimal));
  }

  /** A minus sign in front of an unsigned text negates the word. */
  lemma NegativeOf(s: string)
    requires IsUnsigned(s) && ParseInt(s, None).Ok?
    ensures var n := ParseInt(s, None).value;
            ParseInt("-" + s, None) == Ok(NumberWithBase(Negate(n.number), false, n.base))
  {
    DetectSigned(s);
    assert ("-" + s)[1..] == s;
  }

  lemma DetectSigned(s: string)
    ensures Detect("-" + s) == Detect(s)
  {
    assert ("-" + s)[1..] == s;
  }

  /** What any number, printed with its prefix, is read back as. */
  function ReadBack(x: NumberWithBase): NumberWithBase
    requires x.Valid()
  {
    if x.number == 0 || x.isNonnegative || !x.base.Decimal? then NumberWithBase(x.number, true, x.base)
    else NumberWithBase(Negate(Magnitude(x)), false, Decimal)
  }

  lemma ParseShow(x: NumberWithBase)
    requires x.Valid()
    ensures ParseInt(Show(x), None) == Ok(ReadBack(x))
  {
    ShowIs(x);
    if !x.base.Decimal? {
      ReadPrefixed(x.number, x.base);
    } else if x.number == 0 || x.isNonnegative {
      ReadDecimal(x.number);
    } else {
      ReadNegative(Magnitude(x));
    }
  }

  /** Every unsigned 256-bit number, printed with its prefix in any base, is read back with the
      same value and the same base. */
  lemma {:induction false} UnsignedRoundTrip(n: nat, base: Base)
    requires n < U256
    ensures ParseInt(Show(NumberWithBase(n, true, base)), None) == Ok(NumberWithBase(n, true, base))
  {
    ParseShow(NumberWithBase(n, true, base));
  }

  /** A signed 256-bit number as a word. */
  function FromI256(v: int): (x: NumberWithBase)
    requires -(I256_MIN as int) <= v < I256_MIN
    ensures x.Valid()
  {
    NumberWithBase(if v >= 0 then v else U256 + v, v >= 0, Decimal)
  }

  lemma SignedWord(v: int)
    requires -(I256_MIN as int) <= v < I256_MIN
    ensures ReadBack(FromI256(v)) == FromI256(v)
    ensures Magnitude(FromI256(v)) == if v >= 0 then v else -v
  {
  }

  /** Every signed 256-bit number, the least included, is read back from signed decimal. */
  lemma SignedRoundTrip(v: int)
    requires -(I256_MIN as int) <= v < I256_MIN
    ensures ParseInt(Show(FromI256(v)), None) == Ok(FromI256(v))
  {
    SignedWord(v);
    ParseShow(FromI256(v));
  }

  /** `Cast::to_base` between two bases. */
  function ToBase(value: string, baseIn: Base, baseOut: Base): Result<string, ParseError> {
    if baseIn == baseOut then Ok(value)
    else
      match ParseInt(value, Some(baseIn))
      case Err(e) => Err(e)
      case Ok(n) => Ok(Show(n.(base := baseOut)))
  }

  /** The text converted to is read back, with its base detected, as the same 256-bit word in the
      base asked for: between two bases, except for a negative input converted to decimal whose
      magnitude is above 2^255 (so that its word is below 2^255, and not zero); from a base to
      itself, where the text is left as it is, exactly when the base is the one detected. */
  lemma {:induction false} ToBaseKeepsWordIff(value: string, baseIn: Base, baseOut: Base)
    requires ParseInt(value, Some(baseIn)).Ok?
    ensures var n, text := ParseInt(value, Some(baseIn)).value, ToBase(value, baseIn, baseOut);
            && text.Ok?
            && (baseIn != baseOut ==>
                  ParseInt(text.value, None).Ok? && ParseInt(text.value, None).value.base == baseOut)
            && (ReadsAs(text.value, n.number, baseOut) <==>
                if baseIn == baseOut then Detect(value) == Ok(baseIn)
                else n.isNonnegative || !baseOut.Decimal? || n.number == 0 || n.number >= I256_MIN)
  {
    var n := ParseInt(value, Some(baseIn)).value;
    if baseIn != baseOut {
      ParseShow(n.(base := baseOut));
      ReadBackKeepsIff(n.(base := baseOut));
    }
  }

  predicate ReadsAs(text: string, number: nat, base: Base) {
    var read := ParseInt(text, None);
    read.Ok? && read.value.number == number && read.value.base == base
  }

  /** Hexadecimal "10" converted to hexadecimal is read back as ten. */
  lemma SameBaseIsMisread()
    ensures ParseInt("10", Some(Hexadecimal)) == Ok(NumberWithBase(16, true, Hexadecimal))
    ensures ToBase("10", Hexadecimal, Hexadecimal) == Ok("10")
    ensures ParseInt("10", None) == Ok(NumberWithBase(10, true, Decimal))
  {
    assert DropLast("10") == "1" && DropLast("1") == "";
    forall base: Base | base.Decimal? || base.Hexadecimal?
      ensures DigitsValue("10", base.Radix()) == Some(base.Radix())
    {
      assert DigitsValue("", base.Radix()) == Some(0) && DigitsValue("1", base.Radix()) == Some(1);
    }
    DetectPlain("10", 10);
  }

  lemma ReadBackKeepsIff(x: NumberWithBase)
    requires x.Valid()
    ensures ReadBack(x).base == x.base
    ensures ReadBack(x).number == x.number <==>
            x.isNonnegative || !x.base.Decimal? || x.number == 0 || x.number >= I256_MIN
  {
  }

  /** The word of a negative input of magnitude m is at least 2^255, or zero, exactly when m is at
      most 2^255. */
  lemma WordOfNegative(m: nat)
    requires m < U256
    ensures Negate(m) == 0 || Negate(m) >= I256_MIN <==> m <= I256_MIN
  {
  }

  // ---- Fixed point -----------------------------------------------------------------------

  function Zeros(n: nat): string {
    seq(n, _ => '0')
  }

  lemma {:induction false} LeadingZeros(n: nat, s: string)
    ensures DigitsValue(Zeros(n) + s, 10) == DigitsValue(s, 10)
    decreases n, |s|
  {
    if s != "" {
      assert DropLast(Zeros(n) + s) == Zeros(n) + DropLast(s);
      LeadingZeros(n, DropLast(s));
    } else if n > 0 {
      assert Zeros(n) + "" == Zeros(n) && DropLast(Zeros(n)) == Zeros(n - 1) + "";
      LeadingZeros(n - 1, "");
    }
  }

  /** A text of a decimal fraction: sign, whole part without needless zeros, point, and `decimals`
      digits. */
  ghost predicate Denotes(text: string, negative: bool, magnitude: nat, decimals: nat) {
    var sign := if negative then 1 else 0;
    var point := |text| - decimals - 1;
    && point > sign && text[point] == '.' && (point > sign + 1 ==> text[sign] != '0')
    && (negative <==> text[0] == '-')
    && AreDigits(text[sign..point], Decimal) && AreDigits(text[point + 1..], Decimal)
    && DigitsValue(text[sign..point] + text[point + 1..], 10) == Some(magnitude)
  }

  /** `NumberWithBase::parse_uint`, and the conversion to `usize`. */
  function ParseDecimals(s: string): Result<nat, ParseError> {
    match Detect(s)
    case Err(e) => Err(e)
    case Ok(base) =>
      var n := ParseUint(s, base);
      if n.None? then Err(BadNumber) else if n.value >= U64 then Err(TooManyDecimals) else Ok(n.value)
  }

  /** The text is one for the number that the value reads as, over 10^decimals. */
  ghost predicate IsFixedPoint(text: string, value: string, decimals: nat) {
    && ParseInt(value, None).Ok?
    && var n := ParseInt(value, None).value;
       Denotes(text, !n.isNonnegative, Magnitude(n), decimals)
  }

  /** `Cast::to_fixed_point`. */
  method ToFixedPoint(value: string, decimals: string) returns (r: Result<string, ParseError>)
    ensures if ParseInt(value, None).Err? then r == Err(ParseInt(value, None).error)
            else if ParseDecimals(decimals).Err? then r == Err(ParseDecimals(decimals).error)
            else r.Ok? && IsFixedPoint(r.value, value, ParseDecimals(decimals).value)
  {
    var number := ParseInt(value, None);
    if number.Err? {
      return Err(number.error);
    }
    var places := ParseDecimals(decimals);
    if places.Err? {
      return Err(places.error);
    }
    var text := PrintFixedPoint(number.value, places.value);
    return Ok(text);
  }

  method PrintFixedPoint(number: NumberWithBase, decimals: nat) returns (text: string)
    requires number.Valid()
    ensures Denotes(text, !number.isNonnegative, Magnitude(number), decimals)
  {
    var sign := if number.isNonnegative then "" else "-";
    var shown := Show(number.(base := Decimal));
    var value := if StartsWith(shown, "-") then shown[1..] else shown;
    StrippedDigits(number);
    TextRoundTrip(Magnitude(number), Decimal);
    TextIsPlain(Magnitude(number), Decimal);
    if decimals >= |value| {
      value := Pad(value, decimals, Magnitude(number));
    } else {
      InsertedPoint(value, decimals, Magnitude(number));
      value := value[..|value| - decimals] + "." + value[|value| - decimals..];
    }
    text := sign + value;
    SignedDenotes(number.isNonnegative, value, Magnitude(number), decimals);
  }

  /** A text denotes one magnitude at most. */
  lemma DenotesOne(text: string, negative: bool, m: nat, other: nat, decimals: nat)
    requires Denotes(text, negative, m, decimals)
    ensures Denotes(text, negative, other, decimals) <==> m == other
  {
  }

  lemma DenotesParts(whole: string, fraction: string, magnitude: nat)
    requires whole != "" && (|whole| > 1 ==> whole[0] != '0')
    requires AreDigits(whole, Decimal) && AreDigits(fraction, Decimal)
    requires DigitsValue(whole + fraction, 10) == Some(magnitude)
    ensures Denotes(whole + "." + fraction, false, magnitude, |fraction|)
  {
    var text := whole + "." + fraction;
    assert text[0] == whole[0] && whole[0] in whole;
    assert text[0..|whole|] == whole && text[|whole| + 1..] == fraction;
  }

  lemma InsertedPoint(digits: string, decimals: nat, magnitude: nat)
    requires |digits| > 1 ==> digits[0] != '0'
    requires AreDigits(digits, Decimal) && decimals < |digits| && DigitsValue(digits, 10) == Some(magnitude)
    ensures var point := |digits| - decimals;
            Denotes(digits[..point] + "." + digits[point..], false, magnitude, decimals)
  {
    var whole, fraction := digits[..|digits| - decimals], digits[|digits| - decimals..];
    assert whole + fraction == digits;
    DigitsOfParts(whole, fraction, Decimal);
    DenotesParts(whole, fraction, magnitude);
  }

  lemma DigitsOfParts(whole: string, fraction: string, base: Base)
    requires AreDigits(whole + fraction, base)
    ensures AreDigits(whole, base) && AreDigits(fraction, base)
  {
    assert forall c :: c in whole ==> c in whole + fraction;
    assert forall c :: c in fraction ==> c in whole + fraction;
  }

  lemma StrippedDigits(x: NumberWithBase)
    requires x.Valid()
    ensures var shown := Show(x.(base := Decimal));
            (if StartsWith(shown, "-") then shown[1..] else shown) == ToText(Magnitude(x), Decimal)
  {
    var digits := ToText(Magnitude(x), Decimal);
    ShowIs(x.(base := Decimal));
    DetectDecimal(Magnitude(x));
    assert ("-" + digits)[1..] == digits && ("-" + digits)[..1] == "-";
    assert digits[..1][0] == digits[0];
  }

  method Pad(digits: string, decimals: nat, ghost magnitude: nat) returns (value: string)
    requires AreDigits(digits, Decimal) && |digits| <= decimals && DigitsValue(digits, 10) == Some(magnitude)
    ensures Denotes(value, false, magnitude, decimals)
  {
    var padded := Zeros(decimals - |digits|) + digits;
    value := "0." + padded;
    assert "0" + padded == Zeros(decimals - |digits| + 1) + digits;
    LeadingZeros(decimals - |digits| + 1, digits);
    assert "0" + "." + padded == "0." + padded;
    DenotesParts("0", padded, magnitude);
  }

  lemma SignedDenotes(nonnegative: bool, value: string, magnitude: nat, decimals: nat)
    requires Denotes(value, false, magnitude, decimals)
    ensures Denotes((if nonnegative then "" else "-") + value, !nonnegative, magnitude, decimals)
  {
    if nonnegative {
      assert "" + value == value;
    } else {
      var point, text := |value| - decimals - 1, "-" + value;
      assert text[1..point + 1] == value[0..point] && text[point + 2..] == value[point + 1..];
      assert text[0] == '-' && text[point + 1] == value[point] && |text| - decimals - 1 == point + 1;
    }
  }

  /** A negative text of magnitude m, in any base, is printed as -m / 10^decimals if and only if m is
      at most 2^255. */
  lemma {:induction false} FixedPointIsFaithfulIff(s: string, decimals: nat, text: string)
    requires IsUnsigned(s) && ParseInt(s, None).Ok? && IsFixedPoint(text, "-" + s, decimals)
    ensures var m := ParseInt(s, None).value.number;
            && (Denotes(text, true, m, decimals) <==> m <= I256_MIN)
            && (m > I256_MIN ==> Denotes(text, true, U256 - m, decimals))
  {
    var n := ParseInt(s, None).value;
    NegativeOf(s);
    FixedPointOfWord("-" + s, n.number, n.base, decimals, text);
  }

  lemma FixedPointOfWord(value: string, m: nat, base: Base, decimals: nat, text: string)
    requires m < U256 && ParseInt(value, None) == Ok(NumberWithBase(Negate(m), false, base))
    requires IsFixedPoint(text, value, decimals)
    ensures Denotes(text, true, m, decimals) <==> m <= I256_MIN
    ensures m > I256_MIN ==> Denotes(text, true, U256 - m, decimals)
  {
    DenotesOne(text, true, Magnitude(NumberWithBase(Negate(m), false, base)), m, decimals);
  }

  /** A negative text of magnitude above 2^255 is changed by conversion to another base, decimal. */
  lemma {:induction false} BelowMinimumIsChanged(s: string)
    requires IsUnsigned(s) && ParseInt(s, None).Ok? && !ParseInt(s, None).value.base.Decimal?
    requires ParseInt(s, None).value.number > I256_MIN
    ensures var base := ParseInt(s, None).value.base;
            var word, text := ParseInt("-" + s, Some(base)), ToBase("-" + s, base, Decimal);
            word.Ok? && text.Ok? && !ReadsAs(text.value, word.value.number, Decimal)
  {
    var n := ParseInt(s, None).value;
    NegativeOf(s);
    WordBelowMinimumIsChanged("-" + s, n.number, n.base);
  }

  lemma WordBelowMinimumIsChanged(value: string, m: nat, base: Base)
    requires I256_MIN < m < U256 && !base.Decimal?
    requires ParseInt(value, None) == Ok(NumberWithBase(Negate(m), false, base))
    ensures var word, text := ParseInt(value, Some(base)), ToBase(value, base, Decimal);
            word.Ok? && text.Ok? && !ReadsAs(text.value, word.value.number, Decimal)
  {
    var n := NumberWithBase(Negate(m), false, base);
    assert ParseInt(value, Some(base)) == Ok(n) by {
      DetectedBase(value, base);
    }
    assert !(n.isNonnegative || n.number == 0 || n.number >= I256_MIN) by {
      WordOfNegative(m);
    }
    ConvertedNegative(value, n);
  }

  lemma ConvertedNegative(value: string, n: NumberWithBase)
    requires ParseInt(value, Some(n.base)) == Ok(n) && !n.base.Decimal?
    requires !(n.isNonnegative || n.number == 0 || n.number >= I256_MIN)
    ensures var text := ToBase(value, n.base, Decimal);
            text.Ok? && !ReadsAs(text.value, n.number, Decimal)
  {
    ToBaseKeepsWordIff(value, n.base, Decimal);
  }

  lemma DetectedBase(value: string, base: Base)
    requires ParseInt(value, None).Ok? && ParseInt(value, None).value.base == base
    ensures ParseInt(value, Some(base)) == ParseInt(value, None)
  {
  }

  /** For example -2^255 - 1, in hexadecimal for the conversion and in decimal for fixed point. */
  lemma TextsBelowMinimum(hex: string, decimal: string)
    requires hex == "0x" + ToText(I256_MIN + 1, Hexadecimal) && decimal == ToText(I256_MIN + 1, Decimal)
    ensures IsUnsigned(hex) && ParseInt(hex, None) == Ok(NumberWithBase(I256_MIN + 1, true, Hexadecimal))
    ensures IsUnsigned(decimal) && ParseInt(decimal, None) == Ok(NumberWithBase(I256_MIN + 1, true, Decimal))
  {
    assert ParseInt(decimal, None) == Ok(NumberWithBase(I256_MIN + 1, true, Decimal)) && IsUnsigned(decimal) by {
      DetectDecimal(I256_MIN + 1);
    }
    assert ParseInt(hex, None) == Ok(NumberWithBase(I256_MIN + 1, true, Hexadecimal)) by {
      ReadPrefixed(I256_MIN + 1, Hexadecimal);
    }
    assert hex[0] == '0';
  }

  /** Both commands change -2^255 - 1, the one from hexadecimal, the other from decimal. */
  lemma MinimumLessOneIsChanged(hex: string, decimal: string, decimals: nat, text: string)
    ensures hex == "0x" + ToText(I256_MIN + 1, Hexadecimal) ==>
      var word, converted := ParseInt("-" + hex, Some(Hexadecimal)), ToBase("-" + hex, Hexadecimal, Decimal);
      word.Ok? && converted.Ok? && !ReadsAs(converted.value, word.value.number, Decimal)
    ensures decimal == ToText(I256_MIN + 1, Decimal) && IsFixedPoint(text, "-" + decimal, decimals) ==>
      !Denotes(text, true, I256_MIN + 1, decimals)
  {
    if hex == "0x" + ToText(I256_MIN + 1, Hexadecimal) {
      TextsBelowMinimum(hex, ToText(I256_MIN + 1, Decimal));
      BelowMinimumIsChanged(hex);
    }
    if decimal == ToText(I256_MIN + 1, Decimal) && IsFixedPoint(text, "-" + decimal, decimals) {
      TextsBelowMinimum("0x" + ToText(I256_MIN + 1, Hexadecimal), decimal);
      FixedPointIsFaithfulIff(decimal, decimals, text);
    }
  }

  // ---- Texts not printed by the formatter ------------------------------------------------

  /** A number of decimals is read as an unsigned text is, up to 64 bits. */
  lemma DecimalsAgree(s: string)
    requires s == "" || IsUnsigned(s)
    ensures ParseDecimals(s) ==
            match ParseInt(s, None)
            case Err(e) => Err(e)
            case Ok(n) => if n.number >= U64 then Err(TooManyDecimals) else Ok(n.number)
  {
  }

  /** Printed in any base, a number of decimals is read back. */
  lemma DecimalsRoundTrip(d: nat, base: Base)
    requires d < U64
    ensures ParseDecimals(base.Prefix() + ToText(d, base)) == Ok(d)
  {
    ReadUnsigned(d, base);
    DecimalsAgree(base.Prefix() + ToText(d, base));
  }

  lemma ReadUnsigned(n: nat, base: Base)
    requires n < U256
    ensures IsUnsigned(base.Prefix() + ToText(n, base))
    ensures ParseInt(base.Prefix() + ToText(n, base), None) == Ok(NumberWithBase(n, true, base))
  {
    var s := base.Prefix() + ToText(n, base);
    if base.Decimal? {
      assert s == ToText(n, Decimal);
      assert IsUnsigned(s) by {
        DetectDecimal(n);
      }
      ReadDecimal(n);
    } else {
      assert s[0] == base.Prefix()[0] == '0';
      ReadPrefixed(n, base);
    }
  }

  lemma {:induction false} OnlyDigitsHaveAValue(s: string, radix: nat, i: nat)
    requires i < |s| && s[i] != '_' && DigitValue(s[i], radix) == None
    ensures DigitsValue(s, radix) == None
  {
    if i < |s| - 1 {
      OnlyDigitsHaveAValue(DropLast(s), radix, i);
    }
  }

  /** A number of decimals must not be signed. */
  lemma SignedDecimalsAreRefused(s: string)
    requires s != "" && (s[0] == '+' || s[0] == '-')
    ensures ParseDecimals(s) == if Detect(s).Err? then Err(Detect(s).error) else Err(BadNumber)
  {
    if Detect(s).Ok? {
      assert StripPrefix(s) == s by {
        assert |s| >= 2 ==> s[..2][0] == s[0];
      }
      OnlyDigitsHaveAValue(s, Detect(s).value.Radix(), 0);
    }
  }

  /** For every value from -2^255 below 2^256 and every number of decimals, each written in any base:
      the text that fixed point prints denotes the value over that power of ten. */
  lemma {:induction false} FixedPointOfTexts(v: int, d: nat, base: Base, decimalsBase: Base, s: string,
                                             text: string)
    requires -(I256_MIN as int) <= v < U256 && d < U64
    ensures ParseDecimals(decimalsBase.Prefix() + ToText(d, decimalsBase)) == Ok(d)
    ensures s == base.Prefix() + ToText(if v < 0 then -v else v, base) &&
            IsFixedPoint(text, if v < 0 then "-" + s else s, d) ==>
            Denotes(text, v < 0, if v < 0 then -v else v, d)
  {
    DecimalsRoundTrip(d, decimalsBase);
    var m := if v < 0 then -v else v;
    if s == base.Prefix() + ToText(m, base) && IsFixedPoint(text, if v < 0 then "-" + s else s, d) {
      FixedPointOfText(m, v < 0, base, d, s, text);
    }
  }

  lemma FixedPointOfText(m: nat, negative: bool, base: Base, d: nat, s: string, text: string)
    requires m < U256 && (negative ==> m <= I256_MIN) && s == base.Prefix() + ToText(m, base)
    ensures IsFixedPoint(text, if negative then "-" + s else s, d) ==> Denotes(text, negative, m, d)
  {
    assert IsUnsigned(s) && ParseInt(s, None) == Ok(NumberWithBase(m, true, base)) by {
      ReadUnsigned(m, base);
    }
    if negative && IsFixedPoint(text, "-" + s, d) {
      FixedPointIsFaithfulIff(s, d, text);
    }
  }

  /** A plus sign is read over. */
  lemma PlusOf(s: string, base: Option<Base>)
    requires s == "" || IsUnsigned(s)
    ensures ParseInt("+" + s, base) == ParseInt(s, base)
  {
    assert ("+" + s)[1..] == s;
  }

  /** With the base given, digits are read with or without its prefix, and with either sign. */
  lemma ReadInBase(n: nat, base: Base, prefixed: bool)
    requires n < U256
    ensures var s := (if prefixed then base.Prefix() else "") + ToText(n, base);
            && ParseInt(s, Some(base)) == Ok(NumberWithBase(n, true, base))
            && ParseInt("+" + s, Some(base)) == Ok(NumberWithBase(n, true, base))
            && ParseInt("-" + s, Some(base)) == Ok(NumberWithBase(Negate(n), false, base))
  {
    var digits, s := ToText(n, base), (if prefixed then base.Prefix() else "") + ToText(n, base);
    assert IsUnsigned(s) && ParseUint(s, base) == Some(n) by {
      UnsignedInBase(n, base, prefixed);
    }
    SignedInBase(s, n, base);
  }

  lemma SignedInBase(s: string, n: nat, base: Base)
    requires IsUnsigned(s) && n < U256 && ParseUint(s, base) == Some(n)
    ensures ParseInt(s, Some(base)) == Ok(NumberWithBase(n, true, base))
    ensures ParseInt("+" + s, Some(base)) == Ok(NumberWithBase(n, true, base))
    ensures ParseInt("-" + s, Some(base)) == Ok(NumberWithBase(Negate(n), false, base))
  {
    assert ("+" + s)[1..] == s && ("-" + s)[1..] == s;
  }

  lemma UnsignedInBase(n: nat, base: Base, prefixed: bool)
    requires n < U256
    ensures var s := (if prefixed then base.Prefix() else "") + ToText(n, base);
            IsUnsigned(s) && ParseUint(s, base) == Some(n)
  {
    if prefixed && !base.Decimal? {
      PrefixedInBase(n, base, ToText(n, base));
    } else {
      assert (if prefixed then base.Prefix() else "") + ToText(n, base) == ToText(n, base);
      BareText(n, base);
    }
  }

  lemma PrefixedInBase(n: nat, base: Base, digits: string)
    requires n < U256 && !base.Decimal? && digits == ToText(n, base)
    ensures IsUnsigned(base.Prefix() + digits) && ParseUint(base.Prefix() + digits, base) == Some(n)
  {
    TextRoundTrip(n, base);
    var s := base.Prefix() + digits;
    assert s[2..] == digits && s[..2] == base.Prefix();
    PrefixOf(base, s);
  }

  lemma BareText(n: nat, base: Base)
    requires n < U256
    ensures IsUnsigned(ToText(n, base)) && StripPrefix(ToText(n, base)) == ToText(n, base)
    ensures ParseUint(ToText(n, base), base) == Some(n)
  {
    TextRoundTrip(n, base);
    TextIsPlain(n, base);
    BareDigits(ToText(n, base));
  }

  lemma BareDigits(s: string)
    requires s != "" && (|s| > 1 ==> s[0] != '0') && forall c :: c in s ==> '0' <= c <= '9' || 'a' <= c <= 'f'
    ensures IsUnsigned(s) && StripPrefix(s) == s
  {
    assert s[0] in s;
    assert |s| >= 2 ==> s[..2][0] == s[0];
  }

  /** Hexadecimal digits that cannot be decimal ones need no prefix. */
  lemma PlainHexIsDetected(n: nat)
    requires n < U256 && DigitsValue(ToText(n, Hexadecimal), 10) == None
    ensures ParseInt(ToText(n, Hexadecimal), None) == Ok(NumberWithBase(n, true, Hexadecimal))
  {
    PlainHexOf(ToText(n, Hexadecimal), n);
  }

  lemma PlainHexOf(s: string, n: nat)
    requires n < U256 && s == ToText(n, Hexadecimal) && DigitsValue(s, 10) == None
    ensures ParseInt(s, None) == Ok(NumberWithBase(n, true, Hexadecimal))
  {
    BareHex(s, n);
    HexWithoutPrefix(s, n);
  }

  lemma BareHex(s: string, n: nat)
    requires n < U256 && s == ToText(n, Hexadecimal)
    ensures IsUnsigned(s) && StripPrefix(s) == s && DigitsValue(s, 16) == Some(n)
  {
    BareText(n, Hexadecimal);
    TextRoundTrip(n, Hexadecimal);
  }

  predicate HasLetter(s: string) {
    exists i :: 0 <= i < |s| && 'a' <= s[i] <= 'f'
  }

  /** A letter makes sure of that. */
  lemma LetterIsNotDecimal(s: string)
    requires HasLetter(s)
    ensures DigitsValue(s, 10) == None
  {
    var i :| 0 <= i < |s| && 'a' <= s[i] <= 'f';
    OnlyDigitsHaveAValue(s, 10, i);
  }

  lemma HexWithoutPrefix(s: string, n: nat)
    requires IsUnsigned(s) && StripPrefix(s) == s && n < U256
    requires DigitsValue(s, 10) == None && DigitsValue(s, 16) == Some(n)
    ensures ParseInt(s, None) == Ok(NumberWithBase(n, true, Hexadecimal))
  {
    NoPrefix(s);
    assert ParseU256(s, Decimal) == None && ParseU256(s, Hexadecimal) == Some(n);
  }

  lemma NoPrefix(s: string)
    requires IsUnsigned(s) && StripPrefix(s) == s
    ensures !StartsWith(s, "0b") && !StartsWith(s, "0o") && !StartsWith(s, "0x")
  {
    assert |s| >= 2 ==> s[2..] != s;
  }

  lemma {:induction false} MoreInSixteen(s: string)
    requires AreDigits(s, Decimal)
    ensures DigitsValue(s, 10).Some? && DigitsValue(s, 16).Some?
    ensures DigitsValue(s, 16).value >= DigitsValue(s, 10).value
  {
    if s != "" {
      assert Last(s) in s && forall c :: c in DropLast(s) ==> c in s;
      MoreInSixteen(DropLast(s));
    }
  }

  /** Underscores between digits do not count. */
  lemma {:induction false} UnderscoresDoNotCount(a: string, b: string, radix: nat)
    ensures DigitsValue(a + "_" + b, radix) == DigitsValue(a + b, radix)
  {
    if b == "" {
      assert a + "" == a && DropLast(a + "_" + "") == a;
    } else {
      UnderscoresDoNotCount(a, DropLast(b), radix);
      assert DropLast(a + "_" + b) == a + "_" + DropLast(b) && DropLast(a + b) == a + DropLast(b);
    }
  }

  /** A prefix in upper case is read over when the base is given, but not detected. */
  lemma UpperCasePrefix(n: nat, base: Base)
    requires n < U256 && !base.Decimal?
    ensures var s := UpperPrefix(base) + ToText(n, base);
            ParseInt(s, Some(base)) == Ok(NumberWithBase(n, true, base))
    ensures !base.Binary? ==> ParseInt(UpperPrefix(base) + ToText(n, base), None).Err?
  {
    UpperCasePrefixOf(UpperPrefix(base) + ToText(n, base), ToText(n, base), n, base);
  }

  lemma UpperCasePrefixOf(s: string, digits: string, n: nat, base: Base)
    requires n < U256 && !base.Decimal? && s == UpperPrefix(base) + digits && digits == ToText(n, base)
    ensures ParseInt(s, Some(base)) == Ok(NumberWithBase(n, true, base))
    ensures !base.Binary? ==> ParseInt(s, None).Err?
  {
    assert s[2..] == digits && s[..2] == UpperPrefix(base);
    assert DigitsValue(digits, base.Radix()) == Some(n) by {
      TextRoundTrip(n, base);
    }
    assert s[0] == '0' && StripPrefix(s) == digits;
    if !base.Binary? {
      UndetectedPrefix(s, base);
    }
  }

  function UpperPrefix(base: Base): string {
    match base case Binary => "0B" case Octal => "0O" case Decimal => "" case Hexadecimal => "0X"
  }

  lemma UndetectedPrefix(s: string, base: Base)
    requires |s| >= 2 && !base.Decimal? && s[..2] == UpperPrefix(base)
    ensures s[0] == '0' && !StartsWith(s, "0b") && !StartsWith(s, "0o") && !StartsWith(s, "0x")
    ensures DigitsValue(s, 10) == None && (!base.Binary? ==> DigitsValue(s, 16) == None)
    ensures Detect(s) == if ParseU256(s, Hexadecimal).Some? then Ok(Hexadecimal) else Err(BadBase)
  {
    assert s[0] == s[..2][0] && s[1] == s[..2][1];
    OnlyDigitsHaveAValue(s, 10, 1);
    if !base.Binary? {
      OnlyDigitsHaveAValue(s, 16, 1);
    }
  }

  /** An upper-case binary prefix makes hexadecimal digits of its own: the text is detected as
      hexadecimal, its prefix is read over all the same, and the binary digits are read in base 16. */
  lemma UpperBinaryIsMisread(digits: string)
    requires ParseU256("0B" + digits, Hexadecimal).Some? && ParseU256(digits, Hexadecimal).Some?
    ensures ParseInt("0B" + digits, None) ==
            Ok(NumberWithBase(ParseU256(digits, Hexadecimal).value, true, Hexadecimal))
  {
    var s := "0B" + digits;
    assert s[..2] == "0B" && s[2..] == digits;
    UndetectedPrefix(s, Binary);
  }

  /** No digits at all are zero, unless a prefix promises some. */
  lemma EmptyTexts(base: Base)
    ensures ParseInt("", None) == Ok(NumberWithBase(0, true, Decimal))
    ensures !base.Decimal? ==> ParseInt(base.Prefix(), None) == Err(BadBase)
  {
    if !base.Decimal? {
      var s := base.Prefix();
      assert s[..2] == s && s[2..] == "";
      PrefixOf(base, s);
    }
  }

  /** What does not fit 256 bits is refused. */
  lemma TooLargeIsRefused(n: nat, base: Base)
    requires n >= U256
    ensures ParseInt(base.Prefix() + ToText(n, base), None).Err?
  {
    var digits := ToText(n, base);
    assert digits != "" && AreDigits(digits, base) && DigitsValue(digits, base.Radix()) == Some(n) by {
      TextRoundTrip(n, base);
    }
    if base.Decimal? {
      assert "" + digits == digits;
      assert digits[0] != '0' || |digits| == 1 by {
        TextIsPlain(n, base);
      }
      DigitsTooLarge(digits);
    } else {
      PrefixedTooLarge(digits, base.Prefix() + digits, base);
    }
  }

  lemma DigitsTooLarge(s: string)
    requires s != "" && AreDigits(s, Decimal) && (s[0] != '0' || |s| == 1)
    requires DigitsValue(s, 10).Some? && DigitsValue(s, 10).value >= U256
    ensures ParseInt(s, None).Err?
  {
    NotSigns(s, Decimal);
    MoreInSixteen(s);
    assert ParseU256(s, Decimal) == None && ParseU256(s, Hexadecimal) == None;
  }

  lemma PrefixedTooLarge(digits: string, s: string, base: Base)
    requires !base.Decimal? && s == base.Prefix() + digits && digits != ""
    requires DigitsValue(digits, base.Radix()).Some? && DigitsValue(digits, base.Radix()).value >= U256
    ensures ParseInt(s, None).Err?
  {
    assert s[2..] == digits && s[..2] == base.Prefix();
    PrefixOf(base, s);
  }

  /** A text that does not parse in its base is not converted, unless it needs no conversion. */
  lemma ToBaseFailsIff(value: string, baseIn: Base, baseOut: Base)
    ensures ToBase(value, baseIn, baseOut).Err? <==> baseIn != baseOut && ParseInt(value, Some(baseIn)).Err?
    ensures ToBase(value, baseIn, baseOut).Err? ==>
      ToBase(value, baseIn, baseOut).error == ParseInt(value, Some(baseIn)).error
  {
  }

  /** The words are those of 64 and 256 bits. */
  lemma Words()
    ensures U64 == 0x1_0000_0000 * 0x1_0000_0000 && U256 == U64 * U64 * U64 * U64 && U256 == 2 * I256_MIN
  {
  }
}
