/** Parsing a block number out of a JSON-RPC result, `parseBlockNumber` in `internal/chain/health.go`. */
module BlockNumbers {
  import opened Common

  datatype ParseError = SyntaxError | RangeError

  type Parse = Result<int, ParseError>

  // ---------------------------------------------------------------- what the result means

  function TrimLeft(s: string): string {
    if s != "" && s[0] == '"' then TrimLeft(s[1..]) else s
  }

  function TrimRight(s: string): string {
    if s != "" && s[|s| - 1] == '"' then TrimRight(s[..|s| - 1]) else s
  }

  function WithoutPrefix(s: string): string {
    if |s| >= 2 && s[0] == '0' && s[1] == 'x' then s[2..] else s
  }

  /** The digits of a raw result: quotes off both ends, then one `0x` off the front. */
  function Stripped(raw: string): string {
    WithoutPrefix(TrimRight(TrimLeft(raw)))
  }

  predicate IsHexDigit(c: char) {
    '0' <= c <= '9' || 'a' <= c <= 'f' || 'A' <= c <= 'F'
  }

  function DigitValue(c: char): (v: nat)
    requires IsHexDigit(c)
    ensures v < 16
  {
    if '0' <= c <= '9' then c as int - '0' as int
    else if 'a' <= c <= 'f' then c as int - 'a' as int + 10
    else c as int - 'A' as int + 10
  }

  predicate IsHex(s: string) {
    forall i | 0 <= i < |s| :: IsHexDigit(s[i])
  }

  function HexValue(s: string): nat
    requires IsHex(s)
  {
    if s == "" then 0 else HexValue(s[..|s| - 1]) * 16 + DigitValue(s[|s| - 1])
  }

  predicate IsDecimal(s: string) {
    s != "" && forall i | 0 <= i < |s| :: '0' <= s[i] <= '9'
  }

  function DecimalValue(s: string): nat
    requires forall i | 0 <= i < |s| :: '0' <= s[i] <= '9'
  {
    if s == "" then 0 else DecimalValue(s[..|s| - 1]) * 10 + (s[|s| - 1] as int - '0' as int)
  }

  predicate StartsWithSign(s: string) {
    s != "" && (s[0] == '+' || s[0] == '-')
  }

  /** A base-10, 64-bit `strconv.ParseInt`. */
  function ParseInt(s: string): Parse {
    var digits := if StartsWithSign(s) then s[1..] else s;
    if !IsDecimal(digits) then Err(SyntaxError)
    else
      var value := if s[0] == '-' then -(DecimalValue(digits) as int) else DecimalValue(digits);
      if IsInt64(value) then Ok(value) else Err(RangeError)
  }

  /** What parsing yields: zero for no digits; the value of a hexadecimal string, wrapped to 64 bits in
      two's complement; otherwise whatever the untrimmed input is as a decimal number. */
  function Meaning(raw: string): Parse {
    var digits := Stripped(raw);
    if digits == "" then Ok(0)
    else if IsHex(digits) then Ok(Int64(HexValue(digits)))
    else ParseInt(raw)
  }

  // ---------------------------------------------------------------- the parser

  /** `height << 8 | b` on 64 bits: the shift leaves eight zero bits, so the OR adds. */
  function ShiftOr(height: int, b: nat): int {
    Int64(height * 256) + b
  }

  lemma OrAfterShiftAdds(height: bv64, b: bv64)
    requires b < 256
    ensures (height << 8) | b == (height << 8) + b
  {}

  lemma ShiftOrIsModular(x: int, b: nat)
    requires b < 256
    ensures ShiftOr(Int64(x), b) == Int64(x * 256 + b)
  {
    var q := (x + TWO_63) / TWO_64;
    assert Int64(x) == x - q * TWO_64;
    var p := (x * 256 + TWO_63) / TWO_64;
    assert Int64(x * 256) == x * 256 - p * TWO_64;
    QuotientIs(Int64(x) * 256 + TWO_63, TWO_64, p - q * 256, x * 256 + TWO_63 - p * TWO_64);
    assert x * 256 + TWO_63 - p * TWO_64 <= TWO_64 - 256;
    QuotientIs(x * 256 + b + TWO_63, TWO_64, p, x * 256 + b + TWO_63 - p * TWO_64);
  }

  lemma TwoDigits(s: string, i: nat)
    requires IsHex(s) && i + 2 <= |s|
    ensures HexValue(s[..i + 2]) == HexValue(s[..i]) * 256 + (DigitValue(s[i]) * 16 + DigitValue(s[i + 1]))
  {
    assert s[..i + 2][..i + 1] == s[..i + 1] && s[..i + 1][..i] == s[..i];
  }

  lemma {:induction false} LeadingZero(s: string)
    requires IsHex(s)
    ensures IsHex("0" + s) && HexValue("0" + s) == HexValue(s)
  {
    var z := "0" + s;
    assert forall i | 0 < i < |z| :: z[i] == s[i - 1];
    if s == "" {
      assert z[..0] == "";
    } else {
      LeadingZero(s[..|s| - 1]);
      assert z[..|z| - 1] == "0" + s[..|s| - 1];
    }
  }

  /** `hex.DecodeString` on a string of even length: its bytes, or nothing if a digit is invalid. */
  method DecodeString(s: string) returns (bytes: Option<seq<nat>>)
    requires |s| % 2 == 0
    ensures bytes.Some? <==> IsHex(s)
    ensures bytes.Some? ==> |bytes.value| == |s| / 2 && forall i | 0 <= i < |bytes.value| ::
              bytes.value[i] == DigitValue(s[2 * i]) * 16 + DigitValue(s[2 * i + 1])
  {
    var decoded: seq<nat> := [];
    while 2 * |decoded| < |s|
      invariant 2 * |decoded| <= |s|
      invariant forall i | 0 <= i < 2 * |decoded| :: IsHexDigit(s[i])
      invariant forall i | 0 <= i < |decoded| :: decoded[i] == DigitValue(s[2 * i]) * 16 + DigitValue(s[2 * i + 1])
    {
      var high, low := s[2 * |decoded|], s[2 * |decoded| + 1];
      if !IsHexDigit(high) || !IsHexDigit(low) {
        return None;
      }
      decoded := decoded + [DigitValue(high) * 16 + DigitValue(low)];
    }
    bytes := Some(decoded);
  }

  /** The shifting accumulator over the decoded bytes. */
  method Accumulate(s: string, bytes: seq<nat>) returns (height: int)
    requires IsHex(s) && 2 * |bytes| == |s|
    requires forall i | 0 <= i < |bytes| :: bytes[i] == DigitValue(s[2 * i]) * 16 + DigitValue(s[2 * i + 1])
    ensures height == Int64(HexValue(s))
  {
    height := 0;
    for i := 0 to |bytes|
      invariant height == Int64(HexValue(s[..2 * i]))
    {
      TwoDigits(s, 2 * i);
      ShiftOrIsModular(HexValue(s[..2 * i]), bytes[i]);
      height := ShiftOr(height, bytes[i]);
    }
    assert s[..2 * |bytes|] == s;
  }

  lemma PaddingKeepsHex(s: string)
    ensures IsHex("0" + s) <==> IsHex(s)
    ensures IsHex(s) ==> HexValue("0" + s) == HexValue(s)
  {
    var z := "0" + s;
    assert forall i | 0 <= i < |s| :: s[i] == z[i + 1];
    if IsHex(s) {
      LeadingZero(s);
    }
  }

  method ParseBlockNumber(raw: string) returns (r: Parse)
    ensures r == Meaning(raw)
  {
    var hexStr := Stripped(raw);
    if hexStr == "" {
      return Ok(0);
    }
    PaddingKeepsHex(hexStr);
    if |hexStr| % 2 != 0 {
      hexStr := "0" + hexStr;
    }
    var bytes := DecodeString(hexStr);
    if bytes.None? {
      return ParseInt(raw);
    }
    var height := Accumulate(hexStr, bytes.value);
    r := Ok(height);
  }

  // ---------------------------------------------------------------- round trip

  function Digit(v: nat): (c: char)
    requires v < 16
    ensures IsHexDigit(c) && DigitValue(c) == v
  {
    "0123456789abcdef"[v]
  }

  /** The shortest hexadecimal digits of `n`; zero is "0". */
  function HexDigits(n: nat): (s: string)
    ensures s != "" && IsHex(s) && (n > 0 ==> s[0] != '0')
  {
    if n < 16 then [Digit(n)] else HexDigits(n / 16) + [Digit(n % 16)]
  }

  lemma {:induction false} HexDigitsValue(n: nat)
    ensures HexValue(HexDigits(n)) == n
  {
    var s := HexDigits(n);
    if n < 16 {
      assert s[..0] == "";
    } else {
      HexDigitsValue(n / 16);
      assert s[..|s| - 1] == HexDigits(n / 16);
    }
  }

  /** A JSON string. */
  function Quoted(s: string): string {
    "\"" + s + "\""
  }

  lemma StripQuoted(s: string)
    requires s != "" && s[0] != '"' && s[|s| - 1] != '"'
    ensures Stripped(Quoted(s)) == WithoutPrefix(s)
  {
    var q := Quoted(s);
    assert q[1..] == s + "\"" && (s + "\"")[0] == s[0];
    assert TrimLeft(q) == TrimLeft(q[1..]) == s + "\"";
    assert (s + "\"")[..|s|] == s;
    assert TrimRight(s + "\"") == TrimRight(s) == s;
  }

  /** Any non-empty hexadecimal string, upper or lower case, of odd or even length, with or without the
      prefix, yields its value modulo 2^64 in two's complement. */
  lemma HexParses(digits: string, prefix: bool)
    requires digits != "" && IsHex(digits)
    ensures Meaning(Quoted(if prefix then "0x" + digits else digits)) == Ok(Int64(HexValue(digits)))
  {
    var s := if prefix then "0x" + digits else digits;
    StripQuoted(s);
    if prefix {
      assert s[2..] == digits;
    }
  }

  /** The Quantity encoding of a number, as a JSON string. */
  function Quantity(n: nat): string {
    Quoted("0x" + HexDigits(n))
  }

  /** Parsing the encoding of any number gives the number modulo 2^64 in two's complement. */
  lemma QuantityParses(n: nat)
    ensures Meaning(Quantity(n)) == Ok(Int64(n))
  {
    HexDigitsValue(n);
    HexParses(HexDigits(n), true);
  }

  /** Parsing inverts the encoding of every 63-bit number, and of no other. */
  lemma RoundTrip(n: nat)
    ensures Meaning(Quantity(n)) == Ok(n) <==> n < TWO_63
  {
    QuantityParses(n);
    if n < TWO_63 {
      Int64Identity(n);
    }
  }

  lemma Int64Identity(x: int)
    requires IsInt64(x)
    ensures Int64(x) == x
  {}

  /** Wrapping yields the one 64-bit number congruent to `x` modulo 2^64. */
  lemma Int64IsCongruent(x: int)
    ensures IsInt64(Int64(x)) && (x - Int64(x)) % TWO_64 == 0
  {
    var q := (x + TWO_63) / TWO_64;
    QuotientIs(x - Int64(x), TWO_64, q, 0);
  }

  lemma Int64Wraps(x: int)
    requires TWO_63 <= x < TWO_64
    ensures Int64(x) == x - TWO_64
  {}

  // ---------------------------------------------------------------- every input

  function Quotes(k: nat): string {
    Times('"', k, "")
  }

  /** Hexadecimal digits, perhaps none, behind at most one `0x`, with any number of quotes around them. */
  predicate Reads(raw: string, j: nat, prefix: bool, digits: string, k: nat) {
    IsHex(digits) && raw == Quotes(j) + ((if prefix then "0x" + digits else digits) + Quotes(k))
  }

  lemma {:induction false} QuoteAtEnd(k: nat)
    ensures Quotes(k + 1) == Quotes(k) + "\""
  {
    if k > 0 {
      QuoteAtEnd(k - 1);
    }
  }

  lemma {:induction false} LeftQuotesGo(j: nat, s: string)
    ensures TrimLeft(Quotes(j) + s) == TrimLeft(s)
  {
    if j == 0 {
      assert Quotes(j) + s == s;
    } else {
      LeftQuotesGo(j - 1, s);
      assert (Quotes(j) + s)[1..] == Quotes(j - 1) + s;
    }
  }

  lemma {:induction false} RightQuotesGo(s: string, k: nat)
    ensures TrimRight(s + Quotes(k)) == TrimRight(s)
  {
    if k == 0 {
      assert s + Quotes(k) == s;
    } else {
      QuoteAtEnd(k - 1);
      RightQuotesGo(s, k - 1);
      var t := s + Quotes(k);
      assert t[..|t| - 1] == s + Quotes(k - 1);
    }
  }

  lemma StripsToDigits(raw: string, j: nat, prefix: bool, digits: string, k: nat)
    requires Reads(raw, j, prefix, digits, k)
    ensures Stripped(raw) == digits
  {
    var body := if prefix then "0x" + digits else digits;
    LeftQuotesGo(j, body + Quotes(k));
    if body == "" {
      assert body + Quotes(k) == Quotes(k) + "";
      LeftQuotesGo(k, "");
    } else {
      assert (body + Quotes(k))[0] == body[0] != '"';
      RightQuotesGo(body, k);
      assert body[|body| - 1] != '"';
    }
  }

  lemma {:induction false} LeftQuotes(s: string) returns (j: nat)
    ensures s == Quotes(j) + TrimLeft(s)
  {
    j := 0;
    if s != "" && s[0] == '"' {
      j := LeftQuotes(s[1..]);
      j := j + 1;
    }
  }

  lemma {:induction false} RightQuotes(s: string) returns (k: nat)
    ensures s == TrimRight(s) + Quotes(k)
  {
    k := 0;
    if s != "" && s[|s| - 1] == '"' {
      k := RightQuotes(s[..|s| - 1]);
      QuoteAtEnd(k);
      k := k + 1;
      assert s == s[..|s| - 1] + "\"";
    }
  }

  /** Every input that is read as hexadecimal has this form. */
  lemma HexHasForm(raw: string) returns (j: nat, prefix: bool, k: nat)
    requires IsHex(Stripped(raw))
    ensures Reads(raw, j, prefix, Stripped(raw), k)
  {
    j := LeftQuotes(raw);
    k := RightQuotes(TrimLeft(raw));
    var body := TrimRight(TrimLeft(raw));
    prefix := |body| >= 2 && body[0] == '0' && body[1] == 'x';
    assert prefix ==> body == "0x" + body[2..];
  }

  predicate SignedDecimal(raw: string) {
    StartsWithSign(raw) && IsDecimal(raw[1..])
  }

  function SignedValue(raw: string): int
    requires SignedDecimal(raw)
  {
    if raw[0] == '-' then -(DecimalValue(raw[1..]) as int) else DecimalValue(raw[1..])
  }

  /** What every input means. Of the given form: its digits' value modulo 2^64, in two's complement. A sign and
      decimal digits: their value, if it fits 64 bits. Anything else is a syntax error. */
  lemma EveryInput(raw: string)
    ensures forall j, prefix, digits, k | Reads(raw, j, prefix, digits, k) :: Meaning(raw) == Ok(Int64(HexValue(digits)))
    ensures SignedDecimal(raw) ==> Meaning(raw) == if IsInt64(SignedValue(raw)) then Ok(SignedValue(raw)) else Err(RangeError)
    ensures Meaning(raw) == Err(SyntaxError) <==> !SignedDecimal(raw) && forall j, prefix, digits, k :: !Reads(raw, j, prefix, digits, k)
  {
    forall j, prefix, digits, k | Reads(raw, j, prefix, digits, k)
      ensures IsHex(Stripped(raw)) && Meaning(raw) == Ok(Int64(HexValue(digits)))
    {
      StripsToDigits(raw, j, prefix, digits, k);
      assert Int64(0) == 0;
    }
    DecimalFallbackIff(raw);
    if IsHex(Stripped(raw)) {
      var j, prefix, k := HexHasForm(raw);
    }
    if SignedDecimal(raw) {
      SignedIsNotHex(raw);
    } else if IsDecimal(raw) {
      UnsignedIsHex(raw);
    }
  }

  lemma SignedIsNotHex(raw: string)
    requires SignedDecimal(raw)
    ensures !IsHex(Stripped(raw))
  {
    assert raw[1..][|raw| - 2] == raw[|raw| - 1];
    assert TrimLeft(raw) == raw && TrimRight(raw) == raw;
    assert !IsHexDigit(Stripped(raw)[0]);
  }

  lemma UnsignedIsHex(raw: string)
    requires !SignedDecimal(raw) && IsDecimal(raw)
    ensures IsHex(Stripped(raw))
  {
    NothingToTrim(raw);
  }

  /** The decimal digits of `n`. */
  function DecimalDigits(n: nat): (s: string)
    ensures IsDecimal(s)
  {
    if n < 10 then ["0123456789"[n]] else DecimalDigits(n / 10) + ["0123456789"[n % 10]]
  }

  lemma {:induction false} DecimalDigitsValue(n: nat)
    ensures DecimalValue(DecimalDigits(n)) == n
  {
    var s := DecimalDigits(n);
    if n < 10 {
      assert s[..0] == "";
    } else {
      DecimalDigitsValue(n / 10);
      assert s[..|s| - 1] == DecimalDigits(n / 10);
    }
  }

  /** A decimal number with its sign. */
  function SignedDigits(x: int): (s: string)
    ensures SignedDecimal(s)
  {
    var s := if x < 0 then "-" + DecimalDigits(-x) else "+" + DecimalDigits(x);
    assert s[1..] == DecimalDigits(if x < 0 then -x else x);
    s
  }

  /** Parsing inverts the printing of every 64-bit number in decimal, with its sign, and refuses any other. */
  lemma DecimalRoundTrip(x: int)
    ensures Meaning(SignedDigits(x)) == if IsInt64(x) then Ok(x) else Err(RangeError)
  {
    var s := SignedDigits(x);
    DecimalDigitsValue(if x < 0 then -x else x);
    assert s[1..] == DecimalDigits(if x < 0 then -x else x);
    assert SignedValue(s) == x;
    EveryInput(s);
  }

  function UpperCased(s: string): (u: string)
    ensures |u| == |s|
    ensures forall i | 0 <= i < |s| ::
              u[i] == if 'a' <= s[i] <= 'f' then (s[i] as int - 'a' as int + 'A' as int) as char else s[i]
  {
    seq(|s|, i requires 0 <= i < |s| =>
      if 'a' <= s[i] <= 'f' then (s[i] as int - 'a' as int + 'A' as int) as char else s[i])
  }

  /** Upper-case digits have the same values. */
  lemma {:induction false} CaseDoesNotMatter(s: string)
    requires IsHex(s)
    ensures IsHex(UpperCased(s)) && HexValue(UpperCased(s)) == HexValue(s)
  {
    if s != "" {
      CaseDoesNotMatter(s[..|s| - 1]);
      assert UpperCased(s)[..|s| - 1] == UpperCased(s[..|s| - 1]);
    }
  }

  // ---------------------------------------------------------------- the fallback and the reports

  lemma NothingToTrim(s: string)
    requires forall i | 0 <= i < |s| :: '0' <= s[i] <= '9'
    ensures Stripped(s) == s
  {
    assert TrimLeft(s) == s && TrimRight(s) == s;
  }

  /** The decimal fallback is reached and succeeds exactly on a sign followed by decimal digits in range:
      an unsigned decimal number is read as hexadecimal. */
  lemma DecimalFallbackIff(raw: string)
    ensures !IsHex(Stripped(raw)) && Meaning(raw).Ok?
            <==> StartsWithSign(raw) && IsDecimal(raw[1..])
                 && IsInt64(if raw[0] == '-' then -(DecimalValue(raw[1..]) as int) else DecimalValue(raw[1..]))
  {
    if StartsWithSign(raw) && IsDecimal(raw[1..]) {
      assert raw[1..][|raw| - 2] == raw[|raw| - 1];
      assert TrimLeft(raw) == raw && TrimRight(raw) == raw;
      assert !IsHexDigit(Stripped(raw)[0]);
    } else if ParseInt(raw).Ok? {
      NothingToTrim(raw);
    }
  }

  /** The height a health check reports: zero for an endpoint that did not answer, answered with an error,
      or whose result does not parse. */
  function ReportedHeight(result: Option<string>): int {
    if result.Some? && Meaning(result.value).Ok? then Meaning(result.value).value else 0
  }

  lemma QuantityReports(n: nat)
    ensures ReportedHeight(Some(Quantity(n))) == Int64(n)
  {
    QuantityParses(n);
  }

  /** Whatever the backend sends, the report is a 64-bit number; it is non-negative for every result of at
      most fifteen hexadecimal digits. */
  lemma ReportsAreInt64(result: Option<string>)
    ensures IsInt64(ReportedHeight(result))
    ensures result.Some? && IsHex(Stripped(result.value)) && |Stripped(result.value)| <= 15 ==> ReportedHeight(result) >= 0
  {
    if result.Some? && IsHex(Stripped(result.value)) && |Stripped(result.value)| <= 15 {
      ShortHexIsSmall(Stripped(result.value));
    }
  }

  function Power16(n: nat): nat {
    if n == 0 then 1 else 16 * Power16(n - 1)
  }

  lemma {:induction false} HexBelowPower(s: string)
    requires IsHex(s)
    ensures HexValue(s) < Power16(|s|)
  {
    if s != "" {
      HexBelowPower(s[..|s| - 1]);
    }
  }

  lemma {:induction false} Power16Monotone(m: nat, n: nat)
    requires m <= n
    ensures Power16(m) <= Power16(n)
  {
    if m < n {
      Power16Monotone(m, n - 1);
    }
  }

  lemma ShortHexIsSmall(s: string)
    requires IsHex(s) && |s| <= 15
    ensures HexValue(s) < TWO_63
  {
    HexBelowPower(s);
    Power16Monotone(|s|, 15);
    assert Power16(5) == 0x10_0000;
    assert Power16(10) == 0x100_0000_0000;
    assert Power16(15) == 0x1000_0000_0000_0000;
  }
}
