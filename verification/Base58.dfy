/** Base58btc text for byte strings (receipt/codec.py). */
module Base58 {
  import opened Outcomes
  import opened Positional

  /** The stable code carried by the source's ReceiptError; messages are not modelled. */
  type ReceiptError = string

  const MAX_BASE58_CHARS := 128
  const INVALID_BASE58: ReceiptError := "receipt.invalid_base58"

  const BASE58_ALPHABET := "123456789" + "ABCDEFGH" + "JKLMN" + "PQRSTUVWXYZ" + "abcdefghijk" + "mnopqrstuvwxyz"

  /** The Bitcoin alphabet: 1-9, A-Z without I and O, a-z without l. */
  function Symbol(digit: nat): char
    requires digit < 58
  {
    if digit < 9 then ('1' as int + digit) as char
    else if digit < 17 then ('A' as int + digit - 9) as char
    else if digit < 22 then ('J' as int + digit - 17) as char
    else if digit < 33 then ('P' as int + digit - 22) as char
    else if digit < 44 then ('a' as int + digit - 33) as char
    else ('m' as int + digit - 44) as char
  }

  function SymbolIndex(c: char): (r: Option<nat>)
    ensures r.Some? ==> r.value < 58
  {
    if '1' <= c <= '9' then Some(c as int - '1' as int)
    else if 'A' <= c <= 'H' then Some(c as int - 'A' as int + 9)
    else if 'J' <= c <= 'N' then Some(c as int - 'J' as int + 17)
    else if 'P' <= c <= 'Z' then Some(c as int - 'P' as int + 22)
    else if 'a' <= c <= 'k' then Some(c as int - 'a' as int + 33)
    else if 'm' <= c <= 'z' then Some(c as int - 'm' as int + 44)
    else None
  }

  /** The symbol table, written by ranges, is the published alphabet. */
  lemma SymbolsSpellAlphabet(k: nat)
    requires k < 58
    ensures |BASE58_ALPHABET| == 58 && Symbol(k) == BASE58_ALPHABET[k]
  {
    if k < 9 { assert Symbol(k) == "123456789"[k]; }
    else if k < 17 { assert Symbol(k) == "ABCDEFGH"[k - 9]; }
    else if k < 22 { assert Symbol(k) == "JKLMN"[k - 17]; }
    else if k < 33 { assert Symbol(k) == "PQRSTUVWXYZ"[k - 22]; }
    else if k < 44 { assert Symbol(k) == "abcdefghijk"[k - 33]; }
    else { assert Symbol(k) == "mnopqrstuvwxyz"[k - 44]; }
  }

  /** The two tables are inverse: a character has index k exactly when it is symbol k. */
  lemma SymbolTablesAgree(c: char, k: nat)
    ensures SymbolIndex(c) == Some(k) <==> k < 58 && Symbol(k) == c
  {
    if k < 58 {
      var d := Symbol(k) as int;
      if k < 9 { assert d == '1' as int + k; }
      else if k < 17 { assert d == 'A' as int + k - 9; }
      else if k < 22 { assert d == 'J' as int + k - 17; }
      else if k < 33 { assert d == 'P' as int + k - 22; }
      else if k < 44 { assert d == 'a' as int + k - 33; }
      else { assert d == 'm' as int + k - 44; }
      assert SymbolIndex(Symbol(k)) == Some(k);
    }
    match SymbolIndex(c) {
      case Some(i) => assert Symbol(i) == c;
      case None =>
    }
  }

  function Text(digits: seq<int>): (s: string)
    requires Digits(digits, 58)
    ensures |s| == |digits|
  {
    seq(|digits|, i requires 0 <= i < |digits| => Symbol(digits[i]))
  }

  predicate IsBase58(s: string) {
    forall i :: 0 <= i < |s| ==> SymbolIndex(s[i]).Some?
  }

  function Indices(s: string): (d: seq<int>)
    requires IsBase58(s)
    ensures |d| == |s| && Digits(d, 58)
  {
    seq(|s|, i requires 0 <= i < |s| => SymbolIndex(s[i]).value)
  }

  lemma IndicesOfText(d: seq<int>)
    requires Digits(d, 58)
    ensures IsBase58(Text(d)) && Indices(Text(d)) == d
  {
    forall i | 0 <= i < |d| ensures SymbolIndex(Text(d)[i]) == Some(d[i]) {
      SymbolTablesAgree(Text(d)[i], d[i]);
    }
  }

  lemma TextOfIndices(s: string)
    requires IsBase58(s)
    ensures Text(Indices(s)) == s
  {
    forall i | 0 <= i < |s| ensures Text(Indices(s))[i] == s[i] {
      SymbolTablesAgree(s[i], SymbolIndex(s[i]).value);
    }
  }

  // ----- What the codec computes -----

  function Encoded(raw: seq<Byte>): string {
    Text(Rebase(raw, 256, 58))
  }

  function Decoded(value: string): Result<seq<Byte>, ReceiptError> {
    if value == "" || |value| > MAX_BASE58_CHARS || !IsBase58(value) then Err(INVALID_BASE58)
    else Ok(Rebase(Indices(value), 58, 256))
  }

  /** `encode_base58btc`: repeated division, then one `1` per leading zero byte. */
  method EncodeBase58btc(raw: seq<Byte>) returns (encoded: string)
    ensures encoded == Encoded(raw)
  {
    hide Text, Symbol, Numeral, Value, LeadingZeros;
    var leadingZeroes := LeadingZeros(raw);
    ValueInRange(raw, 256);
    var number: nat := Value(raw, 256);
    encoded := "";
    ghost var suffix: seq<int> := [];
    EmptyText();
    while number > 0
      invariant Numeral(Value(raw, 256), 58) == Numeral(number, 58) + suffix
      invariant Digits(suffix, 58) && encoded == Text(suffix)
    {
      DivShrinks(number, 58);
      NumeralUnfold(number, 58);
      var remainder := number % 58;
      TextConcat([remainder], suffix);
      assert Numeral(number / 58, 58) + [remainder] + suffix == Numeral(number / 58, 58) + ([remainder] + suffix);
      number := number / 58;
      encoded := [Symbol(remainder)] + encoded;
      suffix := [remainder] + suffix;
    }
    assert Numeral(Value(raw, 256), 58) == Numeral(0, 58) + suffix == suffix;
    assert Rebase(raw, 256, 58) == Zeros(leadingZeroes) + suffix;
    TextConcat(Zeros(leadingZeroes), suffix);
    TextOfZeros(leadingZeroes);
    encoded := seq(leadingZeroes, _ => '1') + encoded;
  }

  lemma EmptyText()
    ensures Text([]) == "" && Numeral(0, 58) == []
  {
  }

  lemma TextConcat(a: seq<int>, b: seq<int>)
    requires Digits(a, 58) && Digits(b, 58)
    ensures Digits(a + b, 58) && Text(a + b) == Text(a) + Text(b)
    ensures |a| == 1 ==> Text(a) == [Symbol(a[0])]
  {
  }

  lemma TextOfZeros(k: nat)
    ensures Text(Zeros(k)) == seq(k, _ => '1')
  {
  }

  /** `decode_base58btc`: Horner's rule, then the fewest bytes that hold the number. */
  method DecodeBase58btc(value: string) returns (r: Result<seq<Byte>, ReceiptError>)
    ensures r == Decoded(value)
  {
    if value == "" || |value| > MAX_BASE58_CHARS {
      return Err(INVALID_BASE58);
    }
    var number: nat := 0;
    for i := 0 to |value|
      invariant IsBase58(value[..i]) && number == Value(Indices(value[..i]), 58)
    {
      var index := SymbolIndex(value[i]);
      if index.None? {
        return Err(INVALID_BASE58);
      }
      assert Indices(value[..i + 1]) == Indices(value[..i]) + [index.value];
      ValueOfShift(Indices(value[..i]), index.value, 58);
      number := number * 58 + index.value;
    }
    assert value[..|value|] == value;
    var decoded := if number > 0 then ToBytes(number, (BitLength(number) + 7) / 8) else [];
    var leadingZeroes := CountOnes(value);
    DecodedBytes(value, number);
    r := Ok(Zeros(leadingZeroes) + decoded);
  }

  lemma DecodedBytes(value: string, number: nat)
    requires IsBase58(value) && number == Value(Indices(value), 58)
    ensures Rebase(Indices(value), 58, 256)
         == Zeros(CountOnes(value)) + if number > 0 then ToBytes(number, (BitLength(number) + 7) / 8) else []
  {
    BitLengthPerByte(number);
    ToBytesIsNumeral(number);
    OnesAreZeroDigits(value);
  }

  /** `len(value) - len(value.lstrip("1"))`. */
  function CountOnes(value: string): (k: nat)
    ensures k <= |value|
  {
    if value != "" && value[0] == '1' then 1 + CountOnes(value[1..]) else 0
  }

  lemma {:induction false} OnesAreZeroDigits(value: string)
    requires IsBase58(value)
    ensures CountOnes(value) == LeadingZeros(Indices(value))
  {
    if value != "" {
      SymbolTablesAgree(value[0], 0);
      assert Indices(value)[1..] == Indices(value[1..]);
      OnesAreZeroDigits(value[1..]);
    }
  }

  // ----- The codec is a bijection -----

  /** Decoding undoes encoding exactly when the text is inside decode's length window. */
  lemma DecodeInvertsEncode(raw: seq<Byte>)
    ensures Decoded(Encoded(raw)) == Ok(raw) <==> 1 <= |Encoded(raw)| <= 128
  {
    IndicesOfText(Rebase(raw, 256, 58));
    RebaseRoundTrip(raw, 256, 58);
  }

  /** Whatever decode accepts is the one canonical encoding of its bytes. */
  lemma EncodeInvertsDecode(value: string)
    requires Decoded(value).Ok?
    ensures Encoded(Decoded(value).value) == value
  {
    RebaseRoundTrip(Indices(value), 58, 256);
    TextOfIndices(value);
  }

  lemma EncodedInjective(a: seq<Byte>, b: seq<Byte>)
    requires Encoded(a) == Encoded(b)
    ensures a == b
  {
    IndicesOfText(Rebase(a, 256, 58));
    IndicesOfText(Rebase(b, 256, 58));
    RebaseRoundTrip(a, 256, 58);
    RebaseRoundTrip(b, 256, 58);
  }

  /** Every string of 1 to 93 bytes fits the window, so it always round-trips. */
  lemma ShortStringsRoundTrip(raw: seq<Byte>)
    requires 1 <= |raw| <= 93
    ensures 1 <= |Encoded(raw)| <= 128
    ensures Decoded(Encoded(raw)) == Ok(raw)
  {
    var z := LeadingZeros(raw);
    assert raw == Zeros(z) + raw[z..];
    ValueSkipsLeadingZeros(z, raw[z..], 256);
    ValueInRange(raw[z..], 256);
    Base256FitsBase58(|raw| - z);
    NumeralLength(Value(raw, 256), 58, |raw| - z + 35);
    if z == 0 { ValueInRange(raw, 256); PowPositive(|raw| - 1); }
    DecodeInvertsEncode(raw);
  }

  /** 93 is the largest such length: ninety-four bytes of 255 encode to text decode refuses. */
  lemma NinetyFourBytesCanFail()
    ensures var raw: seq<Byte> := seq(94, _ => 255);
      |Encoded(raw)| > 128 && Decoded(Encoded(raw)) == Err("receipt.invalid_base58")
  {
    var raw: seq<Byte> := seq(94, _ => 255);
    ValueOfAllOnes(94);
    Base256OutgrowsBase58();
    NumeralLength(Value(raw, 256), 58, 128);
  }

  lemma PowPositive(n: nat)
    ensures Pow(256, n) > 0
  {
  }

  lemma {:induction false} ValueOfAllOnes(n: nat)
    ensures Value(seq(n, _ => 255), 256) == Pow(256, n) - 1
  {
    if n > 0 {
      ValueOfAllOnes(n - 1);
      assert seq(n, _ => 255) == seq(n - 1, _ => 255) + [255];
      ValueOfShift(seq(n - 1, _ => 255), 255, 256);
    }
  }

  /** Every 8 bytes fit 11 base-58 digits, and 5 bytes fit 7. */
  lemma {:induction false} Base256FitsBase58(n: nat)
    requires n <= 93
    ensures Pow(256, n) <= Pow(58, n + 35)
    decreases 93 - n
  {
    if n == 93 {
      EightBytesBelowElevenDigits();
      FiveBytesBelowSevenDigits();
      PowRepeat(256, 8, 58, 11, 11);
      PowProduct(256, 88, 5, 58, 121, 7);
    } else {
      Base256FitsBase58(n + 1);
      assert Pow(256, n + 1) == 256 * Pow(256, n) && Pow(58, n + 36) == 58 * Pow(58, n + 35);
      Divide(Pow(256, n), Pow(58, n + 35));
    }
  }

  lemma Divide(x: nat, y: nat)
    requires 256 * x <= 58 * y
    ensures x <= y
  {
  }

  lemma EightBytesBelowElevenDigits()
    ensures Pow(256, 8) <= Pow(58, 11)
  {
  }

  lemma FiveBytesBelowSevenDigits()
    ensures Pow(256, 5) <= Pow(58, 7)
  {
  }

  /** Every 15 base-58 digits fit 11 bytes, and 8 digits fit 6 bytes with room to spare. */
  lemma Base256OutgrowsBase58()
    ensures Pow(58, 128) < Pow(256, 94)
  {
    FifteenDigitsBelowElevenBytes();
    EightDigitsBelowSixBytes();
    PowRepeat(58, 15, 256, 11, 8);
    PowAdd(58, 120, 8);
    PowAdd(256, 88, 6);
    MulStrict(Pow(58, 120), Pow(256, 88), Pow(58, 8), Pow(256, 6));
  }

  lemma MulStrict(a: nat, b: nat, c: nat, d: nat)
    requires 0 < a <= b && c < d
    ensures a * c < b * d
  {
    MulMonotone(a, b, c + 1, d);
  }

  lemma FifteenDigitsBelowElevenBytes()
    ensures Pow(58, 15) <= Pow(256, 11)
  {
    EightDigitsBelowSixBytes();
    SevenDigitsAboveFiveBytes();
    PowAdd(58, 8, 7);
    PowAdd(256, 6, 5);
    Balance(Pow(58, 8), Pow(256, 6), Pow(58, 7), Pow(256, 5));
  }

  lemma Balance(a: nat, b: nat, c: nat, d: nat)
    requires 21 * a <= 10 * b && 10 * c <= 21 * d
    ensures a * c <= b * d
  {
    MulMonotone(21 * a, 10 * b, 10 * c, 21 * d);
    assert (21 * a) * (10 * c) == 210 * (a * c) && (10 * b) * (21 * d) == 210 * (b * d);
  }

  lemma EightDigitsBelowSixBytes()
    ensures 21 * Pow(58, 8) <= 10 * Pow(256, 6) && Pow(58, 8) < Pow(256, 6)
  {
  }

  lemma SevenDigitsAboveFiveBytes()
    ensures 10 * Pow(58, 7) <= 21 * Pow(256, 5)
  {
  }
}
