/** Canonical unpadded base64url (receipt/codec.py; RFC 4648 sections 3.5 and 5). */
module Base64Url {
  import opened Outcomes
  import opened Positional
  import opened Base58

  const CANONICAL_SIGNATURE_LENGTH := 86
  const ED25519_SIGNATURE_BYTES := 64
  const INVALID_SIGNATURE_ENCODING: ReceiptError := "receipt.invalid_signature_encoding"

  const BASE64URL_ALPHABET := "ABCDEFGHIJKLMNOPQRSTUVWXYZ" + "abcdefghijklmnopqrstuvwxyz" + "0123456789" + "-_"

  /** The base64url alphabet: A-Z, a-z, 0-9, hyphen, underscore. */
  function Letter(sextet: nat): char
    requires sextet < 64
  {
    if sextet < 26 then ('A' as int + sextet) as char
    else if sextet < 52 then ('a' as int + sextet - 26) as char
    else if sextet < 62 then ('0' as int + sextet - 52) as char
    else if sextet == 62 then '-' else '_'
  }

  function LetterIndex(c: char): (r: Option<nat>)
    ensures r.Some? ==> r.value < 64
  {
    if 'A' <= c <= 'Z' then Some(c as int - 'A' as int)
    else if 'a' <= c <= 'z' then Some(c as int - 'a' as int + 26)
    else if '0' <= c <= '9' then Some(c as int - '0' as int + 52)
    else if c == '-' then Some(62) else if c == '_' then Some(63) else None
  }

  /** The letter table, written by ranges, is table 2 of RFC 4648. */
  lemma LettersSpellAlphabet(k: nat)
    requires k < 64
    ensures |BASE64URL_ALPHABET| == 64 && Letter(k) == BASE64URL_ALPHABET[k]
  {
    if k < 26 { assert Letter(k) == "ABCDEFGHIJKLMNOPQRSTUVWXYZ"[k]; }
    else if k < 52 { assert Letter(k) == "abcdefghijklmnopqrstuvwxyz"[k - 26]; }
    else if k < 62 { assert Letter(k) == "0123456789"[k - 52]; }
    else { assert Letter(k) == "-_"[k - 62]; }
  }

  /** The two tables are inverse. */
  lemma LetterTablesAgree(c: char, k: nat)
    ensures LetterIndex(c) == Some(k) <==> k < 64 && Letter(k) == c
  {
    if k < 64 {
      var d := Letter(k) as int;
      if k < 26 { assert d == 'A' as int + k; }
      else if k < 52 { assert d == 'a' as int + k - 26; }
      else if k < 62 { assert d == '0' as int + k - 52; }
      assert LetterIndex(Letter(k)) == Some(k);
    }
    match LetterIndex(c) {
      case Some(i) => assert Letter(i) == c;
      case None =>
    }
  }

  predicate IsBase64Url(s: string) {
    forall i :: 0 <= i < |s| ==> LetterIndex(s[i]).Some?
  }

  // ----- Sextets: three bytes are four six-bit groups -----

  function Split(a: Byte, b: Byte, c: Byte): (s: seq<int>)
    ensures |s| == 4 && Digits(s, 64)
  {
    [a / 4, a % 4 * 16 + b / 16, b % 16 * 4 + c / 64, c % 64]
  }

  function Join(s: seq<int>): (raw: seq<Byte>)
    requires |s| == 4 && Digits(s, 64)
    ensures |raw| == 3
  {
    [s[0] * 4 + s[1] / 16, s[1] % 16 * 16 + s[2] / 4, s[2] % 4 * 64 + s[3]]
  }

  /** `urlsafe_b64encode(raw).rstrip("=")` before the alphabet is applied. */
  function Sextets(raw: seq<Byte>): (s: seq<int>)
    ensures Digits(s, 64)
  {
    if raw == [] then []
    else if |raw| == 1 then Split(raw[0], 0, 0)[..2]
    else if |raw| == 2 then Split(raw[0], raw[1], 0)[..3]
    else Split(raw[0], raw[1], raw[2]) + Sextets(raw[3..])
  }

  /** `b64decode(value + padding, validate=True)`: a lone trailing sextet is refused, spare low bits are dropped. */
  function Octets(s: seq<int>): (r: Option<seq<Byte>>)
    requires Digits(s, 64)
  {
    if s == [] then Some([])
    else if |s| == 1 then None
    else if |s| == 2 then Some(Join(s + [0, 0])[..1])
    else if |s| == 3 then Some(Join(s + [0])[..2])
    else match Octets(s[4..])
      case None => None
      case Some(rest) => Some(Join(s[..4]) + rest)
  }

  /** The spare low bits of the last sextet, which a canonical encoder leaves zero. */
  predicate PadBitsZero(s: seq<int>) {
    && (|s| % 4 == 2 ==> s[|s| - 1] % 16 == 0)
    && (|s| % 4 == 3 ==> s[|s| - 1] % 4 == 0)
  }

  lemma JoinOfSplit(a: Byte, b: Byte, c: Byte)
    ensures Join(Split(a, b, c)) == [a, b, c]
  {
  }

  lemma SplitOfJoin(s: seq<int>)
    requires |s| == 4 && Digits(s, 64)
    ensures var raw := Join(s); Split(raw[0], raw[1], raw[2]) == s
  {
    MiddleBits(s[0], s[1], 4, 16);
    MiddleBits(s[1] % 16, s[2], 16, 4);
    MiddleBits(s[2] % 4, s[3], 64, 1);
  }

  lemma MiddleBits(high: int, low: int, k: int, m: int)
    requires (k == 4 && m == 16) || (k == 16 && m == 4) || (k == 64 && m == 1)
    requires 0 <= low < 64
    ensures (high * k + low / m) / k == high && (high * k + low / m) % k == low / m
  {
  }

  lemma {:induction false} OctetsOfSextets(raw: seq<Byte>)
    ensures Octets(Sextets(raw)) == Some(raw)
    ensures PadBitsZero(Sextets(raw))
    ensures |Sextets(raw)| == (4 * |raw| + 2) / 3
  {
    if |raw| >= 3 {
      OctetsOfSextets(raw[3..]);
      OctetsStep(raw);
    } else {
      OctetsOfShort(raw);
    }
  }

  lemma OctetsOfShort(raw: seq<Byte>)
    requires |raw| < 3
    ensures Octets(Sextets(raw)) == Some(raw)
    ensures PadBitsZero(Sextets(raw))
    ensures |Sextets(raw)| == (4 * |raw| + 2) / 3
  {
    if |raw| == 1 {
      OctetsOfOne(raw[0]);
      assert raw == [raw[0]];
    } else if |raw| == 2 {
      OctetsOfTwo(raw[0], raw[1]);
      assert raw == [raw[0], raw[1]];
    }
  }

  lemma OctetsOfOne(a: Byte)
    ensures var s := Sextets([a]); |s| == 2 && Octets(s) == Some([a]) && s[1] % 16 == 0
  {
    assert Split(a, 0, 0)[..2] + [0, 0] == Split(a, 0, 0);
    JoinOfSplit(a, 0, 0);
    assert [a] == [a, 0, 0][..1];
  }

  lemma OctetsOfTwo(a: Byte, b: Byte)
    ensures var s := Sextets([a, b]); |s| == 3 && Octets(s) == Some([a, b]) && s[2] % 4 == 0
  {
    assert Split(a, b, 0)[..3] + [0] == Split(a, b, 0);
    JoinOfSplit(a, b, 0);
    assert [a, b] == [a, b, 0][..2];
  }

  lemma OctetsStep(raw: seq<Byte>)
    requires |raw| >= 3
    requires Octets(Sextets(raw[3..])) == Some(raw[3..]) && PadBitsZero(Sextets(raw[3..]))
    requires |Sextets(raw[3..])| == (4 * |raw[3..]| + 2) / 3
    ensures Octets(Sextets(raw)) == Some(raw)
    ensures PadBitsZero(Sextets(raw))
    ensures |Sextets(raw)| == (4 * |raw| + 2) / 3
  {
    var s, four := Sextets(raw), Split(raw[0], raw[1], raw[2]);
    assert s[..4] == four && s[4..] == Sextets(raw[3..]);
    PadBitsOfTail(s);
    JoinOfSplit(raw[0], raw[1], raw[2]);
    assert raw == [raw[0], raw[1], raw[2]] + raw[3..];
  }

  lemma {:induction false} OctetsDefined(s: seq<int>)
    requires Digits(s, 64)
    ensures Octets(s).Some? <==> |s| % 4 != 1
    ensures Octets(s) == Some([]) ==> s == []
  {
    if |s| >= 4 {
      OctetsDefined(s[4..]);
      OctetsUnfold(s);
      FourLess(|s|);
    } else {
      ShortOctets(s);
    }
  }

  lemma ShortOctets(s: seq<int>)
    requires Digits(s, 64) && |s| < 4
    ensures Octets(s).Some? <==> |s| != 1
    ensures Octets(s).Some? ==> |Octets(s).value| == if s == [] then 0 else |s| - 1
  {
  }

  lemma FourLess(n: int)
    ensures n % 4 == (n - 4) % 4
  {
  }

  lemma {:induction false} SextetsOfOctets(s: seq<int>)
    requires Digits(s, 64) && Octets(s).Some?
    ensures Sextets(Octets(s).value) == s <==> PadBitsZero(s)
  {
    if |s| < 4 {
      SextetsOfShort(s);
    } else {
      OctetsUnfold(s);
      var rest := Octets(s[4..]).value;
      SextetsOfOctets(s[4..]);
      SextetsInductive(s, rest);
    }
  }

  lemma SextetsInductive(s: seq<int>, rest: seq<Byte>)
    requires Digits(s, 64) && |s| >= 4
    requires Sextets(rest) == s[4..] <==> PadBitsZero(s[4..])
    ensures Sextets(Join(s[..4]) + rest) == s <==> PadBitsZero(s)
  {
    PadBitsOfTail(s);
    SextetsStep(s, rest);
    SplitAtFour(Sextets(Join(s[..4]) + rest), s);
  }

  lemma SextetsOfShort(s: seq<int>)
    requires Digits(s, 64) && |s| < 4 && Octets(s).Some?
    ensures Sextets(Octets(s).value) == s <==> PadBitsZero(s)
  {
    if |s| == 2 {
      SextetsOfTail(s, [0, 0]);
    } else if |s| == 3 {
      SextetsOfTail(s, [0]);
    }
  }

  lemma OctetsUnfold(s: seq<int>)
    requires Digits(s, 64) && |s| >= 4
    ensures Octets(s[4..]).None? ==> Octets(s).None?
    ensures Octets(s[4..]).Some? ==> Octets(s) == Some(Join(s[..4]) + Octets(s[4..]).value)
  {
  }

  lemma SplitAtFour(s: seq<int>, t: seq<int>)
    requires |s| >= 4 && |t| >= 4
    ensures s == t <==> s[..4] == t[..4] && s[4..] == t[4..]
  {
    assert s == s[..4] + s[4..] && t == t[..4] + t[4..];
  }

  lemma SextetsStep(s: seq<int>, rest: seq<Byte>)
    requires Digits(s, 64) && |s| >= 4
    ensures |Sextets(Join(s[..4]) + rest)| >= 4
    ensures Sextets(Join(s[..4]) + rest)[..4] == s[..4] && Sextets(Join(s[..4]) + rest)[4..] == Sextets(rest)
  {
    SplitOfJoin(s[..4]);
    assert (Join(s[..4]) + rest)[3..] == rest;
  }

  lemma PadBitsOfTail(s: seq<int>)
    requires |s| >= 4
    ensures PadBitsZero(s) <==> PadBitsZero(s[4..])
  {
  }

  /** A last group of two or three sextets survives exactly when its spare bits are zero. */
  lemma SextetsOfTail(s: seq<int>, pad: seq<int>)
    requires Digits(s, 64) && (|s| == 2 || |s| == 3)
    requires pad == Zeros(4 - |s|)
    ensures Sextets(Join(s + pad)[..|s| - 1]) == s <==> PadBitsZero(s)
  {
    var raw := Join(s + pad);
    SplitOfJoin(s + pad);
    if |s| == 2 {
      assert Sextets(raw[..1]) == [s[0], s[1] / 16 * 16];
    } else {
      assert Sextets(raw[..2]) == [s[0], s[1], s[2] / 4 * 4];
    }
  }

  // ----- What the sextets denote -----

  /** The spare bits of an incomplete last group, as a factor. */
  function Spare(n: nat): (k: nat)
    ensures n >= 3 ==> k == Spare(n - 3)
  {
    if n % 3 == 0 then 1 else if n % 3 == 1 then 16 else 4
  }

  /** The sextets denote the same number as the bytes, shifted left by the spare bits of an incomplete last group. */
  lemma {:induction false} SextetsDenoteBytes(raw: seq<Byte>)
    ensures Value(Sextets(raw), 64) == Value(raw, 256) * Spare(|raw|)
  {
    hide Split, Value, Pow, Spare;
    if |raw| < 3 {
      ShortSextetsDenote(raw);
    } else {
      var head, rest := Split(raw[0], raw[1], raw[2]), raw[3..];
      SextetsDenoteBytes(rest);
      SextetsCount(rest);
      ValueOfConcat(head, Sextets(rest), 64);
      FirstGroup(raw);
      ValueOfConcat([raw[0], raw[1], raw[2]], rest, 256);
      GroupDenotes(raw[0], raw[1], raw[2]);
      PowersMatch(|rest|);
      ShiftGroup(Value(head, 64), Pow(64, |Sextets(rest)|), Pow(256, |rest|), Value(rest, 256), Spare(|rest|));
    }
  }

  lemma SextetsCount(raw: seq<Byte>)
    ensures |Sextets(raw)| == (4 * |raw| + 2) / 3
  {
    OctetsOfSextets(raw);
  }

  lemma FirstGroup(raw: seq<Byte>)
    requires |raw| >= 3
    ensures raw == [raw[0], raw[1], raw[2]] + raw[3..]
  {
  }

  lemma ShiftGroup(v: int, p: nat, q: nat, r: int, k: nat)
    requires p == q * k
    ensures v * p + r * k == (v * q + r) * k
  {
  }

  lemma GroupDenotes(a: Byte, b: Byte, c: Byte)
    ensures Value(Split(a, b, c), 64) == Value([a, b, c], 256)
  {
    hide Value;
    var s := Split(a, b, c);
    FourDigits(s[0], s[1], s[2], s[3], 64);
    assert s == [s[0], s[1], s[2], s[3]];
    ThreeDigits(a, b, c, 256);
    GroupArithmetic(a, b, c);
  }

  lemma GroupArithmetic(a: Byte, b: Byte, c: Byte)
    ensures ((a / 4 * 64 + (a % 4 * 16 + b / 16)) * 64 + (b % 16 * 4 + c / 64)) * 64 + c % 64 == (a * 256 + b) * 256 + c
  {
    assert a == a / 4 * 4 + a % 4 && b == b / 16 * 16 + b % 16 && c == c / 64 * 64 + c % 64;
  }

  lemma ThreeDigits(a: int, b: int, c: int, base: nat)
    ensures Value([a, b, c], base) == (a * base + b) * base + c
    ensures Value([a, b], base) == a * base + b
    ensures Value([a], base) == a
  {
    ValueOfShift([], a, base);
    ValueOfShift([a], b, base);
    ValueOfShift([a, b], c, base);
    assert [] + [a] == [a] && [a] + [b] == [a, b] && [a, b] + [c] == [a, b, c];
  }

  lemma FourDigits(a: int, b: int, c: int, d: int, base: nat)
    ensures Value([a, b, c, d], base) == ((a * base + b) * base + c) * base + d
  {
    ThreeDigits(a, b, c, base);
    ValueOfShift([a, b, c], d, base);
    assert [a, b, c] + [d] == [a, b, c, d];
  }

  lemma ShortSextetsDenote(raw: seq<Byte>)
    requires |raw| < 3
    ensures Value(Sextets(raw), 64) == Value(raw, 256) * Spare(|raw|)
  {
    hide Value, Split;
    if raw == [] {
      NothingDenotes();
    } else if |raw| == 1 {
      OneDenotes(raw[0]);
      assert raw == [raw[0]];
    } else {
      TwoDenote(raw[0], raw[1]);
      assert raw == [raw[0], raw[1]];
    }
  }

  lemma NothingDenotes()
    ensures Value([], 64) == 0 == Value([], 256)
  {
  }

  lemma OneDenotes(a: Byte)
    ensures Value(Split(a, 0, 0)[..2], 64) == Value([a], 256) * 16
  {
    hide Value;
    var s := Split(a, 0, 0);
    assert s[..2] == [s[0], s[1]];
    ThreeDigits(s[0], s[1], 0, 64);
    ThreeDigits(a, 0, 0, 256);
  }

  lemma TwoDenote(a: Byte, b: Byte)
    ensures Value(Split(a, b, 0)[..3], 64) == Value([a, b], 256) * 4
  {
    hide Value;
    var s := Split(a, b, 0);
    assert s[..3] == [s[0], s[1], s[2]];
    ThreeDigits(s[0], s[1], s[2], 64);
    ThreeDigits(a, b, 0, 256);
    GroupArithmetic(a, b, 0);
  }

  /** 64^ceil(4n/3) is 256^n times the shift. */
  lemma {:induction false} PowersMatch(n: nat)
    ensures Pow(64, (4 * n + 2) / 3) == Pow(256, n) * Spare(n)
  {
    if n >= 3 {
      hide Pow, Spare;
      var m := (4 * (n - 3) + 2) / 3;
      PowersMatch(n - 3);
      assert (4 * n + 2) / 3 == 4 + m;
      PowAdd(64, 4, m);
      PowAdd(256, 3, n - 3);
      SmallPowers();
      Reorder(16777216, Pow(256, n - 3), Spare(n - 3));
    } else {
      SmallPowers();
    }
  }

  lemma Reorder(a: nat, b: nat, c: nat)
    ensures a * (b * c) == (a * b) * c
  {
  }

  lemma SmallPowers()
    ensures Pow(64, 0) == 1 == Pow(256, 0) && Pow(64, 2) == 4096 && Pow(64, 3) == 262144 && Pow(64, 4) == 16777216
    ensures Pow(256, 1) == 256 && Pow(256, 2) == 65536 && Pow(256, 3) == 16777216
  {
  }

  // ----- The codec -----

  function Letters(s: seq<int>): (t: string)
    requires Digits(s, 64)
    ensures |t| == |s|
  {
    seq(|s|, i requires 0 <= i < |s| => Letter(s[i]))
  }

  function LetterIndices(t: string): (s: seq<int>)
    requires IsBase64Url(t)
    ensures |s| == |t| && Digits(s, 64)
  {
    seq(|t|, i requires 0 <= i < |t| => LetterIndex(t[i]).value)
  }

  function EncodeBase64Url(raw: seq<Byte>): string {
    Letters(Sextets(raw))
  }

  function DecodeBase64Url(value: string, code: ReceiptError, maxChars: nat): Result<seq<Byte>, ReceiptError> {
    if value == "" || |value| > maxChars || !IsBase64Url(value) then Err(code)
    else match Octets(LetterIndices(value))
      case None => Err(code)
      case Some(raw) => if EncodeBase64Url(raw) != value then Err(code) else Ok(raw)
  }

  function DecodeSignature(value: string): Result<seq<Byte>, ReceiptError> {
    if |value| != CANONICAL_SIGNATURE_LENGTH then Err(INVALID_SIGNATURE_ENCODING)
    else DecodeBase64Url(value, INVALID_SIGNATURE_ENCODING, CANONICAL_SIGNATURE_LENGTH)
  }

  lemma LettersRoundTrip(s: seq<int>)
    requires Digits(s, 64)
    ensures IsBase64Url(Letters(s)) && LetterIndices(Letters(s)) == s
  {
    forall i | 0 <= i < |s| ensures LetterIndex(Letters(s)[i]) == Some(s[i]) {
      LetterTablesAgree(Letters(s)[i], s[i]);
    }
  }

  lemma LetterIndicesRoundTrip(t: string)
    requires IsBase64Url(t)
    ensures Letters(LetterIndices(t)) == t
  {
    forall i | 0 <= i < |t| ensures Letters(LetterIndices(t))[i] == t[i] {
      LetterTablesAgree(t[i], LetterIndex(t[i]).value);
    }
  }

  /** Encoding then decoding returns the bytes exactly when they are non-empty and the text fits. */
  lemma DecodeInvertsEncode(raw: seq<Byte>, code: ReceiptError, maxChars: nat)
    ensures DecodeBase64Url(EncodeBase64Url(raw), code, maxChars) == Ok(raw)
       <==> raw != [] && |EncodeBase64Url(raw)| <= maxChars
    ensures |EncodeBase64Url(raw)| == (4 * |raw| + 2) / 3
  {
    OctetsOfSextets(raw);
    LettersRoundTrip(Sextets(raw));
  }

  /** Acceptance, without mentioning the encoder: alphabet, length class and zero pad bits. */
  lemma AcceptedText(value: string, code: ReceiptError, maxChars: nat)
    ensures DecodeBase64Url(value, code, maxChars).Ok?
       <==> 1 <= |value| <= maxChars && IsBase64Url(value) && |value| % 4 != 1 && PadBitsZero(LetterIndices(value))
    ensures DecodeBase64Url(value, code, maxChars).Ok?
        ==> EncodeBase64Url(DecodeBase64Url(value, code, maxChars).value) == value
  {
    if IsBase64Url(value) {
      var s := LetterIndices(value);
      OctetsDefined(s);
      LetterIndicesRoundTrip(value);
      if Octets(s).Some? {
        SextetsOfOctets(s);
        LettersRoundTrip(Sextets(Octets(s).value));
      }
    }
  }

  /** 86-character signatures correspond one to one with 64-byte strings. */
  lemma SignaturesAreSixtyFourBytes(value: string, raw: seq<Byte>)
    ensures DecodeSignature(value) == Ok(raw) <==> |raw| == ED25519_SIGNATURE_BYTES && value == EncodeBase64Url(raw)
  {
    DecodeInvertsEncode(raw, INVALID_SIGNATURE_ENCODING, CANONICAL_SIGNATURE_LENGTH);
  }
}
