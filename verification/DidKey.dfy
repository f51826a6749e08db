/** The offline did:key wrapper for Ed25519 keys (receipt/codec.py). */
module DidKey {
  import opened Outcomes
  import opened Positional
  import opened Base58

  const DID_PREFIX := "did:key:z"
  const ED25519_PUB_MULTICODEC: seq<Byte> := [0xed, 0x01]
  const ED25519_PUBLIC_KEY_BYTES := 32
  const INVALID_PUBLIC_KEY: ReceiptError := "receipt.invalid_public_key"
  const INVALID_DID: ReceiptError := "receipt.invalid_did"
  const UNSUPPORTED_MULTICODEC: ReceiptError := "receipt.unsupported_multicodec"

  function EncodeEd25519Did(publicKey: seq<Byte>): Result<string, ReceiptError> {
    if |publicKey| != ED25519_PUBLIC_KEY_BYTES then Err(INVALID_PUBLIC_KEY)
    else Ok(DID_PREFIX + Encoded(ED25519_PUB_MULTICODEC + publicKey))
  }

  function DecodeEd25519Did(did: string): Result<seq<Byte>, ReceiptError> {
    if !(DID_PREFIX <= did) then Err(INVALID_DID)
    else match Decoded(did[|DID_PREFIX|..])
      case Err(e) => Err(e)
      case Ok(decoded) =>
        if !(ED25519_PUB_MULTICODEC <= decoded) then Err(UNSUPPORTED_MULTICODEC)
        else
          var publicKey := decoded[|ED25519_PUB_MULTICODEC|..];
          if |publicKey| != ED25519_PUBLIC_KEY_BYTES then Err(INVALID_PUBLIC_KEY) else Ok(publicKey)
  }

  /** Every key decodes from its own DID: the text never leaves decode's length window. */
  lemma DecodeInvertsEncode(key: seq<Byte>)
    requires |key| == ED25519_PUBLIC_KEY_BYTES
    ensures DecodeEd25519Did(EncodeEd25519Did(key).value) == Ok(key)
  {
    var raw := ED25519_PUB_MULTICODEC + key;
    ShortStringsRoundTrip(raw);
    assert (DID_PREFIX + Encoded(raw))[|DID_PREFIX|..] == Encoded(raw);
    assert raw[|ED25519_PUB_MULTICODEC|..] == key;
  }

  /** An accepted DID is the only DID of the key it resolves to. */
  lemma EncodeInvertsDecode(did: string)
    requires DecodeEd25519Did(did).Ok?
    ensures EncodeEd25519Did(DecodeEd25519Did(did).value) == Ok(did)
  {
    var text := did[|DID_PREFIX|..];
    var decoded := Decoded(text).value;
    Base58.EncodeInvertsDecode(text);
    assert decoded == ED25519_PUB_MULTICODEC + decoded[|ED25519_PUB_MULTICODEC|..];
    assert did == DID_PREFIX + text;
  }

  /** The accepted DIDs are exactly the image of the 32-byte keys. */
  lemma AcceptedDids(did: string)
    ensures DecodeEd25519Did(did).Ok?
       <==> exists key: seq<Byte> :: |key| == ED25519_PUBLIC_KEY_BYTES && EncodeEd25519Did(key) == Ok(did)
  {
    if DecodeEd25519Did(did).Ok? {
      EncodeInvertsDecode(did);
    }
    forall key: seq<Byte> | |key| == ED25519_PUBLIC_KEY_BYTES && EncodeEd25519Did(key) == Ok(did)
      ensures DecodeEd25519Did(did).Ok?
    {
      DecodeInvertsEncode(key);
    }
  }

  /** Every text within the window is classified by the bytes it encodes, with the error that names what is wrong. */
  lemma ClassifiedByContents(raw: seq<Byte>)
    requires 1 <= |Encoded(raw)| <= MAX_BASE58_CHARS
    ensures DecodeEd25519Did(DID_PREFIX + Encoded(raw)) ==
      if |raw| < 2 || raw[0] != 0xed || raw[1] != 0x01 then Err("receipt.unsupported_multicodec")
      else if |raw| != 34 then Err("receipt.invalid_public_key")
      else Ok(raw[2..])
  {
    Base58.DecodeInvertsEncode(raw);
    assert (DID_PREFIX + Encoded(raw))[|DID_PREFIX|..] == Encoded(raw);
  }

  // ----- The fixed shape of an Ed25519 DID -----

  /** Every Ed25519 DID has exactly 47 base-58 characters and they start with 6Mk. */
  lemma DidShape(key: seq<Byte>)
    requires |key| == ED25519_PUBLIC_KEY_BYTES
    ensures var text := Encoded(ED25519_PUB_MULTICODEC + key);
      |text| == 47 && "6Mk" <= text
    ensures |EncodeEd25519Did(key).value| == 56 && "did:key:z6Mk" <= EncodeEd25519Did(key).value
  {
    DidDigits(key);
    TextPrefix(Rebase(ED25519_PUB_MULTICODEC + key, 256, 58));
    PrefixConcat(DID_PREFIX, "6Mk", Encoded(ED25519_PUB_MULTICODEC + key));
    assert DID_PREFIX + "6Mk" == "did:key:z6Mk";
  }

  lemma PrefixConcat(a: string, b: string, t: string)
    requires b <= t
    ensures a + b <= a + t
  {
  }

  lemma DidDigits(key: seq<Byte>)
    requires |key| == ED25519_PUBLIC_KEY_BYTES
    ensures var digits := Rebase(ED25519_PUB_MULTICODEC + key, 256, 58);
      |digits| == 47 && digits[..3] == [5, 20, 43]
  {
    var raw := ED25519_PUB_MULTICODEC + key;
    DidValue(key);
    NumeralPrefix(Value(raw, 256), 18023, 58, 44);
    LeadingThreeDigits();
    assert raw[0] == 0xed;
    assert Rebase(raw, 256, 58) == Numeral(Value(raw, 256), 58);
  }

  lemma DidValue(key: seq<Byte>)
    requires |key| == ED25519_PUBLIC_KEY_BYTES
    ensures 18023 * Pow(58, 44) <= Value(ED25519_PUB_MULTICODEC + key, 256) < 18024 * Pow(58, 44)
  {
    PrefixedValue(key);
    MulticodecScale(Value(key, 256));
  }

  lemma TextPrefix(digits: seq<int>)
    requires Digits(digits, 58) && |digits| >= 3 && digits[..3] == [5, 20, 43]
    ensures "6Mk" <= Text(digits)
  {
    assert digits[0] == digits[..3][0] && digits[1] == digits[..3][1] && digits[2] == digits[..3][2];
    assert Symbol(5) == '6' && Symbol(20) == 'M' && Symbol(43) == 'k';
    assert Text(digits)[..3] == "6Mk";
  }

  lemma PrefixedValue(key: seq<Byte>)
    ensures 0 <= Value(key, 256) < Pow(256, |key|)
    ensures Value(ED25519_PUB_MULTICODEC + key, 256) == 60673 * Pow(256, |key|) + Value(key, 256)
  {
    ValueInRange(key, 256);
    ValueOfConcat(ED25519_PUB_MULTICODEC, key, 256);
    MulticodecValue();
  }

  lemma MulticodecValue()
    ensures Value(ED25519_PUB_MULTICODEC, 256) == 60673
  {
    assert ED25519_PUB_MULTICODEC == ([] + [0xed]) + [0x01];
    ValueOfShift([] + [0xed], 0x01, 256);
    ValueOfShift([], 0xed, 256);
  }

  /** 18023 * 58^44 <= 60673 * 256^32 + k < 18024 * 58^44 for every k below 256^32. */
  lemma MulticodecScale(k: nat)
    requires k < Pow(256, 32)
    ensures 18023 * Pow(58, 44) <= 60673 * Pow(256, 32) + k < 18024 * Pow(58, 44)
  {
    Pow256To32();
    Pow58To44();
  }

  lemma Pow256To32()
    ensures Pow(256, 32) == 115792089237316195423570985008687907853269984665640564039457584007913129639936
  {
    assert Pow(256, 8) == 18446744073709551616;
    PowAdd(256, 8, 8);
    PowAdd(256, 16, 16);
  }

  lemma Pow58To44()
    ensures Pow(58, 44) == 389790918707373377135528568990913592653094657612049369038476873218241589149696
  {
    assert Pow(58, 11) == 24986644000165537792;
    PowAdd(58, 11, 11);
    PowAdd(58, 22, 22);
  }

  /** The leading digits of a number are the digits of its scaled-down quotient. */
  lemma {:induction false} NumeralPrefix(n: nat, q: nat, base: nat, k: nat)
    requires base >= 2 && q > 0
    requires q * Pow(base, k) <= n < (q + 1) * Pow(base, k)
    ensures |Numeral(n, base)| == |Numeral(q, base)| + k
    ensures Numeral(n, base)[..|Numeral(q, base)|] == Numeral(q, base)
    decreases k
  {
    if k == 0 {
      assert Numeral(n, base)[..|Numeral(n, base)|] == Numeral(n, base);
    } else {
      var p := Pow(base, k - 1);
      ScaleDown(n, q, p, base);
      NumeralPrefix(n / base, q, base, k - 1);
      Positive(q, p);
      assert Numeral(n, base) == Numeral(n / base, base) + [n % base];
    }
  }

  lemma Positive(q: nat, p: nat)
    requires q > 0 && p > 0
    ensures q * p > 0
  {
  }

  lemma ScaleDown(n: nat, q: nat, p: nat, base: nat)
    requires base >= 2 && q * (base * p) <= n < (q + 1) * (base * p)
    ensures q * p <= n / base < (q + 1) * p
  {
    var d := n / base;
    assert d * base <= n < (d + 1) * base;
    assert q * (base * p) == (q * p) * base;
    assert (q + 1) * (base * p) == ((q + 1) * p) * base;
    Cancel(q * p, d + 1, base);
    Cancel(d, (q + 1) * p, base);
  }

  lemma Cancel(a: int, b: int, base: nat)
    requires base > 0 && a * base < b * base
    ensures a < b
  {
  }

  lemma LeadingThreeDigits()
    ensures Numeral(18023, 58) == [5, 20, 43]
  {
    assert Numeral(5, 58) == Numeral(0, 58) + [5];
    assert Numeral(310, 58) == Numeral(5, 58) + [20];
    assert Numeral(18023, 58) == Numeral(310, 58) + [43];
  }
}
