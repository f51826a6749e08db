/** Signing requests, receipts and their verification (receipt/service.py, receipt/models.py). */
module Receipts {
  import opened Outcomes
  import opened Positional
  import opened Base58
  import opened DidKey
  import opened Base64Url

  /** What a receipt binds of an export: its report schema and its document digest. */
  datatype Exported = Exported(schema: string, digest: string)

  datatype Time = Time(instant: int, utc: bool)

  datatype SigningPayload = SigningPayload(reportSchema: string, reportSha256: string, did: string, signedAt: Time)

  datatype SigningRequest = SigningRequest(payload: SigningPayload, payloadBase64Url: string, payloadSha256: string)

  datatype Receipt = Receipt(reportSchema: string, reportSha256: string, did: string, signature: string, signedAt: Time)

  datatype Verified = Verified(did: string, reportSha256: string, payloadSha256: string)

  /** JCS serialisation, SHA-256 and Ed25519 verification, which are library code. */
  datatype Crypto = Crypto(
    canonical: SigningPayload -> seq<Byte>,
    sha256: seq<Byte> -> string,
    accepts: (seq<Byte>, seq<Byte>, seq<Byte>) -> bool)  // key, signature, message

  const MAX_PAYLOAD_CHARS: nat := 4096
  const UNSUPPORTED_SCHEMA: ReceiptError := "receipt.unsupported_report_schema"
  const INVALID_METADATA: ReceiptError := "receipt.invalid_signing_metadata"
  const INVALID_PAYLOAD_ENCODING: ReceiptError := "receipt.invalid_payload_encoding"
  const SIGNATURE_INVALID: ReceiptError := "receipt.signature_invalid"
  const SCHEMA_MISMATCH: ReceiptError := "receipt.report_schema_mismatch"
  const DIGEST_MISMATCH: ReceiptError := "receipt.report_digest_mismatch"
  const VALIDATION_ERROR: ReceiptError := "validation error"

  predicate Supported(schema: string) {
    schema == "flopbench-readiness-report-v1" || schema == "flopbench-benchmark-report-v1"
  }

  /** Field constraints of `ReceiptSigningPayload`. */
  predicate ValidPayload(p: SigningPayload) {
    Supported(p.reportSchema) && 20 <= |p.did| <= 128 && p.signedAt.utc
  }

  /** Field constraints of `SigningRequest` and `payload_matches_claims`. */
  predicate ValidRequest(c: Crypto, r: SigningRequest) {
    var expected := c.canonical(r.payload);
    && 1 <= |r.payloadBase64Url| <= MAX_PAYLOAD_CHARS && IsBase64Url(r.payloadBase64Url)
    && DecodeBase64Url(r.payloadBase64Url, INVALID_PAYLOAD_ENCODING, MAX_PAYLOAD_CHARS) == Ok(expected)
    && EncodeBase64Url(expected) == r.payloadBase64Url
    && c.sha256(expected) == r.payloadSha256
    && DecodeEd25519Did(r.payload.did).Ok?
  }

  /** Field constraints of `Receipt`. */
  predicate ValidReceipt(r: Receipt) {
    && Supported(r.reportSchema) && r.signedAt.utc
    && DID_PREFIX < r.did && IsBase58(r.did[|DID_PREFIX|..])
    && |r.signature| == CANONICAL_SIGNATURE_LENGTH && IsBase64Url(r.signature)
  }

  function PrepareReceipt(c: Crypto, e: Exported, did: string, signedAt: Time): Result<SigningRequest, ReceiptError> {
    if DecodeEd25519Did(did).Err? then Err(DecodeEd25519Did(did).error)
    else if !Supported(e.schema) then Err(UNSUPPORTED_SCHEMA)
    else
      var payload := SigningPayload(e.schema, e.digest, did, signedAt);
      if !ValidPayload(payload) then Err(INVALID_METADATA)
      else
        var raw := c.canonical(payload);
        var request := SigningRequest(payload, EncodeBase64Url(raw), c.sha256(raw));
        if ValidRequest(c, request) then Ok(request) else Err(VALIDATION_ERROR)
  }

  /** `verify_detached`: None when the signature is accepted. */
  function VerifyDetached(c: Crypto, did: string, message: seq<Byte>, signature: string): Option<ReceiptError> {
    match (DecodeEd25519Did(did), DecodeSignature(signature))
    case (Err(e), _) => Some(e)
    case (_, Err(e)) => Some(e)
    case (Ok(key), Ok(bytes)) => if c.accepts(key, bytes, message) then None else Some(SIGNATURE_INVALID)
  }

  function CreateReceipt(c: Crypto, r: SigningRequest, signature: string): Result<Receipt, ReceiptError> {
    match VerifyDetached(c, r.payload.did, c.canonical(r.payload), signature)
    case Some(e) => Err(e)
    case None =>
      var receipt := Receipt(r.payload.reportSchema, r.payload.reportSha256, r.payload.did, signature, r.payload.signedAt);
      if ValidReceipt(receipt) then Ok(receipt) else Err(VALIDATION_ERROR)
  }

  function VerifyReceipt(c: Crypto, e: Exported, r: Receipt): Result<Verified, ReceiptError> {
    if !Supported(e.schema) then Err(UNSUPPORTED_SCHEMA)
    else if r.reportSchema != e.schema then Err(SCHEMA_MISMATCH)
    else if r.reportSha256 != e.digest then Err(DIGEST_MISMATCH)
    else
      var payload := SigningPayload(r.reportSchema, r.reportSha256, r.did, r.signedAt);
      if !ValidPayload(payload) then Err(INVALID_METADATA)
      else
        var raw := c.canonical(payload);
        match VerifyDetached(c, r.did, raw, r.signature)
        case Some(error) => Err(error)
        case None => Ok(Verified(r.did, r.reportSha256, c.sha256(raw)))
  }

  // ----- Laws -----

  /** An accepted DID has 56 characters, so it always fits the payload, and its key part is base58. */
  lemma AcceptedDidFits(did: string)
    requires DecodeEd25519Did(did).Ok?
    ensures |did| == 56 && DID_PREFIX < did && IsBase58(did[|DID_PREFIX|..])
  {
    DidKey.EncodeInvertsDecode(did);
    DidShape(DecodeEd25519Did(did).value);
  }

  /** A request is prepared exactly for an accepted DID, a supported schema, a UTC time, and a payload whose canonical
      bytes are non-empty and at most 3072; and it then carries exactly those bytes and their digest. */
  lemma PreparedExactly(c: Crypto, e: Exported, did: string, signedAt: Time)
    ensures var raw := c.canonical(SigningPayload(e.schema, e.digest, did, signedAt));
      && (PrepareReceipt(c, e, did, signedAt).Ok? <==>
            DecodeEd25519Did(did).Ok? && Supported(e.schema) && signedAt.utc && 1 <= |raw| <= 3072)
      && (PrepareReceipt(c, e, did, signedAt).Ok? ==>
            var r := PrepareReceipt(c, e, did, signedAt).value;
            && ValidRequest(c, r) && r.payload == SigningPayload(e.schema, e.digest, did, signedAt)
            && DecodeBase64Url(r.payloadBase64Url, INVALID_PAYLOAD_ENCODING, MAX_PAYLOAD_CHARS) == Ok(raw)
            && r.payloadSha256 == c.sha256(raw))
  {
    hide DecodeEd25519Did, DecodeBase64Url, EncodeBase64Url, IsBase64Url;
    var raw := c.canonical(SigningPayload(e.schema, e.digest, did, signedAt));
    if DecodeEd25519Did(did).Ok? { AcceptedDidFits(did); }
    Base64Url.DecodeInvertsEncode(raw, INVALID_PAYLOAD_ENCODING, MAX_PAYLOAD_CHARS);
    AcceptedText(EncodeBase64Url(raw), INVALID_PAYLOAD_ENCODING, MAX_PAYLOAD_CHARS);
  }

  /** Any signature accepted on the prepared bytes gives a receipt, and verifying that receipt against the same export
      rebuilds the same bytes and accepts it. */
  lemma SignedReceiptVerifies(c: Crypto, e: Exported, did: string, signedAt: Time, signature: string)
    requires PrepareReceipt(c, e, did, signedAt).Ok?
    requires DecodeSignature(signature).Ok?
    requires c.accepts(DecodeEd25519Did(did).value, DecodeSignature(signature).value,
                       c.canonical(PrepareReceipt(c, e, did, signedAt).value.payload))
    ensures var request := PrepareReceipt(c, e, did, signedAt).value;
      var receipt := Receipt(e.schema, e.digest, did, signature, signedAt);
      && CreateReceipt(c, request, signature) == Ok(receipt)
      && VerifyReceipt(c, e, receipt) == Ok(Verified(did, e.digest, request.payloadSha256))
  {
    hide DecodeEd25519Did, DecodeBase64Url, EncodeBase64Url;
    AcceptedDidFits(did);
    AcceptedText(signature, INVALID_SIGNATURE_ENCODING, CANONICAL_SIGNATURE_LENGTH);
  }

  /** A receipt is accepted exactly for exports with its own supported schema and digest, a UTC time, and a signature
      the verifier accepts for the DID's key on the bytes rebuilt from the receipt alone. */
  lemma AcceptedExactly(c: Crypto, e: Exported, r: Receipt)
    ensures VerifyReceipt(c, e, r).Ok? <==>
      && e == Exported(r.reportSchema, r.reportSha256) && Supported(r.reportSchema) && r.signedAt.utc
      && DecodeEd25519Did(r.did).Ok? && DecodeSignature(r.signature).Ok?
      && c.accepts(DecodeEd25519Did(r.did).value, DecodeSignature(r.signature).value,
                   c.canonical(SigningPayload(r.reportSchema, r.reportSha256, r.did, r.signedAt)))
  {
    hide DecodeEd25519Did, DecodeSignature;
    if DecodeEd25519Did(r.did).Ok? { AcceptedDidFits(r.did); }
  }

  /** An accepted receipt is refused for every export with another digest or another report schema. */
  lemma ReceiptBindsOneReport(c: Crypto, e: Exported, other: Exported, r: Receipt)
    requires VerifyReceipt(c, e, r).Ok? && other != e
    ensures VerifyReceipt(c, other, r) == Err(
      if other.schema !in {"flopbench-readiness-report-v1", "flopbench-benchmark-report-v1"} then "receipt.unsupported_report_schema"
      else if other.schema != e.schema then "receipt.report_schema_mismatch" else "receipt.report_digest_mismatch")
  {
    hide DecodeEd25519Did, DecodeSignature;
    AcceptedExactly(c, e, r);
  }

  /** From a prepared request a receipt is created exactly when the signature decodes and is accepted for the DID's key on
      the canonical bytes; a rejected or malformed signature gives its own error and no receipt, and every created
      receipt is one that verification accepts for the same export. */
  lemma CreatedExactly(c: Crypto, e: Exported, did: string, signedAt: Time, signature: string)
    requires PrepareReceipt(c, e, did, signedAt).Ok?
    ensures var request := PrepareReceipt(c, e, did, signedAt).value;
      var created, bytes := CreateReceipt(c, request, signature), DecodeSignature(signature);
      && DecodeEd25519Did(did).Ok?
      && (created.Ok? <==> bytes.Ok? && c.accepts(DecodeEd25519Did(did).value, bytes.value, c.canonical(request.payload)))
      && (bytes.Ok? && created.Err? ==> created == Err("receipt.signature_invalid"))
      && (bytes.Err? ==> created == Err("receipt.invalid_signature_encoding"))
      && (created.Ok? ==> created.value == Receipt(e.schema, e.digest, did, signature, signedAt)
                          && VerifyReceipt(c, e, created.value).Ok?)
  {
    hide DecodeEd25519Did, DecodeBase64Url, EncodeBase64Url, ValidRequest, IsBase64Url;
    AcceptedDidFits(did);
    AcceptedText(signature, INVALID_SIGNATURE_ENCODING, CANONICAL_SIGNATURE_LENGTH);
    SignatureErrors(signature);
    if CreateReceipt(c, PrepareReceipt(c, e, did, signedAt).value, signature).Ok? {
      SignedReceiptVerifies(c, e, did, signedAt, signature);
    }
  }

  lemma SignatureErrors(signature: string)
    ensures DecodeSignature(signature).Err? ==> DecodeSignature(signature) == Err("receipt.invalid_signature_encoding")
  {
    hide EncodeBase64Url, Octets, LetterIndices, IsBase64Url;
  }

  /** A receipt whose metadata fit is refused with exactly the signature error when the verifier rejects it. */
  lemma RejectedSignature(c: Crypto, e: Exported, r: Receipt)
    requires e == Exported(r.reportSchema, r.reportSha256) && Supported(e.schema) && r.signedAt.utc
    requires DecodeEd25519Did(r.did).Ok? && DecodeSignature(r.signature).Ok?
    requires !c.accepts(DecodeEd25519Did(r.did).value, DecodeSignature(r.signature).value,
                        c.canonical(SigningPayload(r.reportSchema, r.reportSha256, r.did, r.signedAt)))
    ensures VerifyReceipt(c, e, r) == Err("receipt.signature_invalid")
  {
    hide DecodeEd25519Did, DecodeSignature;
    AcceptedDidFits(r.did);
  }

  /** A signing request is valid exactly when it carries the one encoding of its payload's canonical bytes, of 1 to 3072
      of them, and their digest, for an accepted DID. */
  lemma RequestMatchesClaims(c: Crypto, r: SigningRequest)
    ensures var raw := c.canonical(r.payload);
      ValidRequest(c, r) <==> r.payloadBase64Url == EncodeBase64Url(raw) && 1 <= |raw| <= 3072
                              && r.payloadSha256 == c.sha256(raw) && DecodeEd25519Did(r.payload.did).Ok?
  {
    hide DecodeEd25519Did, DecodeBase64Url, EncodeBase64Url, IsBase64Url;
    var raw := c.canonical(r.payload);
    Base64Url.DecodeInvertsEncode(raw, INVALID_PAYLOAD_ENCODING, MAX_PAYLOAD_CHARS);
    AcceptedText(r.payloadBase64Url, INVALID_PAYLOAD_ENCODING, MAX_PAYLOAD_CHARS);
  }

  /** The two report schemas that can be signed. */
  lemma SupportedSchemas(schema: string)
    ensures Supported(schema) <==> schema in {"flopbench-readiness-report-v1", "flopbench-benchmark-report-v1"}
  {
  }

  /** A receipt that verifies for any export has well-formed fields, and each field on its own can make one ill-formed. */
  lemma ReceiptFields(c: Crypto, e: Exported, r: Receipt)
    ensures VerifyReceipt(c, e, r).Ok? ==> ValidReceipt(r)
    ensures r.reportSchema !in {"flopbench-readiness-report-v1", "flopbench-benchmark-report-v1"} || !r.signedAt.utc ==> !ValidReceipt(r)
    ensures !("did:key:z" < r.did) || !IsBase58(r.did[|"did:key:z"|..]) ==> !ValidReceipt(r)
    ensures |r.signature| != 86 || !IsBase64Url(r.signature) ==> !ValidReceipt(r)
  {
    hide DecodeEd25519Did, DecodeBase64Url, EncodeBase64Url, IsBase64Url, IsBase58;
    if VerifyReceipt(c, e, r).Ok? {
      AcceptedDidFits(r.did);
      AcceptedText(r.signature, INVALID_SIGNATURE_ENCODING, CANONICAL_SIGNATURE_LENGTH);
    }
  }
}
