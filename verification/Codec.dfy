/**
 The external libraries behind the protocol (serde_json, base64, bs58, zstd, sha2,
 ed25519-dalek), as a record of functions. What a theorem needs of them is one of the
 law predicates below, taken as a hypothesis.
 */
module Codec {
  import opened Wrappers

  newtype byte = b: int | 0 <= b < 256

  type Bytes = seq<byte>

  /** A parsed JSON text. Field order is not part of the value. */
  datatype Json =
    | JNull
    | JBool(value: bool)
    | JNumber(number: int)
    | JString(text: string)
    | JArray(items: seq<Json>)
    | JObject(fields: map<string, Json>)

  datatype Codec = Codec(
    printJson: Json -> string,
    parseJson: string -> Option<Json>,
    toUtf8: string -> Bytes,
    fromUtf8: Bytes -> Option<string>,
    encode64: Bytes -> string,
    decode64: string -> Option<Bytes>,
    encode58: Bytes -> string,
    decode58: string -> Option<Bytes>,
    compress: Bytes -> Bytes,
    decompress: Bytes -> Option<Bytes>,
    sha256Hex: Bytes -> string,
    publicKey: Bytes -> Bytes,
    sign: (Bytes, Bytes) -> Bytes,
    isCurvePoint: Bytes -> bool,
    edVerify: (Bytes, Bytes, Bytes) -> bool)

  /** Printing then parsing, and encoding then decoding, are the identity. */
  ghost predicate TextLaws(c: Codec) {
    && (forall j: Json :: c.parseJson(c.printJson(j)) == Some(j))
    && (forall s: string :: c.fromUtf8(c.toUtf8(s)) == Some(s))
    && (forall b: Bytes :: c.decode64(c.encode64(b)) == Some(b))
  }

  ghost predicate Base58Law(c: Codec) {
    forall b: Bytes :: c.decode58(c.encode58(b)) == Some(b)
  }

  predicate IsAscii(s: string) {
    forall i :: 0 <= i < |s| ==> s[i] as int < 128
  }

  /** One byte per character. */
  function AsciiBytes(s: string): (b: Bytes)
    requires IsAscii(s)
    ensures |b| == |s| && forall i :: 0 <= i < |s| ==> b[i] as int == s[i] as int
  {
    seq(|s|, i requires 0 <= i < |s| => s[i] as int as byte)
  }

  /** Base64 text is ASCII, and the UTF-8 form of ASCII text has one byte per character. */
  ghost predicate AsciiLaws(c: Codec) {
    && (forall b: Bytes :: IsAscii(c.encode64(b)))
    && (forall s: string :: IsAscii(s) ==> c.toUtf8(s) == AsciiBytes(s))
  }

  ghost predicate CompressionLaw(c: Codec) {
    forall b: Bytes :: c.decompress(c.compress(b)) == Some(b)
  }

  predicate IsHexDigit(ch: char) {
    '0' <= ch <= '9' || 'a' <= ch <= 'f' || 'A' <= ch <= 'F'
  }

  /** A SHA-256 digest prints as 64 hexadecimal digits. */
  ghost predicate HashLaw(c: Codec) {
    forall b: Bytes :: |c.sha256Hex(b)| == 64 && forall i :: 0 <= i < 64 ==> IsHexDigit(c.sha256Hex(b)[i])
  }

  /** A private key that signs for its own public key, as section 5.1 of RFC 8032 promises. */
  ghost predicate SignsFor(c: Codec, privateKey: Bytes) {
    && ValidKey(c, c.publicKey(privateKey))
    && (forall m: Bytes :: |c.sign(privateKey, m)| == 64
          && c.edVerify(c.publicKey(privateKey), m, c.sign(privateKey, m)))
  }

  /** `InternalVerifier::from_bytes` succeeds. */
  predicate ValidKey(c: Codec, key: Bytes) {
    |key| == 32 && c.isCurvePoint(key)
  }

  /** `InternalVerifier::verify` answers `Ok(true)`. */
  predicate Verifies(c: Codec, key: Bytes, message: Bytes, signature: Bytes) {
    |signature| == 64 && c.edVerify(key, message, signature)
  }
}
