/** `core/src/keys.rs`: base58 and multibase spellings of a public key. */
module Keys {
  import opened Wrappers
  import opened Codec

  const ED25519_MULTICODEC_PREFIX: Bytes := [0xed, 0x01]

  function FromBase58(c: Codec, s: string): Result<Bytes, DidError> {
    match c.decode58(s)
    case Some(bytes) => Ok(bytes)
    case None => Err(InvalidArgument)
  }

  /** Drops the multicodec prefix, if something follows it. */
  function StripPrefix(bytes: Bytes): Bytes {
    if |bytes| > 2 && bytes[..2] == ED25519_MULTICODEC_PREFIX then bytes[2..] else bytes
  }

  function FromMultibase(c: Codec, s: string): Result<Bytes, DidError> {
    if s == "" || s[0] != 'z' then Err(InvalidMultibase)
    else
      match c.decode58(s[1..])
      case Some(bytes) => Ok(StripPrefix(bytes))
      case None => Err(InvalidMultibase)
  }

  function ToMultibase(c: Codec, key: Bytes): string {
    "z" + c.encode58(ED25519_MULTICODEC_PREFIX + key)
  }

  /** The multibase spelling reads back as the key it was made from, unless the key is empty. */
  lemma MultibaseRoundTrip(c: Codec, key: Bytes)
    requires Base58Law(c)
    ensures FromMultibase(c, ToMultibase(c, key)) == Ok(key) <==> key != []
  {
    var prefixed := ED25519_MULTICODEC_PREFIX + key;
    assert ToMultibase(c, key)[1..] == c.encode58(prefixed);
    assert prefixed[..2] == ED25519_MULTICODEC_PREFIX && prefixed[2..] == key;
  }
}
