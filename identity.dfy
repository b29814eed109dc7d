// Peer identities (identity.rs of volans-core): a peer id is the 32-byte
// ed25519 public key of the peer, written in base-58 as text. The base-58
// codec is a foreign library and is passed in as functions.
module Identity {
  import opened Wrappers
  import opened Bytes

  const PEER_ID_LEN: nat := 32

  type Bytes32 = s: seq<byte> | |s| == PEER_ID_LEN witness seq(32, _ => 0)

  datatype PeerId = PeerId(bytes: Bytes32)

  /// `identity::Error`.
  datatype Error = Bs58 | LengthInvalid

  /// `PeerId::from_public_key`: the key's own 32 bytes.
  function FromPublicKey(key: Bytes32): PeerId
  {
    PeerId(key)
  }

  /// `PeerId::from_bytes`.
  function FromBytes(bytes: Bytes32): PeerId
  {
    PeerId(bytes)
  }

  /// `PeerId::into_bytes`, and `as_bytes`, which borrows the same array.
  function IntoBytes(p: PeerId): Bytes32
  {
    p.bytes
  }

  /// The byte form and the peer id determine each other.
  lemma BytesRoundTrip(b: Bytes32, p: PeerId)
    ensures IntoBytes(FromBytes(b)) == b
    ensures FromBytes(IntoBytes(p)) == p
    ensures TryFromSlice(IntoBytes(p)) == Ok(p)
  {
  }

  /// A peer id made from a public key holds exactly the key's bytes: it is
  /// the peer id those bytes give, and the key's bytes read back from it.
  lemma PublicKeyBytes(key: Bytes32)
    ensures IntoBytes(FromPublicKey(key)) == key
    ensures FromPublicKey(key) == FromBytes(key)
    ensures TryFromSlice(key) == Ok(FromPublicKey(key))
  {
  }

  /// `PeerId::try_from_slice`: exactly 32 bytes, kept as they are.
  function TryFromSlice(bytes: seq<byte>): (r: Result<PeerId, Error>)
    ensures r.Ok? <==> |bytes| == PEER_ID_LEN
    ensures r.Ok? ==> r.value.bytes == bytes
    ensures r.Err? ==> r.error == LengthInvalid
  {
    if |bytes| == PEER_ID_LEN then Ok(PeerId(bytes)) else Err(LengthInvalid)
  }

  /// `FromStr for PeerId`: base-58 decode, then the length check.
  function FromStr(s: seq<byte>, bs58Decode: seq<byte> -> Option<seq<byte>>): (r: Result<PeerId, Error>)
    ensures bs58Decode(s).None? ==> r == Err(Bs58)
    ensures bs58Decode(s).Some? ==>
              (r.Ok? <==> |bs58Decode(s).value| == PEER_ID_LEN)
              && (r.Ok? ==> r.value.bytes == bs58Decode(s).value)
              && (r.Err? ==> r.error == LengthInvalid)
  {
    match bs58Decode(s)
    case None => Err(Bs58)
    case Some(bytes) => TryFromSlice(bytes)
  }

  /// `Display for PeerId` (`into_base58`).
  function ToBase58(p: PeerId, bs58Encode: seq<byte> -> seq<byte>): seq<byte>
  {
    bs58Encode(p.bytes)
  }

  /// Text form round trip: with a base-58 codec that decodes what it
  /// encodes, parsing the text of a peer id gives the peer id back.
  lemma FromStrOfDisplay(p: PeerId, bs58Encode: seq<byte> -> seq<byte>, bs58Decode: seq<byte> -> Option<seq<byte>>)
    requires bs58Decode(bs58Encode(p.bytes)) == Some(p.bytes)
    ensures FromStr(ToBase58(p, bs58Encode), bs58Decode) == Ok(p)
  {
  }

  /// A decoded text of any length other than 32 bytes is refused.
  lemma WrongLengthRefused(s: seq<byte>, bs58Decode: seq<byte> -> Option<seq<byte>>)
    requires bs58Decode(s).Some? && |bs58Decode(s).value| != PEER_ID_LEN
    ensures FromStr(s, bs58Decode) == Err(LengthInvalid)
  {
  }
}
