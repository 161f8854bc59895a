/** Symbolic OpenPGP: a message is a key packet, which hands a session key to the recipients,
    and a data packet, which only that session key opens (RFC 4880, sections 5.1 and 5.13). */
module Crypto {
  import opened Wrappers

  type KeyId = nat

  /** The keys of a ring, in order. The first one signs; any of them decrypts or verifies. */
  type KeyRing = seq<KeyId>

  datatype SessionKey = SessionKey(id: nat)

  /** A passphrase is signed apart from its message; a name or a hash key is signed inside it. A message without a
      signature counts as one of a signer nobody knows. */
  datatype Payload = Passphrase(token: nat) | Text(text: string, signer: KeyId) | HashKey(secret: nat, signer: KeyId)

  datatype KeyPacket = KeyPacket(recipients: set<KeyId>, session: SessionKey)
  datatype DataPacket = DataPacket(session: SessionKey, payload: Payload)

  /** An armored field of a link: what the server stores need not parse. */
  datatype Armored = Garbled | Message(keyPacket: KeyPacket, dataPacket: DataPacket)

  datatype ArmoredSignature = GarbledSignature | Signature(signer: KeyId, payload: Payload)
  datatype ArmoredKey = GarbledKey | LockedKey(key: KeyId, passphrase: Payload)

  /** What `generateCryptoKey` and the encryption of its passphrase draw at random. */
  datatype Randomness = Randomness(key: KeyId, token: nat, session: SessionKey)

  function KeysOf(kr: KeyRing): set<KeyId> {
    set k | k in kr
  }

  predicate Opens(kr: KeyRing, packet: KeyPacket) {
    exists k | k in kr :: k in packet.recipients
  }

  function DecryptSessionKey(kr: KeyRing, packet: KeyPacket): Result<SessionKey> {
    if Opens(kr, packet) then Ok(packet.session) else Err(CannotDecrypt)
  }

  function EncryptSessionKey(kr: KeyRing, session: SessionKey): Result<KeyPacket> {
    if kr == [] then Err(EmptyKeyring) else Ok(KeyPacket(KeysOf(kr), session))
  }

  function DecryptData(session: SessionKey, packet: DataPacket): Result<Payload> {
    if packet.session == session then Ok(packet.payload) else Err(CannotDecrypt)
  }

  function Encrypt(kr: KeyRing, session: SessionKey, payload: Payload): Result<Armored> {
    match EncryptSessionKey(kr, session)
    case Err(e) => Err(e)
    case Ok(packet) => Ok(Message(packet, DataPacket(session, payload)))
  }

  function Decrypt(kr: KeyRing, message: Armored): Result<Payload> {
    match message
    case Garbled => Err(Malformed)
    case Message(keyPacket, dataPacket) =>
      match DecryptSessionKey(kr, keyPacket)
      case Err(e) => Err(e)
      case Ok(session) => DecryptData(session, dataPacket)
  }

  /** Encryption with a signature inside, as the client library makes it for a name. */
  function EncryptName(kr: KeyRing, addrKR: KeyRing, session: SessionKey, name: string): Result<Armored> {
    if addrKR == [] then Err(EmptyKeyring) else Encrypt(kr, session, Text(name, addrKR[0]))
  }

  /** Decryption with a check of the signature inside. */
  function DecryptVerified(kr: KeyRing, verifier: KeyRing, message: Armored): Result<Payload> {
    match Decrypt(kr, message)
    case Err(e) => Err(e)
    case Ok(payload) => if !payload.Passphrase? && payload.signer in verifier then Ok(payload) else Err(BadSignature)
  }

  function SignDetached(kr: KeyRing, payload: Payload): Result<ArmoredSignature> {
    if kr == [] then Err(EmptyKeyring) else Ok(Signature(kr[0], payload))
  }

  function VerifyDetached(kr: KeyRing, payload: Payload, signature: ArmoredSignature): Option<Error> {
    match signature
    case GarbledSignature => Some(Malformed)
    case Signature(signer, signed) =>
      if signer in kr && signed == payload then None else Some(BadSignature)
  }

  function Unlock(key: ArmoredKey, passphrase: Payload): Result<KeyId> {
    match key
    case GarbledKey => Err(Malformed)
    case LockedKey(id, expected) => if expected == passphrase then Ok(id) else Err(WrongPassphrase)
  }

  // ---- crypto.go

  function EncryptWithSignature(kr: KeyRing, addrKR: KeyRing, session: SessionKey, payload: Payload)
    : Result<(Armored, ArmoredSignature)>
  {
    match Encrypt(kr, session, payload)
    case Err(e) => Err(e)
    case Ok(message) =>
      match SignDetached(addrKR, payload)
      case Err(e) => Err(e)
      case Ok(signature) => Ok((message, signature))
  }

  function GenerateNodeKeys(kr: KeyRing, addrKR: KeyRing, random: Randomness)
    : Result<(ArmoredKey, Armored, ArmoredSignature)>
  {
    var passphrase := Passphrase(random.token);
    match EncryptWithSignature(kr, addrKR, random.session, passphrase)
    case Err(e) => Err(e)
    case Ok((message, signature)) => Ok((LockedKey(random.key, passphrase), message, signature))
  }

  function GetKeyRing(kr: KeyRing, addrKR: KeyRing, key: ArmoredKey,
                      passphrase: Armored, passphraseSignature: ArmoredSignature): Result<KeyRing>
  {
    match Decrypt(kr, passphrase)
    case Err(e) => Err(e)
    case Ok(decrypted) =>
      match VerifyDetached(addrKR, decrypted, passphraseSignature)
      case Some(e) => Err(e)
      case None =>
        match Unlock(key, decrypted)
        case Err(e) => Err(e)
        case Ok(id) => Ok([id])
  }

  function ReencryptKeyPacket(srcKR: KeyRing, dstKR: KeyRing, passphrase: Armored): Result<Armored> {
    match passphrase
    case Garbled => Err(Malformed)
    case Message(keyPacket, dataPacket) =>
      match DecryptSessionKey(srcKR, keyPacket)
      case Err(e) => Err(e)
      case Ok(session) =>
        match EncryptSessionKey(dstKR, session)
        case Err(e) => Err(e)
        case Ok(packet) => Ok(Message(packet, dataPacket))
  }

  /** Exactly what makes a node open: the packet is for one of the keys at hand and its session key is that of the
      passphrase, any of the verifier's keys has signed exactly this passphrase, and it unlocks the node key. */
  lemma KeyRingOpensIff(kr: KeyRing, addrKR: KeyRing, key: ArmoredKey,
                        passphrase: Armored, signature: ArmoredSignature, nodeKR: KeyRing)
    ensures GetKeyRing(kr, addrKR, key, passphrase, signature) == Ok(nodeKR) <==>
            && passphrase.Message? && signature.Signature? && key.LockedKey?
            && (exists k | k in kr :: k in passphrase.keyPacket.recipients)
            && passphrase.keyPacket.session == passphrase.dataPacket.session
            && signature.signer in addrKR && signature.payload == passphrase.dataPacket.payload
            && key.passphrase == passphrase.dataPacket.payload
            && nodeKR == [key.key]
  {
  }

  /** Whoever opens a node under the source ring opens it under the destination ring after the swap,
      to the same node keyring or the same error, whatever key, signature and verifying ring. */
  lemma ReencryptKeepsKeyRing(srcKR: KeyRing, dstKR: KeyRing, passphrase: Armored)
    ensures ReencryptKeyPacket(srcKR, dstKR, passphrase).Ok? <==>
            passphrase.Message? && Opens(srcKR, passphrase.keyPacket) && dstKR != []
    ensures forall addrKR, key, signature ::
              ReencryptKeyPacket(srcKR, dstKR, passphrase).Ok? ==>
                GetKeyRing(dstKR, addrKR, key, ReencryptKeyPacket(srcKR, dstKR, passphrase).value, signature)
                == GetKeyRing(srcKR, addrKR, key, passphrase, signature)
    // Only the holders of the destination ring gain access: nobody else opens the new packet.
    ensures forall kr: KeyRing ::
              ReencryptKeyPacket(srcKR, dstKR, passphrase).Ok? ==>
                (Opens(kr, ReencryptKeyPacket(srcKR, dstKR, passphrase).value.keyPacket)
                 <==> exists k | k in kr :: k in dstKR)
  {
    var r := ReencryptKeyPacket(srcKR, dstKR, passphrase);
    if r.Ok? {
      assert dstKR[0] in dstKR && dstKR[0] in r.value.keyPacket.recipients;
      assert Opens(dstKR, r.value.keyPacket);
      assert Decrypt(dstKR, r.value) == Decrypt(srcKR, passphrase);
    }
  }

  /** Generated node keys open to the generated key, for exactly the rings that share a key with the
      one they were made for and the verifiers that know the signer. */
  lemma GenerateNodeKeysRoundTrip(kr: KeyRing, addrKR: KeyRing, random: Randomness,
                                  reader: KeyRing, verifier: KeyRing)
    ensures GenerateNodeKeys(kr, addrKR, random).Ok? <==> kr != [] && addrKR != []
    ensures GenerateNodeKeys(kr, addrKR, random).Ok? ==>
              var (key, message, signature) := GenerateNodeKeys(kr, addrKR, random).value;
              (GetKeyRing(reader, verifier, key, message, signature) == Ok([random.key])
               <==> (exists k | k in reader :: k in kr) && addrKR[0] in verifier)
  {
  }
}
