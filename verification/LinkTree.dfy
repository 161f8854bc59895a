/** The server's tree of links, the keyring resolver that uses no cache, and what a move does to it. */
module LinkTree {
  import opened Wrappers
  import opened Crypto

  type LinkId = string
  type Email = string

  datatype LinkType = Folder | File
  datatype LinkState = Draft | Active | Trashed

  /** The hash of a name under the hash key of the folder that holds it. */
  datatype NameHash = NameHash(name: string, secret: nat)

  datatype Link = Link(
    linkId: LinkId,
    parentId: LinkId,
    kind: LinkType,
    state: LinkState,
    name: Armored,
    nameSignatureEmail: Email,
    nameHash: NameHash,
    signatureEmail: Email,
    nodeKey: ArmoredKey,
    nodePassphrase: Armored,
    nodePassphraseSignature: ArmoredSignature,
    nodeHashKey: Armored)

  /** What one signed-in account knows. */
  datatype Account = Account(
    mainShareKR: KeyRing,
    defaultAddrKR: KeyRing,
    signatureAddress: Email,
    addrKRs: map<Email, KeyRing>)

  type Tree = map<LinkId, Link>

  /** Every link is stored under its own ID; the empty ID stands for "above the root". */
  ghost predicate WellKeyed(t: Tree) {
    "" !in t && forall id | id in t :: t[id].linkId == id
  }

  // ---- acyclic trees

  ghost predicate Ranked(t: Tree, rank: map<LinkId, nat>) {
    forall id | id in t ::
      id in rank &&
      (t[id].parentId in t ==> t[id].parentId in rank && rank[t[id].parentId] < rank[id])
  }

  ghost predicate Acyclic(t: Tree) {
    exists rank :: Ranked(t, rank)
  }

  ghost function RankOf(t: Tree): (rank: map<LinkId, nat>)
    requires Acyclic(t)
    ensures Ranked(t, rank)
  {
    var rank :| Ranked(t, rank);
    rank
  }

  /** 0 above the root and for unknown IDs, and growing from parent to child. */
  ghost function Depth(t: Tree, id: LinkId): nat
    requires Acyclic(t)
  {
    if id in t then RankOf(t)[id] + 1 else 0
  }

  /** `root` is `id` or one of its ancestors. */
  ghost predicate InSubtree(t: Tree, root: LinkId, id: LinkId)
    requires Acyclic(t)
    decreases Depth(t, id)
  {
    id in t && (id == root || InSubtree(t, root, t[id].parentId))
  }

  // ---- drive.go: getSignatureVerificationKeyring

  function AddressKeys(acct: Account, emails: seq<Email>): KeyRing {
    if emails == [] then []
    else (if emails[0] in acct.addrKRs then acct.addrKRs[emails[0]] else []) + AddressKeys(acct, emails[1..])
  }

  function SignatureVerificationKeyring(acct: Account, emails: seq<Email>, extra: KeyRing): Result<KeyRing> {
    var ring := AddressKeys(acct, emails) + extra;
    if ring == [] then Err(NoKeyringForSignatureVerification) else Ok(ring)
  }

  // ---- cache.go: the resolver without caching

  function GetLink(t: Tree, id: LinkId): Result<Link> {
    if id == "" then Err(WrongUsageOfGetLink)
    else if id in t then Ok(t[id])
    else Err(NotFound)
  }

  /** Opens one node with the keyring of its parent. */
  function OpenNode(acct: Account, link: Link, parentKR: KeyRing): Result<KeyRing> {
    match SignatureVerificationKeyring(acct, [link.signatureEmail], [])
    case Err(e) => Err(e)
    case Ok(verifier) =>
      GetKeyRing(parentKR, verifier, link.nodeKey, link.nodePassphrase, link.nodePassphraseSignature)
  }

  /** A node whose parent did not resolve reports the parent's error. */
  function OpenUnder(acct: Account, link: Link, parentKR: Result<KeyRing>): Result<KeyRing> {
    if parentKR.Ok? then OpenNode(acct, link, parentKR.value) else parentKR
  }

  function ResolveLink(acct: Account, t: Tree, link: Link): Result<KeyRing>
    requires Acyclic(t)
    decreases Depth(t, link.parentId)
  {
    if link.parentId == "" then
      OpenNode(acct, link, acct.mainShareKR)
    else
      match GetLink(t, link.parentId)
      case Err(e) => Err(e)
      case Ok(parent) =>
        match ResolveLink(acct, t, parent)
        case Err(e) => Err(e)
        case Ok(parentKR) => OpenNode(acct, link, parentKR)
  }

  function ResolveById(acct: Account, t: Tree, id: LinkId): Result<KeyRing>
    requires Acyclic(t)
  {
    if id == "" then Ok(acct.mainShareKR)
    else
      match GetLink(t, id)
      case Err(e) => Err(e)
      case Ok(link) => ResolveLink(acct, t, link)
  }

  /** The two entry points agree: a node is opened with the keyring resolved for its parent's ID. */
  lemma ResolveThroughParent(acct: Account, t: Tree, link: Link)
    requires Acyclic(t)
    ensures ResolveLink(acct, t, link) ==
            OpenUnder(acct, link, ResolveById(acct, t, link.parentId))
  {
  }

  // ---- names and hash keys

  /** The name of a link under the keyring of its parent, signed by one of the two addresses the link names. */
  function GetName(acct: Account, link: Link, parentKR: KeyRing): Result<string> {
    match SignatureVerificationKeyring(acct, [link.nameSignatureEmail, link.signatureEmail], [])
    case Err(e) => Err(e)
    case Ok(verifier) =>
      match DecryptVerified(parentKR, verifier, link.name)
      case Err(e) => Err(e)
      case Ok(payload) => if payload.Text? then Ok(payload.text) else Err(Malformed)
  }

  function GetHashKey(acct: Account, link: Link, nodeKR: KeyRing): Result<nat> {
    match SignatureVerificationKeyring(acct, [link.signatureEmail], nodeKR)
    case Err(e) => Err(e)
    case Ok(verifier) =>
      match DecryptVerified(nodeKR, verifier, link.nodeHashKey)
      case Err(e) => Err(e)
      case Ok(payload) => if payload.HashKey? then Ok(payload.secret) else Err(Malformed)
  }

  /** The name a reader finds: decrypted with the keyring resolved for the parent. */
  function NameOf(acct: Account, t: Tree, id: LinkId): Result<string>
    requires Acyclic(t)
  {
    match GetLink(t, id)
    case Err(e) => Err(e)
    case Ok(link) =>
      match ResolveById(acct, t, link.parentId)
      case Err(e) => Err(e)
      case Ok(parentKR) => GetName(acct, link, parentKR)
  }

  // ---- what opens and reads, in terms of the records

  /** The ring of some addresses holds every key of each of them that is known, and no other. */
  lemma {:induction false} AddressKeysHold(acct: Account, emails: seq<Email>, k: KeyId)
    ensures k in AddressKeys(acct, emails) <==> exists e :: e in emails && e in acct.addrKRs && k in acct.addrKRs[e]
    decreases |emails|
  {
    if emails != [] {
      AddressKeysHold(acct, emails[1..], k);
      assert forall e :: e in emails <==> e == emails[0] || e in emails[1..];
    }
  }

  predicate HasKey(acct: Account, email: Email, k: KeyId) {
    email in acct.addrKRs && k in acct.addrKRs[email]
  }

  predicate HasKeys(acct: Account, email: Email) {
    email in acct.addrKRs && acct.addrKRs[email] != []
  }

  lemma RingOf(acct: Account, email: Email, extra: KeyRing)
    ensures forall k :: k in AddressKeys(acct, [email]) + extra <==> HasKey(acct, email, k) || k in extra
    ensures AddressKeys(acct, [email]) + extra == [] <==> !HasKeys(acct, email) && extra == []
  {
    assert [email][1..] == [];
    assert AddressKeys(acct, [email]) == if email in acct.addrKRs then acct.addrKRs[email] else [];
  }

  lemma RingOfTwo(acct: Account, first: Email, second: Email)
    ensures forall k :: k in AddressKeys(acct, [first, second]) <==> HasKey(acct, first, k) || HasKey(acct, second, k)
    ensures AddressKeys(acct, [first, second]) == [] <==> !HasKeys(acct, first) && !HasKeys(acct, second)
  {
    assert [first, second][1..] == [second];
    RingOf(acct, second, []);
    assert AddressKeys(acct, [second]) + [] == AddressKeys(acct, [second]);
  }

  /** A message opens for a ring, and holds a payload. */
  predicate Holds(kr: KeyRing, message: Armored, payload: Payload) {
    && message.Message?
    && (exists k | k in kr :: k in message.keyPacket.recipients)
    && message.dataPacket == DataPacket(message.keyPacket.session, payload)
  }

  lemma NodeOpensIff(acct: Account, link: Link, parentKR: KeyRing, nodeKR: KeyRing)
    ensures OpenNode(acct, link, parentKR) == Err(NoKeyringForSignatureVerification) <==>
            !HasKeys(acct, link.signatureEmail)
    ensures OpenNode(acct, link, parentKR) == Ok(nodeKR) <==>
            && link.nodeKey.LockedKey? && link.nodePassphraseSignature.Signature?
            && Holds(parentKR, link.nodePassphrase, link.nodeKey.passphrase)
            && HasKey(acct, link.signatureEmail, link.nodePassphraseSignature.signer)
            && link.nodePassphraseSignature.payload == link.nodeKey.passphrase
            && nodeKR == [link.nodeKey.key]
  {
    RingOf(acct, link.signatureEmail, []);
    var verifier := AddressKeys(acct, [link.signatureEmail]) + [];
    KeyRingOpensIff(parentKR, verifier, link.nodeKey, link.nodePassphrase, link.nodePassphraseSignature, nodeKR);
  }

  /** A node's keyring resolves exactly if its parent's does, the passphrase opens for the parent and unlocks the node
      key, and any key of the address that signed the node has signed it. The parent of a root is the share. */
  lemma NodeResolvesIff(acct: Account, t: Tree, id: LinkId, nodeKR: KeyRing)
    requires WellKeyed(t) && Acyclic(t) && id in t
    ensures var link, parentKR := t[id], ResolveById(acct, t, t[id].parentId);
            && (link.parentId == "" ==> parentKR == Ok(acct.mainShareKR))
            && (link.parentId != "" && link.parentId !in t ==> parentKR == Err(NotFound))
            && (parentKR.Err? ==> ResolveById(acct, t, id) == parentKR)
            && (parentKR.Ok? ==>
                  (ResolveById(acct, t, id) == Err(NoKeyringForSignatureVerification) <==>
                   !HasKeys(acct, link.signatureEmail)))
            && (ResolveById(acct, t, id) == Ok(nodeKR) <==>
                && parentKR.Ok?
                && link.nodeKey.LockedKey? && link.nodePassphraseSignature.Signature?
                && Holds(parentKR.value, link.nodePassphrase, link.nodeKey.passphrase)
                && HasKey(acct, link.signatureEmail, link.nodePassphraseSignature.signer)
                && link.nodePassphraseSignature.payload == link.nodeKey.passphrase
                && nodeKR == [link.nodeKey.key])
  {
    var link, parentKR := t[id], ResolveById(acct, t, t[id].parentId);
    ResolveThroughParent(acct, t, link);
    if parentKR.Ok? {
      NodeOpensIff(acct, link, parentKR.value, nodeKR);
    }
  }

  /** A node made by this client, under whatever parent it lies: it opens to its key exactly if the parent resolves to a
      ring that shares a key with the one it was made for, and the address it names holds the key that signed it. */
  lemma GeneratedNodeResolves(acct: Account, t: Tree, id: LinkId, kr: KeyRing, addrKR: KeyRing, random: Randomness)
    requires WellKeyed(t) && Acyclic(t) && id in t
    requires GenerateNodeKeys(kr, addrKR, random)
             == Ok((t[id].nodeKey, t[id].nodePassphrase, t[id].nodePassphraseSignature))
    ensures var parentKR, email := ResolveById(acct, t, t[id].parentId), t[id].signatureEmail;
            && addrKR != []
            && (ResolveById(acct, t, id) == Ok([random.key]) <==>
                && parentKR.Ok? && (exists k | k in parentKR.value :: k in kr) && HasKey(acct, email, addrKR[0]))
            && (parentKR.Ok? ==>
                  (ResolveById(acct, t, id) == Err(NoKeyringForSignatureVerification) <==> !HasKeys(acct, email)))
  {
    NodeResolvesIff(acct, t, id, [random.key]);
  }

  /** A name reads exactly if it opens for the parent and a key of one of the two addresses the link names signed it. */
  lemma NameReadsIff(acct: Account, link: Link, parentKR: KeyRing, name: string)
    ensures GetName(acct, link, parentKR) == Ok(name) <==>
            exists signer ::
              && Holds(parentKR, link.name, Text(name, signer))
              && (HasKey(acct, link.nameSignatureEmail, signer) || HasKey(acct, link.signatureEmail, signer))
  {
    RingOfTwo(acct, link.nameSignatureEmail, link.signatureEmail);
    assert AddressKeys(acct, [link.nameSignatureEmail, link.signatureEmail]) + []
           == AddressKeys(acct, [link.nameSignatureEmail, link.signatureEmail]);
    if GetName(acct, link, parentKR) == Ok(name) {
      assert Holds(parentKR, link.name, Text(name, link.name.dataPacket.payload.signer));
    }
  }

  /** A hash key reads exactly if it opens for its folder and is signed by the folder's own key or by its address. */
  lemma HashKeyReadsIff(acct: Account, link: Link, nodeKR: KeyRing, secret: nat)
    ensures GetHashKey(acct, link, nodeKR) == Ok(secret) <==>
            exists signer ::
              && Holds(nodeKR, link.nodeHashKey, HashKey(secret, signer))
              && (HasKey(acct, link.signatureEmail, signer) || signer in nodeKR)
  {
    RingOf(acct, link.signatureEmail, nodeKR);
    if GetHashKey(acct, link, nodeKR) == Ok(secret) {
      assert Holds(nodeKR, link.nodeHashKey, HashKey(secret, link.nodeHashKey.dataPacket.payload.signer));
    }
  }

  // ---- folder.go: the record a move leaves on the server

  datatype MoveRequest = MoveRequest(
    parentId: LinkId,
    originalHash: NameHash,
    name: Armored,
    nameHash: NameHash,
    nameSignatureEmail: Email,
    nodePassphrase: Armored)

  function Moved(link: Link, req: MoveRequest): Link {
    link.(parentId := req.parentId, name := req.name, nameHash := req.nameHash,
          nameSignatureEmail := req.nameSignatureEmail, nodePassphrase := req.nodePassphrase)
  }

  function AfterMove(t: Tree, src: LinkId, req: MoveRequest): Tree
    requires src in t
  {
    t[src := Moved(t[src], req)]
  }

  /** The address that the link names for its name after a move: the one it named before, if any. */
  function NameAddress(acct: Account, src: Link): Email {
    if src.nameSignatureEmail == "" then acct.signatureAddress else src.nameSignatureEmail
  }

  /** The encrypted name and its hash, under the destination's keyring and hash key. `session` is drawn for the name. */
  function NewName(acct: Account, dstKR: KeyRing, dst: Link, dstName: string, session: SessionKey)
    : Result<(Armored, NameHash)>
  {
    match EncryptName(dstKR, acct.defaultAddrKR, session, dstName)
    case Err(e) => Err(e)
    case Ok(name) =>
      match GetHashKey(acct, dst, dstKR)
      case Err(e) => Err(e)
      case Ok(secret) => Ok((name, NameHash(dstName, secret)))
  }

  /** The request a move sends, from what the two keyrings resolve to. */
  function MoveRequestFrom(acct: Account, dstKR: Result<KeyRing>, srcParentKR: Result<KeyRing>, src: Link, dst: Link,
                           dstName: string, session: SessionKey): Result<MoveRequest>
  {
    match dstKR
    case Err(e) => Err(e)
    case Ok(dstKR) =>
      match NewName(acct, dstKR, dst, dstName, session)
      case Err(e) => Err(e)
      case Ok((name, nameHash)) =>
        match srcParentKR
        case Err(e) => Err(e)
        case Ok(srcParentKR) =>
          match ReencryptKeyPacket(srcParentKR, dstKR, src.nodePassphrase)
          case Err(e) => Err(e)
          case Ok(passphrase) =>
            Ok(MoveRequest(dst.linkId, src.nameHash, name, nameHash, NameAddress(acct, src), passphrase))
  }

  /** The same with the plain resolver for the keyring of the old parent. */
  function MoveRequestUnder(acct: Account, t: Tree, dstKR: Result<KeyRing>, src: Link, dst: Link,
                            dstName: string, session: SessionKey): Result<MoveRequest>
    requires Acyclic(t)
  {
    MoveRequestFrom(acct, dstKR, ResolveById(acct, t, src.parentId), src, dst, dstName, session)
  }

  /** The request, computed with the plain resolver throughout. */
  function PlainMoveRequest(acct: Account, t: Tree, src: Link, dst: Link, dstName: string, session: SessionKey)
    : Result<MoveRequest>
    requires Acyclic(t)
  {
    MoveRequestUnder(acct, t, ResolveLink(acct, t, dst), src, dst, dstName, session)
  }

  predicate AsksFor(acct: Account, dstKR: KeyRing, src: Link, dst: Link, dstName: string, session: SessionKey,
                    req: MoveRequest)
  {
    && acct.defaultAddrKR != [] && dst.nodeHashKey.Message? && dst.nodeHashKey.dataPacket.payload.HashKey?
    && src.nodePassphrase.Message?
    && req.parentId == dst.linkId
    && req.originalHash == src.nameHash
    && req.name == Message(KeyPacket(KeysOf(dstKR), session),
                           DataPacket(session, Text(dstName, acct.defaultAddrKR[0])))
    && req.nameHash == NameHash(dstName, dst.nodeHashKey.dataPacket.payload.secret)
    && req.nameSignatureEmail
       == (if src.nameSignatureEmail == "" then acct.signatureAddress else src.nameSignatureEmail)
    && req.nodePassphrase == Message(KeyPacket(KeysOf(dstKR), src.nodePassphrase.keyPacket.session),
                                     src.nodePassphrase.dataPacket)
  }

  /** What a move asks for, field by field: the destination as parent, the hash of the source record so that the server
      can tell a change, the name encrypted for the destination and signed by the account, its hash under the
      destination's hash key, the address that stood for the old name or else the account's, and the passphrase's
      packet swapped. It can ask for it exactly if all these can be made. */
  lemma MoveRequestIff(acct: Account, dstKR: Result<KeyRing>, srcParentKR: Result<KeyRing>, src: Link, dst: Link,
                       dstName: string, session: SessionKey)
    ensures MoveRequestFrom(acct, dstKR, srcParentKR, src, dst, dstName, session).Ok? <==>
            && dstKR.Ok? && dstKR.value != [] && acct.defaultAddrKR != []
            && (exists secret, signer ::
                  && Holds(dstKR.value, dst.nodeHashKey, HashKey(secret, signer))
                  && (HasKey(acct, dst.signatureEmail, signer) || signer in dstKR.value))
            && srcParentKR.Ok? && src.nodePassphrase.Message?
            && (exists k | k in srcParentKR.value :: k in src.nodePassphrase.keyPacket.recipients)
    ensures MoveRequestFrom(acct, dstKR, srcParentKR, src, dst, dstName, session).Ok? ==>
              var req := MoveRequestFrom(acct, dstKR, srcParentKR, src, dst, dstName, session).value;
              AsksFor(acct, dstKR.value, src, dst, dstName, session, req)
  {
    if dstKR.Ok? {
      if secret, signer :|
        && Holds(dstKR.value, dst.nodeHashKey, HashKey(secret, signer))
        && (HasKey(acct, dst.signatureEmail, signer) || signer in dstKR.value)
      {
        HashKeyReadsIff(acct, dst, dstKR.value, secret);
      }
      if GetHashKey(acct, dst, dstKR.value).Ok? {
        HashKeyReadsIff(acct, dst, dstKR.value, GetHashKey(acct, dst, dstKR.value).value);
      }
    }
  }

  function ActiveLink(t: Tree, id: LinkId): Result<Link> {
    match GetLink(t, id)
    case Err(e) => Err(e)
    case Ok(link) => if link.state == Active then Ok(link) else Err(LinkMustBeActive)
  }

  /** The same from two IDs, with the checks made on the way. */
  function PlannedMove(acct: Account, t: Tree, srcId: LinkId, dstId: LinkId, dstName: string, session: SessionKey)
    : Result<MoveRequest>
    requires Acyclic(t)
  {
    match ActiveLink(t, srcId)
    case Err(e) => Err(e)
    case Ok(src) =>
      match ActiveLink(t, dstId)
      case Err(e) => Err(e)
      case Ok(dst) => PlainMoveRequest(acct, t, src, dst, dstName, session)
  }

  /** What a planned move leaves on the server under a fault. */
  function MoveOutcome(t: Tree, src: LinkId, plan: Result<MoveRequest>, fault: Fault): Tree {
    if plan.Err? || fault.Lost? || src !in t then t else AfterMove(t, src, plan.value)
  }

  ghost function MaxOf(s: set<nat>): (m: nat)
    requires s != {}
    ensures m in s && forall x | x in s :: x <= m
  {
    var x :| x in s;
    if s == {x} then x
    else
      var m := MaxOf(s - {x});
      assert s == (s - {x}) + {x};
      if m < x then x else m
  }

  /** Along a chain that climbs from `id` to `src`, ranks of the moved tree still fall. */
  lemma {:induction false} RankDescends(t: Tree, t': Tree, src: LinkId, id: LinkId)
    requires Acyclic(t) && Acyclic(t') && t.Keys == t'.Keys
    requires forall x | x in t && x != src :: t'[x].parentId == t[x].parentId
    requires InSubtree(t, src, id)
    ensures src in t && Depth(t', src) <= Depth(t', id)
    decreases Depth(t, id)
  {
    if id != src {
      RankDescends(t, t', src, t[id].parentId);
    }
  }

  /** Moving makes a cycle exactly when the destination lies in the moved subtree. */
  lemma MoveKeepsAcyclic(t: Tree, src: LinkId, req: MoveRequest)
    requires Acyclic(t) && src in t && req.parentId in t
    ensures Acyclic(AfterMove(t, src, req)) <==> !InSubtree(t, src, req.parentId)
  {
    var t' := AfterMove(t, src, req);
    if InSubtree(t, src, req.parentId) && Acyclic(t') {
      RankDescends(t, t', src, req.parentId);
      assert false;
    }
    if !InSubtree(t, src, req.parentId) {
      var rank := RankOf(t);
      var top: nat := if rank.Values == {} then 0 else MaxOf(rank.Values) + 1;
      var rank' := map id | id in rank :: if id in t && InSubtree(t, src, id) then rank[id] + top else rank[id];
      forall id | id in t'
        ensures id in rank' && (t'[id].parentId in t' ==>
                t'[id].parentId in rank' && rank'[t'[id].parentId] < rank'[id])
      {
        var p := t'[id].parentId;
        assert InSubtree(t, src, src);
        if p in t' {
          assert rank[p] in rank.Values && rank[id] in rank.Values;
        }
      }
      assert Ranked(t', rank');
    }
  }

  /** The records after a move: the moved one has another parent, name and passphrase, and is otherwise as it was, and
      so are all others. Its hash is the one that any link of this name carries in the destination. */
  ghost predicate MovedTo(acct: Account, t: Tree, t': Tree, srcId: LinkId, dst: Link, dstKR: KeyRing,
                          dstName: string, session: SessionKey)
  {
    && srcId in t && t'.Keys == t.Keys
    && (forall id | id in t && id != srcId :: t'[id] == t[id])
    && acct.defaultAddrKR != [] && dst.nodeHashKey.Message? && dst.nodeHashKey.dataPacket.payload.HashKey?
    && t[srcId].nodePassphrase.Message?
    && var was, moved := t[srcId], t'[srcId];
       && moved.linkId == was.linkId && moved.kind == was.kind && moved.state == was.state
       && moved.signatureEmail == was.signatureEmail && moved.nodeKey == was.nodeKey
       && moved.nodePassphraseSignature == was.nodePassphraseSignature && moved.nodeHashKey == was.nodeHashKey
       && moved.parentId == dst.linkId
       && moved.name == Message(KeyPacket(KeysOf(dstKR), session),
                                DataPacket(session, Text(dstName, acct.defaultAddrKR[0])))
       && moved.nameHash == NameHash(dstName, dst.nodeHashKey.dataPacket.payload.secret)
       && moved.nameSignatureEmail
          == (if was.nameSignatureEmail == "" then acct.signatureAddress else was.nameSignatureEmail)
       && moved.nodePassphrase == Message(KeyPacket(KeysOf(dstKR), was.nodePassphrase.keyPacket.session),
                                          was.nodePassphrase.dataPacket)
  }

  lemma AskedIsMoved(acct: Account, t: Tree, src: Link, dst: Link, dstKR: KeyRing, dstName: string,
                     session: SessionKey, req: MoveRequest)
    requires GetLink(t, src.linkId) == Ok(src) && AsksFor(acct, dstKR, src, dst, dstName, session, req)
    ensures MovedTo(acct, t, AfterMove(t, src.linkId, req), src.linkId, dst, dstKR, dstName, session)
  {
  }

  /** A move from IDs: exactly when it gets as far as the server, and what it then leaves there. */
  lemma PlannedMoveIff(acct: Account, t: Tree, srcId: LinkId, dstId: LinkId, dstName: string, session: SessionKey)
    requires WellKeyed(t) && Acyclic(t)
    ensures var plan := PlannedMove(acct, t, srcId, dstId, dstName, session);
            && (srcId in t && t[srcId].state != Active ==> plan == Err(LinkMustBeActive))
            && (srcId in t && t[srcId].state == Active && dstId in t && t[dstId].state != Active ==>
                  plan == Err(LinkMustBeActive))
            && (plan.Ok? <==>
                && srcId in t && t[srcId].state == Active && dstId in t && t[dstId].state == Active
                && MoveRequestFrom(acct, ResolveById(acct, t, dstId), ResolveById(acct, t, t[srcId].parentId),
                                   t[srcId], t[dstId], dstName, session).Ok?)
            && (plan.Ok? ==>
                  && ResolveById(acct, t, dstId).Ok?
                  && plan.value.originalHash == t[srcId].nameHash
                  && MovedTo(acct, t, AfterMove(t, srcId, plan.value), srcId, t[dstId],
                             ResolveById(acct, t, dstId).value, dstName, session))
  {
    var plan := PlannedMove(acct, t, srcId, dstId, dstName, session);
    if plan.Ok? {
      var src, dst := t[srcId], t[dstId];
      var dstKR, srcParentKR := ResolveById(acct, t, dstId), ResolveById(acct, t, src.parentId);
      MoveRequestIff(acct, dstKR, srcParentKR, src, dst, dstName, session);
      AskedIsMoved(acct, t, src, dst, dstKR.value, dstName, session, plan.value);
    }
  }

  /** All nodes, and all IDs that are not nodes, resolve alike in both trees. */
  ghost predicate SameKeyRings(acct: Account, t: Tree, t': Tree)
    requires Acyclic(t)
  {
    Acyclic(t') && forall id :: ResolveById(acct, t', id) == ResolveById(acct, t, id)
  }

  /** What `moveLink` puts in its request when it gets as far as the server. */
  ghost predicate ReencryptedFor(acct: Account, t: Tree, src: LinkId, req: MoveRequest)
    requires Acyclic(t) && src in t
  {
    && req.parentId in t
    && ResolveById(acct, t, t[src].parentId).Ok?
    && ResolveById(acct, t, req.parentId).Ok?
    && ReencryptKeyPacket(ResolveById(acct, t, t[src].parentId).value,
                          ResolveById(acct, t, req.parentId).value,
                          t[src].nodePassphrase) == Ok(req.nodePassphrase)
  }

  lemma {:induction false} MoveKeepsKeyRing(acct: Account, t: Tree, src: LinkId, req: MoveRequest, id: LinkId)
    requires WellKeyed(t) && Acyclic(t) && src in t
    requires ReencryptedFor(acct, t, src, req)
    requires Acyclic(AfterMove(t, src, req))
    ensures ResolveById(acct, AfterMove(t, src, req), id) == ResolveById(acct, t, id)
    decreases Depth(AfterMove(t, src, req), id)
  {
    var t' := AfterMove(t, src, req);
    if id in t {
      MoveKeepsKeyRing(acct, t, src, req, t'[id].parentId);
      ResolveThroughParent(acct, t, t[id]);
      ResolveThroughParent(acct, t', t'[id]);
      if id == src {
        ReencryptKeepsKeyRing(ResolveById(acct, t, t[src].parentId).value,
                              ResolveById(acct, t, req.parentId).value, t[src].nodePassphrase);
      }
    }
  }

  /** The move theorem: no node of the tree changes its resolved keyring, or the error it resolves to. */
  lemma {:induction false} MoveKeepsKeyRings(acct: Account, t: Tree, src: LinkId, req: MoveRequest)
    requires WellKeyed(t) && Acyclic(t) && src in t
    requires ReencryptedFor(acct, t, src, req)
    requires !InSubtree(t, src, req.parentId)
    ensures SameKeyRings(acct, t, AfterMove(t, src, req))
  {
    MoveKeepsAcyclic(t, src, req);
    forall id
      ensures ResolveById(acct, AfterMove(t, src, req), id) == ResolveById(acct, t, id)
    {
      MoveKeepsKeyRing(acct, t, src, req, id);
    }
  }

  /** Whatever record of the destination its caller holds: if the keyring is the one its ID resolves to, a completed
      request holds the swapped packet. */
  lemma MoveReencrypts(acct: Account, t: Tree, dstKR: Result<KeyRing>, src: Link, dst: Link,
                       dstName: string, session: SessionKey)
    requires Acyclic(t)
    requires GetLink(t, src.linkId) == Ok(src) && dst.linkId in t && dstKR == ResolveById(acct, t, dst.linkId)
    requires MoveRequestUnder(acct, t, dstKR, src, dst, dstName, session).Ok?
    ensures var req := MoveRequestUnder(acct, t, dstKR, src, dst, dstName, session).value;
            && req.parentId == dst.linkId
            && ReencryptedFor(acct, t, src.linkId, req)
  {
  }

  lemma PlainMoveReencrypts(acct: Account, t: Tree, src: Link, dst: Link, dstName: string, session: SessionKey)
    requires Acyclic(t)
    requires GetLink(t, src.linkId) == Ok(src) && GetLink(t, dst.linkId) == Ok(dst)
    requires PlainMoveRequest(acct, t, src, dst, dstName, session).Ok?
    ensures var req := PlainMoveRequest(acct, t, src, dst, dstName, session).value;
            && req.parentId == dst.linkId
            && ReencryptedFor(acct, t, src.linkId, req)
  {
    MoveReencrypts(acct, t, ResolveLink(acct, t, dst), src, dst, dstName, session);
  }

  lemma ResolvesAlike(acct: Account, t: Tree, link: Link)
    requires Acyclic(t) && GetLink(t, link.linkId) == Ok(link)
    ensures ResolveById(acct, t, link.linkId) == ResolveLink(acct, t, link)
  {
  }

  /** A new name, encrypted for a ring and signed by an account, under the keyring it was encrypted for. */
  lemma NewNameReads(acct: Account, dstKR: KeyRing, session: SessionKey, dstName: string, link: Link)
    requires EncryptName(dstKR, acct.defaultAddrKR, session, dstName) == Ok(link.name)
    ensures var ring := AddressKeys(acct, [link.nameSignatureEmail, link.signatureEmail]);
            && acct.defaultAddrKR != []
            && GetName(acct, link, dstKR)
               == if ring == [] then Err(NoKeyringForSignatureVerification)
                  else if acct.defaultAddrKR[0] in ring then Ok(dstName) else Err(BadSignature)
  {
    hide AddressKeys;
    assert dstKR[0] in dstKR && Opens(dstKR, link.name.keyPacket);
    var ring := AddressKeys(acct, [link.nameSignatureEmail, link.signatureEmail]);
    assert ring + [] == ring;
  }

  /** After a move every name still reads as before, except that of the moved link. The new name is signed with the
      account's default address, while the link goes on naming the address that signed the old one: the new name
      reads exactly if the keys of that address, or of the one that signed the node, hold the signer's. */
  lemma MoveRenames(acct: Account, t: Tree, src: Link, dst: Link, dstName: string, session: SessionKey)
    requires WellKeyed(t) && Acyclic(t)
    requires GetLink(t, src.linkId) == Ok(src) && GetLink(t, dst.linkId) == Ok(dst)
    requires PlainMoveRequest(acct, t, src, dst, dstName, session).Ok?
    requires !InSubtree(t, src.linkId, dst.linkId)
    ensures var t' := AfterMove(t, src.linkId, PlainMoveRequest(acct, t, src, dst, dstName, session).value);
            var ring := AddressKeys(acct, [NameAddress(acct, src), src.signatureEmail]);
            && Acyclic(t')
            && (forall id | id != src.linkId :: NameOf(acct, t', id) == NameOf(acct, t, id))
            && acct.defaultAddrKR != []
            && (NameOf(acct, t', src.linkId) == Ok(dstName) <==> acct.defaultAddrKR[0] in ring)
            && (acct.defaultAddrKR[0] !in ring ==>
                  NameOf(acct, t', src.linkId)
                  == Err(if ring == [] then NoKeyringForSignatureVerification else BadSignature))
            && t'[src.linkId].nameHash.name == dstName
  {
    hide ResolveById, GetName, AddressKeys, EncryptName, InSubtree;
    PlainMoveReencrypts(acct, t, src, dst, dstName, session);
    var req := PlainMoveRequest(acct, t, src, dst, dstName, session).value;
    MoveKeepsKeyRings(acct, t, src.linkId, req);
    NewNameReads(acct, ResolveLink(acct, t, dst).value, session, dstName, Moved(src, req));
    ResolvesAlike(acct, t, dst);
  }

  /** Fields that only listing and state checks read do not enter a keyring. */
  lemma {:induction false} StateKeepsKeyRing(acct: Account, t: Tree, t': Tree, id: LinkId)
    requires Acyclic(t) && Acyclic(t') && t.Keys == t'.Keys
    requires forall x | x in t :: t'[x] == t[x].(state := t'[x].state)
    ensures ResolveById(acct, t', id) == ResolveById(acct, t, id)
    decreases Depth(t, id)
  {
    if id in t {
      StateKeepsKeyRing(acct, t, t', t[id].parentId);
      ResolveThroughParent(acct, t, t[id]);
      ResolveThroughParent(acct, t', t'[id]);
    }
  }

  lemma StateKeepsAcyclic(t: Tree, t': Tree)
    requires Acyclic(t) && t.Keys == t'.Keys
    requires forall x | x in t :: t'[x].parentId == t[x].parentId
    ensures Acyclic(t')
  {
    assert Ranked(t', RankOf(t));
  }
}
