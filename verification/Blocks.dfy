/** Blocks of a file: cutting a content into blocks, sealing each one, and opening it again. */
module Blocks {
  import opened Wrappers
  import opened Crypto

  type Byte = b: int | 0 <= b < 256

  /** A block encrypted under a session key, and its SHA-256, taken to be free of collisions. */
  datatype Cipher = Cipher(session: SessionKey, plain: seq<Byte>)

  datatype Digest = Digest(cipher: Cipher)

  /** A detached signature over a block, encrypted to the node keyring. */
  datatype EncSignature = GarbledEncSignature | EncSignature(recipients: set<KeyId>, signer: KeyId, plain: seq<Byte>)

  datatype BlockUploadInfo = BlockUploadInfo(index: nat, encSignature: EncSignature, hash: Digest)
  datatype Block = Block(info: BlockUploadInfo, encData: Cipher)

  datatype RevisionKeys = RevisionKeys(session: SessionKey, nodeKR: KeyRing, addrKR: KeyRing)

  // ---- cutting

  /** Pieces of length `n`, the last one possibly shorter, none empty. */
  function Split<T>(s: seq<T>, n: nat): seq<seq<T>>
    requires n > 0
  {
    if s == [] then [] else if |s| <= n then [s] else [s[..n]] + Split(s[n..], n)
  }

  function Flatten<T>(pieces: seq<seq<T>>): seq<T> {
    if pieces == [] then [] else pieces[0] + Flatten(pieces[1..])
  }

  function Lengths<T>(pieces: seq<seq<T>>): seq<int> {
    seq(|pieces|, k requires 0 <= k < |pieces| => |pieces[k]|)
  }

  function Sum(s: seq<int>): int {
    if s == [] then 0 else s[0] + Sum(s[1..])
  }

  lemma {:induction false} SplitJoins<T>(s: seq<T>, n: nat)
    requires n > 0
    ensures Flatten(Split(s, n)) == s
  {
    if |s| > n {
      SplitJoins(s[n..], n);
      assert Split(s, n)[1..] == Split(s[n..], n);
    }
  }

  lemma MultipleTooLarge(d: int, n: int)
    requires n > 0
    ensures -n < d * n < n ==> d == 0
  {
  }

  lemma DivUnique(x: nat, n: nat, q: nat, r: nat)
    requires n > 0 && r < n && x == q * n + r
    ensures x / n == q && x % n == r
  {
    var d: int := x / n - q;
    assert d * n == r - x % n;
    assert -(n as int) < d * n < n;
    MultipleTooLarge(d, n);
  }

  lemma DivStep(x: nat, n: nat)
    requires n > 0
    ensures (x + n) / n == x / n + 1
  {
    var q, r := x / n, x % n;
    assert x + n == (q + 1) * n + r;
    DivUnique(x + n, n, q + 1, r);
  }

  lemma DivSmall(x: nat, n: nat)
    requires x < n
    ensures x / n == 0 && x % n == x
  {
  }

  /** The shape of a split: how many pieces, all full but the last, none empty. */
  lemma {:induction false} SplitShape<T>(s: seq<T>, n: nat)
    requires n > 0
    ensures |Split(s, n)| == (|s| + n - 1) / n
    ensures forall k | 0 <= k < |Split(s, n)| :: 0 < |Split(s, n)[k]| <= n
    ensures forall k | 0 <= k < |Split(s, n)| - 1 :: |Split(s, n)[k]| == n
  {
    if |s| > n {
      SplitShape(s[n..], n);
      DivStep(|s| - n + n - 1, n);
    } else if s != [] {
      DivStep(|s| - 1, n);
      DivSmall(|s| - 1, n);
    } else {
      DivSmall(n - 1, n);
    }
  }

  /** Taking the first piece off by hand, as a loop over a stream does. */
  lemma SplitStep<T>(s: seq<T>, n: nat)
    requires n > 0 && s != []
    ensures var k := if |s| < n then |s| else n;
            Split(s, n) == [s[..k]] + Split(s[k..], n)
  {
    if |s| <= n {
      assert s[..|s|] == s && s[|s|..] == [];
    }
  }

  lemma {:induction false} FlattenEmpty<T>(full: seq<seq<T>>, n: nat)
    requires n > 0
    requires forall k | 0 <= k < |full| :: |full[k]| == n
    requires Flatten(full) == []
    ensures full == []
  {
    if full != [] {
      assert |Flatten(full)| >= |full[0]|;
    }
  }

  /** Full pieces in front stay whole when what follows them is split. */
  lemma {:induction false} SplitAfterFull<T>(full: seq<seq<T>>, rest: seq<T>, n: nat)
    requires n > 0
    requires forall k | 0 <= k < |full| :: |full[k]| == n
    ensures Split(Flatten(full) + rest, n) == full + Split(rest, n)
  {
    if full == [] {
      assert Flatten(full) + rest == rest;
    } else {
      SplitAfterFull(full[1..], rest, n);
      var s := Flatten(full) + rest;
      assert s == full[0] + (Flatten(full[1..]) + rest);
      assert s[..n] == full[0] && s[n..] == Flatten(full[1..]) + rest;
      if s[n..] == [] {
        FlattenEmpty(full[1..], n);
      }
    }
  }

  lemma {:induction false} FlattenAppend<T>(a: seq<seq<T>>, b: seq<seq<T>>)
    ensures Flatten(a + b) == Flatten(a) + Flatten(b)
  {
    if a == [] {
      assert a + b == b;
    } else {
      FlattenAppend(a[1..], b);
      assert (a + b)[0] == a[0] && (a + b)[1..] == a[1..] + b;
    }
  }

  lemma {:induction false} SumLengths<T>(pieces: seq<seq<T>>)
    ensures Sum(Lengths(pieces)) == |Flatten(pieces)|
  {
    if pieces != [] {
      SumLengths(pieces[1..]);
      assert Lengths(pieces)[1..] == Lengths(pieces[1..]);
    }
  }

  // ---- sealing and opening one block

  /** Signing needs an address key, and the signature is encrypted to the node keyring. */
  predicate CanSeal(keys: RevisionKeys) {
    keys.addrKR != [] && keys.nodeKR != []
  }

  /** The block the upload loop makes of one piece. */
  function Seal(keys: RevisionKeys, index: nat, plain: seq<Byte>): Block {
    var encData := Cipher(keys.session, plain);
    var signature := if CanSeal(keys) then EncSignature(KeysOf(keys.nodeKR), keys.addrKR[0], plain)
                     else GarbledEncSignature;
    Block(BlockUploadInfo(index, signature, Digest(encData)), encData)
  }

  function SealFrom(keys: RevisionKeys, first: nat, pieces: seq<seq<Byte>>): seq<Block> {
    seq(|pieces|, k requires 0 <= k < |pieces| => Seal(keys, first + k, pieces[k]))
  }

  /** The pieces of a file, sealed and numbered from 1. */
  function SealAll(keys: RevisionKeys, pieces: seq<seq<Byte>>): seq<Block> {
    SealFrom(keys, 1, pieces)
  }

  function VerifyDetachedEncrypted(verifier: KeyRing, plain: seq<Byte>, signature: EncSignature, nodeKR: KeyRing)
    : Option<Error>
  {
    match signature
    case GarbledEncSignature => Some(Malformed)
    case EncSignature(recipients, signer, signed) =>
      if !(exists k | k in nodeKR :: k in recipients) then Some(CannotDecrypt)
      else if signer in verifier && signed == plain then None
      else Some(BadSignature)
  }

  /** `decryptBlockIntoBuffer`: the buffer afterwards and the error, if any. The hash is compared only after
      the bytes are in the buffer. */
  function DecryptBlockIntoBuffer(keys: RevisionKeys, verifier: KeyRing, buffer: seq<Byte>, block: Block)
    : (seq<Byte>, Option<Error>)
  {
    if block.encData.session != keys.session then (buffer, Some(CannotDecrypt))
    else
      var plain := block.encData.plain;
      match VerifyDetachedEncrypted(verifier, plain, block.info.encSignature, keys.nodeKR)
      case Some(e) => (buffer, Some(e))
      case None =>
        if Digest(block.encData) != block.info.hash then (buffer + plain, Some(BlockHashMismatch))
        else (buffer + plain, None)
  }

  /** A block that opens without an error. */
  predicate Good(keys: RevisionKeys, verifier: KeyRing, block: Block) {
    DecryptBlockIntoBuffer(keys, verifier, [], block).1 == None
  }

  /** Exactly what opening a block takes: its data is under the session key at hand, its signature opens for the node
      keyring and is one of the verifier's over exactly this plaintext, and its hash is that of the data. The plaintext
      is delivered unless it cannot be had or is not signed. */
  lemma BlockOpensIff(keys: RevisionKeys, verifier: KeyRing, buffer: seq<Byte>, block: Block)
    ensures var (after, err) := DecryptBlockIntoBuffer(keys, verifier, buffer, block);
            var signature := block.info.encSignature;
            var signed :=
              && block.encData.session == keys.session
              && signature.EncSignature? && (exists k | k in keys.nodeKR :: k in signature.recipients)
              && signature.signer in verifier && signature.plain == block.encData.plain;
            && (err == None <==> signed && block.info.hash == Digest(block.encData))
            && (err == Some(BlockHashMismatch) <==> signed && block.info.hash != Digest(block.encData))
            && after == (if signed then buffer + block.encData.plain else buffer)
    ensures Good(keys, verifier, block) <==> DecryptBlockIntoBuffer(keys, verifier, buffer, block).1 == None
  {
  }

  /** Blocks the uploader sealed are good for whoever knows the signer and holds the node key. */
  lemma SealedIsGood(keys: RevisionKeys, verifier: KeyRing, index: nat, plain: seq<Byte>)
    ensures Good(keys, verifier, Seal(keys, index, plain)) <==> CanSeal(keys) && keys.addrKR[0] in verifier
  {
    if CanSeal(keys) {
      assert keys.nodeKR[0] in keys.nodeKR;
    }
  }
}
