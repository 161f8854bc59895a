/** What was uploaded is what is downloaded. */
module RoundTrip {
  import opened Wrappers
  import opened Crypto
  import opened Blocks
  import opened BlockUpload
  import opened Revisions
  import opened DraftProtocol
  import opened FileUpload
  import opened Download

  /** How the server lists the blocks of a revision: each once, by ascending index. */
  ghost predicate ListedByIndex(blocks: seq<Block>, stored: set<Block>) {
    && ToSet(blocks) == stored
    && forall i, j | 0 <= i < j < |blocks| :: blocks[i].info.index < blocks[j].info.index
  }

  lemma EmptyListing(a: seq<Block>, stored: set<Block>)
    requires ListedByIndex(a, stored)
    ensures a == [] <==> stored == {}
  {
    if a != [] {
      assert a[0] in stored;
    }
  }

  lemma LastIsGreatest(a: seq<Block>, stored: set<Block>)
    requires ListedByIndex(a, stored) && a != []
    ensures forall y | y in stored :: y.info.index <= a[|a| - 1].info.index
  {
    forall y | y in stored ensures y.info.index <= a[|a| - 1].info.index {
      var i :| 0 <= i < |a| && a[i] == y;
    }
  }

  lemma ListedInit(a: seq<Block>, stored: set<Block>)
    requires ListedByIndex(a, stored) && a != []
    ensures ListedByIndex(a[..|a| - 1], stored - {a[|a| - 1]})
  {
    var n := |a| - 1;
    forall y ensures y in a[..n] <==> y in stored && y != a[n] {
      if y in a[..n] {
        var i :| 0 <= i < n && a[i] == y;
        assert y.info.index < a[n].info.index;
      }
      if y in stored && y != a[n] {
        assert y in a;
        var i :| 0 <= i < |a| && a[i] == y;
        assert a[..n][i] == y;
      }
    }
  }

  /** There is only one such listing. */
  lemma {:induction false} ListingIsUnique(a: seq<Block>, b: seq<Block>, stored: set<Block>)
    requires ListedByIndex(a, stored) && ListedByIndex(b, stored)
    ensures a == b
    decreases |a|
  {
    EmptyListing(a, stored);
    EmptyListing(b, stored);
    if a != [] {
      var x := a[|a| - 1];
      assert x in stored && x in b;
      assert b[|b| - 1] in stored && b[|b| - 1] in a;
      LastIsGreatest(a, stored);
      LastIsGreatest(b, stored);
      var i :| 0 <= i < |b| && b[i] == x;
      assert b[|b| - 1] == x;
      ListedInit(a, stored);
      ListedInit(b, stored);
      ListingIsUnique(a[..|a| - 1], b[..|b| - 1], stored - {x});
    }
  }

  lemma {:induction false} SealedBytes(keys: RevisionKeys, verifier: KeyRing, pieces: seq<seq<Byte>>, first: nat)
    requires CanSeal(keys) && keys.addrKR[0] in verifier
    requires forall k | 0 <= k < |pieces| :: pieces[k] != []
    ensures var blocks := SealFrom(keys, first, pieces);
            && AllGood(keys, verifier, blocks) && NoneEmpty(blocks) && Recorded(blocks, Lengths(pieces))
            && GoodBytes(keys, verifier, blocks) == Flatten(pieces)
  {
    var blocks := SealFrom(keys, first, pieces);
    forall k | 0 <= k < |pieces| ensures Good(keys, verifier, blocks[k]) {
      SealedIsGood(keys, verifier, first + k, pieces[k]);
    }
    if pieces != [] {
      SealedBytes(keys, verifier, pieces[1..], first + 1);
      assert blocks[1..] == SealFrom(keys, first + 1, pieces[1..]);
    }
  }

  /** The blocks of a finished job open to its content, and its recorded sizes fit them. */
  lemma JobOpens(job: Job, verifier: KeyRing)
    requires job.Valid()
    requires job.content != [] ==> CanSeal(job.keys) && job.keys.addrKR[0] in verifier
    ensures AllGood(job.keys, verifier, job.Blocks()) && NoneEmpty(job.Blocks())
    ensures Recorded(job.Blocks(), Lengths(job.Pieces()))
    ensures GoodBytes(job.keys, verifier, job.Blocks()) == job.content
  {
    SplitShape(job.content, job.size);
    SplitJoins(job.content, job.size);
    if job.content != [] {
      SealedBytes(job.keys, verifier, job.Pieces(), 1);
    }
  }

  lemma {:induction false} LeastOf(blocks: set<Block>) returns (m: Block)
    requires blocks != {}
    ensures m in blocks && forall y | y in blocks :: m.info.index <= y.info.index
    decreases blocks
  {
    var x :| x in blocks;
    var smaller := set y | y in blocks && y.info.index < x.info.index;
    assert x !in smaller && forall y | y in blocks :: y in smaller || x.info.index <= y.info.index;
    m := x;
    if smaller != {} {
      m := LeastOf(smaller);
    }
  }

  lemma ListedNext(blocks: seq<Block>, stored: set<Block>, m: Block)
    requires ListedByIndex(blocks, stored) && forall x | x in stored :: x.info.index < m.info.index
    ensures ListedByIndex(blocks + [m], stored + {m})
  {
    assert forall x :: x in blocks + [m] <==> x in blocks || x == m;
    forall i | 0 <= i < |blocks| ensures blocks[i].info.index < m.info.index {
      assert blocks[i] in stored;
    }
  }

  /** The server's answer to a request for all blocks of a revision. */
  method ListBlocks(stored: set<Block>) returns (blocks: seq<Block>)
    requires forall x, y | x in stored && y in stored && x.info.index == y.info.index :: x == y
    ensures ListedByIndex(blocks, stored)
  {
    blocks := [];
    var rest := stored;
    while rest != {}
      invariant rest <= stored && ListedByIndex(blocks, stored - rest)
      invariant forall x, y | x in stored - rest && y in rest :: x.info.index < y.info.index
      decreases rest
    {
      ghost var least := LeastOf(rest);
      var m :| m in rest && forall y | y in rest :: m.info.index <= y.info.index;
      ListedNext(blocks, stored - rest, m);
      assert stored - (rest - {m}) == (stored - rest) + {m};
      blocks, rest := blocks + [m], rest - {m};
    }
    assert stored - {} == stored;
  }

  lemma JobIsListed(job: Job)
    requires job.Valid()
    ensures ListedByIndex(job.Blocks(), ToSet(job.Blocks()))
    ensures forall x, y | x in job.Blocks() && y in job.Blocks() && x.info.index == y.info.index :: x == y
  {
  }

  /** What a reader makes of a committed record: the keys that the link's key material opens to, the listed blocks, and
      the recorded sizes fit together, and the blocks open to the content. Block signatures are checked against the
      address keys and the node's own. */
  lemma RecordOpens(parentKR: KeyRing, addrKR: KeyRing, verifier: KeyRing, sealed: Sealed, body: Body, record: Record,
                    blocks: seq<Block>)
    requires body.size > 0 && body.batch > 0 && addrKR != [] && addrKR[0] in verifier
    requires RecordOf(parentKR, addrKR, verifier, sealed, body) == Ok(record)
    requires ListedByIndex(blocks, record.blocks)
    ensures OpenSealed(parentKR, verifier, sealed).Ok?
    ensures var (nodeKR, session) := OpenSealed(parentKR, verifier, sealed).value;
            var keys := RevisionKeys(session, nodeKR, addrKR);
            && AllGood(keys, verifier + nodeKR, blocks) && NoneEmpty(blocks)
            && Recorded(blocks, record.data.blockSizes)
            && GoodBytes(keys, verifier + nodeKR, blocks) == body.content
  {
    var (nodeKR, session) := OpenSealed(parentKR, verifier, sealed).value;
    OpenedKeyRing(parentKR, verifier, sealed);
    var job := Job(RevisionKeys(session, nodeKR, addrKR), body.content, body.size, body.batch);
    JobOpens(job, verifier + nodeKR);
    JobIsListed(job);
    ListingIsUnique(blocks, job.Blocks(), record.blocks);
  }

  lemma RecordLists(parentKR: KeyRing, addrKR: KeyRing, verifier: KeyRing, sealed: Sealed, body: Body, record: Record)
    requires body.size > 0 && body.batch > 0
    requires RecordOf(parentKR, addrKR, verifier, sealed, body) == Ok(record)
    ensures forall x, y | x in record.blocks && y in record.blocks && x.info.index == y.info.index :: x == y
  {
    var (nodeKR, session) := OpenSealed(parentKR, verifier, sealed).value;
    JobIsListed(Job(RevisionKeys(session, nodeKR, addrKR), body.content, body.size, body.batch));
  }

  /** A reader opens the link's key material, lists the blocks of a committed record, and reads from any offset, with or
      without the recorded sizes, to the end with buffers of any sizes. */
  method DownloadRecord(parentKR: KeyRing, addrKR: KeyRing, verifier: KeyRing, sealed: Sealed, record: Record,
                        ghost body: Body, withSizes: bool, offset: int, batch: nat,
                        lost: nat -> Option<Error>, bufferSize: nat -> nat)
    returns (bytes: seq<Byte>, err: Option<Error>)
    requires batch > 0 && body.size > 0 && body.batch > 0 && addrKR != [] && addrKR[0] in verifier
    requires RecordOf(parentKR, addrKR, verifier, sealed, body) == Ok(record)
    requires forall k :: lost(k) != Some(EndOfFile)
    requires forall k :: bufferSize(k) > 0
    ensures err == None ==> 0 <= offset <= |body.content| && bytes == body.content[offset..]
    ensures 0 <= offset <= |body.content| ==> bytes <= body.content[offset..]
    ensures (forall k :: lost(k) == None) ==> (err == None <==> 0 <= offset <= |body.content|)
  {
    bytes := [];
    RecordLists(parentKR, addrKR, verifier, sealed, body, record);
    var material := OpenSealed(parentKR, verifier, sealed);
    var blocks := ListBlocks(record.blocks);
    RecordOpens(parentKR, addrKR, verifier, sealed, body, record, blocks);
    var keys := RevisionKeys(material.value.1, material.value.0, addrKR);
    var sizes := if withSizes then Some(record.data.blockSizes) else None;
    var reader;
    reader, err := DownloadFile(blocks, keys, verifier + keys.nodeKR, batch, lost, sizes, offset);
    if err.Some? {
      return;
    }
    bytes, err := ReadAll(reader, bufferSize);
  }

  /** The active revision after a commit is the committed one, with its record. */
  lemma CommitIsRead(f0: Folder, f: Folder, name: string, keys: Sealed, done: Commit)
    requires FolderInv(f0) && FolderInv(f) && Effect(f0, f, name, keys, done) && done.Commit?
    ensures done.id in f.links && f.links[done.id].id == done.id
    ensures done.revision in f.links[done.id].recorded && f.links[done.id].recorded[done.revision] == done.record
    ensures f.links[done.id].commits > 0
  {
    RecordKept(f0, f, name, keys, done, done.id, done.revision);
    assert PlacedAt(f, done.id);
    CommittedCounts(f.links[done.id], done.revision);
  }

  /** A file is uploaded in blocks of any size and batches of any length, under a free name or over a draft or an older
      revision, with any fault at any call. If the upload succeeded, a reader looks up the active revision of the
      link, opens the link's record for the keys, and reads from any offset: it gets the content from there, or is
      told that the offset lies outside. */
  method UploadThenDownload(c: Connection, replaceExistingDraft: bool, name: string, parentKR: KeyRing, addrKR: KeyRing,
                            verifier: KeyRing, random: Randomness, session: SessionKey, source: Source,
                            store: RevisionStore, size: nat, batch: nat, withSizes: bool, offset: int,
                            downloadBatch: nat, lost: nat -> Option<Error>, bufferSize: nat -> nat)
    returns (uploaded: Result<Option<FileId>>, bytes: seq<Byte>, err: Option<Error>)
    requires FolderInv(c.folder)
    requires addrKR != [] ==> addrKR[0] in verifier
    requires size > 0 && batch > 0 && downloadBatch > 0
    requires Untouched(source, store, Body(source.content, source.ending, size, batch))
    requires forall k :: lost(k) != Some(EndOfFile)
    requires forall k :: bufferSize(k) > 0
    modifies c, source, store
    ensures uploaded.Ok? ==> uploaded.value.Some? && c.calls > 0
    ensures uploaded.Ok? && err == None ==> 0 <= offset <= |source.content| && bytes == source.content[offset..]
    ensures uploaded.Ok? && 0 <= offset <= |source.content| ==> bytes <= source.content[offset..]
    ensures uploaded.Ok? && c.faultOf(c.calls - 1) == Delivered && (forall k :: lost(k) == None) ==>
              (err == None <==> 0 <= offset <= |source.content|)
  {
    hide *;
    bytes, err := [], None;
    ghost var f0, done := c.folder, NoCommit;
    ghost var body := Body(source.content, source.ending, size, batch);
    StopCases(0);
    uploaded, done := UploadFile(c, replaceExistingDraft, name, parentKR, addrKR, verifier, random, session,
                                 source, store, size, batch, 0);
    if uploaded.Err? {
      return;
    }
    CommitIsRead(f0, c.folder, name, RequestKeys(parentKR, addrKR, random, session), done);
    var link := c.folder.links[uploaded.value.value];
    var revision := GetActiveRevision(c, link);
    if revision.Err? {
      err := Some(revision.error);
      return;
    }
    assert revision.value in {done.revision};
    bytes, err := DownloadRecord(parentKR, addrKR, verifier, link.keys, link.recorded[revision.value], body, withSizes,
                                 offset, downloadBatch, lost, bufferSize);
  }
}
