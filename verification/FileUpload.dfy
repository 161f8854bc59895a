/** Whole uploads: the draft, the blocks and the commit, and sequences of uploads. */
module FileUpload {
  import opened Wrappers
  import opened Crypto
  import opened Blocks
  import opened BlockUpload
  import opened Revisions
  import opened DraftProtocol
  import LinkTree

  // ---- counting over uploads

  /** How often the link that holds a name was committed, and how many drafts it has. */
  ghost function CommitsOf(f: Folder, name: string): nat {
    if id :| Holds(f, id, name) then f.links[id].commits else 0
  }

  ghost function DraftsOf(f: Folder, name: string): nat {
    if id :| Holds(f, id, name) then |InState(f.links[id], DraftRevision)| else 0
  }

  lemma HolderIs(f: Folder, name: string, id: FileId)
    requires FolderInv(f) && Holds(f, id, name)
    ensures CommitsOf(f, name) == f.links[id].commits
    ensures DraftsOf(f, name) == |InState(f.links[id], DraftRevision)|
  {
  }

  lemma NoHolder(f: Folder, name: string)
    requires !exists id :: Holds(f, id, name)
    ensures CommitsOf(f, name) == 0 && DraftsOf(f, name) == 0
  {
  }

  lemma CommittedHolds(f0: Folder, f: Folder, name: string, keys: Sealed, c: Commit)
    requires Effect(f0, f, name, keys, c) && c.Commit?
    ensures Holds(f, c.id, name) && (c.id in f0.links ==> Holds(f0, c.id, name))
  {
    assert IdEffect(f0, f, c.id, name, keys, c);
  }

  lemma CommitsOfNewcomer(f0: Folder, f: Folder, name: string, keys: Sealed, c: Commit, n: string)
    requires FolderInv(f0) && FolderInv(f) && Effect(f0, f, name, keys, c)
    requires forall id :: Holds(f0, id, n) ==> id !in f.links
    ensures CommitsOf(f, n) == if c.Commit? && n == name then 1 else 0
  {
    if h :| Holds(f, h, n) {
      HolderIs(f, n, h);
      assert IdEffect(f0, f, h, name, keys, c);
      if c.Commit? && n == name {
        CommittedHolds(f0, f, name, keys, c);
        assert h == c.id;
      }
    } else {
      NoHolder(f, n);
      if c.Commit? {
        CommittedHolds(f0, f, name, keys, c);
      }
    }
  }

  /** The commits of every name add up: an upload adds one to its own name if it committed, and nothing else. A link
      that was deleted, and any link it replaced, had none. */
  lemma CommitsAddUp(f0: Folder, f: Folder, name: string, keys: Sealed, c: Commit, n: string)
    requires FolderInv(f0) && FolderInv(f) && Effect(f0, f, name, keys, c)
    ensures CommitsOf(f, n) == CommitsOf(f0, n) + (if c.Commit? && n == name then 1 else 0)
  {
    if h0 :| Holds(f0, h0, n) {
      HolderIs(f0, n, h0);
      assert IdEffect(f0, f, h0, name, keys, c) && PlacedAt(f0, h0);
      if h0 in f.links {
        assert Holds(f, h0, n);
        HolderIs(f, n, h0);
        if c.Commit? && n == name {
          CommittedHolds(f0, f, name, keys, c);
        }
      } else {
        CommitsOfNewcomer(f0, f, name, keys, c, n);
      }
    } else {
      NoHolder(f0, n);
      CommitsOfNewcomer(f0, f, name, keys, c, n);
    }
  }

  // ---- uploadFile

  /** 1 stops after the draft, 2 after the blocks; anything else goes on to the commit. */
  predicate Stops(testParam: int) {
    testParam == 1 || testParam == 2
  }

  method CommitNewRevision(c: Connection, addrKR: KeyRing, linkId: FileId, revision: RevisionId,
                           data: BlockData, store: RevisionStore,
                           ghost f0: Folder, ghost name: string, ghost keys: Sealed)
    returns (e: Option<Error>, ghost done: Commit)
    requires Uncommitted(f0, c.folder, name, keys) && OnlyDraft(c.folder, linkId, name, revision)
    modifies c`folder, c`calls
    ensures FolderInv(c.folder) && Effect(f0, c.folder, name, keys, done)
    ensures old(c.calls) <= c.calls
    ensures done.Commit? <==> addrKR != [] && !c.faultOf(old(c.calls)).Lost?
    ensures done.Commit? ==> done == Commit(linkId, revision, Record(data, store.stored))
    ensures done.Commit? ==>
              && c.folder == old(c.folder).(links := c.folder.links) && Holds(c.folder, linkId, name)
              && (var link := old(c.folder.links)[linkId];
                  c.folder.links == old(c.folder.links)[linkId := Commits(link, revision, done.record)])
              && InState(c.folder.links[linkId], DraftRevision) == {}
              && InState(c.folder.links[linkId], ActiveRevision) == {revision}
    ensures done.NoCommit? ==> c.folder == old(c.folder)
    ensures e == None <==> addrKR != [] && c.faultOf(old(c.calls)) == Delivered
    ensures done.Commit? ==>
              && c.calls == old(c.calls) + 1
              && (e.Some? <==> c.faultOf(old(c.calls)).Unacknowledged?)
  {
    done := NoCommit;
    if addrKR == [] {
      return Some(EmptyKeyring), done;
    }
    ghost var record := Record(data, store.stored);
    CommitRevisionInv(c.folder, linkId, revision, record);
    EffectCommit(f0, c.folder, name, keys, linkId, revision, record);
    assert PlacedAt(c.folder, linkId) && revision in InState(c.folder.links[linkId], DraftRevision);
    var fault := c.faultOf(c.calls);
    var result := c.CommitRevision(linkId, revision, data, store);
    if !fault.Lost? {
      done := Commit(linkId, revision, record);
    }
    return if result.Ok? then None else Some(result.error), done;
  }

  predicate Known(f: Folder, linkId: FileId, revision: Option<RevisionId>) {
    revision.Some? && linkId in f.links && revision.value in f.links[linkId].revisions
  }

  /** The first call of the block upload; it needs the revision to be there. */
  method GetRevisionVerification(c: Connection, linkId: FileId, revision: Option<RevisionId>) returns (e: Option<Error>)
    modifies c`calls
    ensures c.calls == old(c.calls) + 1
    ensures e == None <==> c.faultOf(old(c.calls)) == Delivered && Known(c.folder, linkId, revision)
  {
    var fault := c.faultOf(c.calls);
    c.calls := c.calls + 1;
    return if Report(fault).Some? then Report(fault)
           else if Known(c.folder, linkId, revision) then None
           else Some(Api(FILE_OR_FOLDER_NOT_FOUND));
  }

  /** What is to be uploaded, with the two sizes. */
  datatype Body = Body(content: seq<Byte>, ending: Error, size: nat, batch: nat)

  function RecordUnder(keys: RevisionKeys, body: Body): Record
    requires body.size > 0 && body.batch > 0
  {
    var job := Job(keys, body.content, body.size, body.batch);
    Record(BlockData(Manifest(job.Blocks()), |body.content|, Lengths(job.Pieces()), body.content), ToSet(job.Blocks()))
  }

  /** What a revision with this content is recorded with: its blocks, sealed with the keys that the link's own key
      material opens to, and a manifest and sizes that list exactly these. */
  function RecordOf(parentKR: KeyRing, addrKR: KeyRing, verifier: KeyRing, sealed: Sealed, body: Body): Result<Record>
    requires body.size > 0 && body.batch > 0
  {
    match OpenSealed(parentKR, verifier, sealed)
    case Err(e) => Err(e)
    case Ok((nodeKR, session)) => Ok(RecordUnder(RevisionKeys(session, nodeKR, addrKR), body))
  }

  /** The stream, the two sizes and the server's answers are such that the blocks go up. */
  ghost predicate BlocksGoUp(body: Body, fateOf: nat -> BatchFate)
    requires body.size > 0 && body.batch > 0
  {
    EndsCleanly(body.ending) && AllUneventful(fateOf, Split(Split(body.content, body.size), body.batch))
  }

  /** Nothing has been read or stored yet. */
  ghost predicate Untouched(source: Source, store: RevisionStore, body: Body)
    reads source, store
  {
    && source.Valid() && source.pos == 0 && source.content == body.content && source.ending == body.ending
    && store.Valid() && store.requests == [] && store.stored == {}
  }

  /** The block phase: the revision is verified, then the blocks are read, sealed with the handle's keys and stored. */
  method UploadBlocks(c: Connection, h: DraftHandle, addrKR: KeyRing, source: Source, store: RevisionStore,
                      size: nat, batch: nat, ghost body: Body)
    returns (r: Result<BlockData>)
    requires size > 0 && batch > 0 && body == Body(source.content, source.ending, size, batch)
    requires Untouched(source, store, body)
    modifies c`calls, source, store
    ensures c.calls == old(c.calls) + 1
    ensures r.Ok? ==>
              && c.faultOf(old(c.calls)) == Delivered
              && Known(c.folder, h.linkId, h.revision) && BlocksGoUp(body, store.fateOf)
    ensures r.Ok? ==> Record(r.value, store.stored) == RecordUnder(RevisionKeys(h.session, h.nodeKR, addrKR), body)
    ensures (&& c.Reliable() && Known(c.folder, h.linkId, h.revision)
             && BlocksGoUp(body, store.fateOf) && h.nodeKR != [] && addrKR != []) ==> r.Ok?
  {
    var keys := RevisionKeys(h.session, h.nodeKR, addrKR);
    var verification := GetRevisionVerification(c, h.linkId, h.revision);
    r := UploadAndCollectBlockData(Some(keys), verification, source, store, size, batch);
  }

  lemma OpenedKeyRing(parentKR: KeyRing, verifier: KeyRing, sealed: Sealed)
    ensures OpenSealed(parentKR, verifier, sealed).Ok? ==> OpenSealed(parentKR, verifier, sealed).value.0 != []
  {
  }

  lemma UncommittedParts(f0: Folder, f: Folder, name: string, keys: Sealed)
    ensures Uncommitted(f0, f, name, keys) <==> FolderInv(f0) && FolderInv(f) && Effect(f0, f, name, keys, NoCommit)
  {
  }

  lemma StopCases(testParam: int)
    ensures Stops(testParam) <==> testParam == 1 || testParam == 2
  {
  }

  lemma DraftInPlace(f: Folder, name: string, parentKR: KeyRing, verifier: KeyRing, h: DraftHandle)
    requires FolderInv(f) && Fits(f, name, parentKR, verifier, h)
    ensures h.revision.Some? && OnlyDraft(f, h.linkId, name, h.revision.value) && Known(f, h.linkId, h.revision)
    ensures h.nodeKR != [] && NameTaken(f, name) && DraftsOf(f, name) == 1
  {
    assert h.revision.value in InState(f.links[h.linkId], DraftRevision);
    HolderIs(f, name, h.linkId);
    FreeName(f, name);
    OpenedKeyRing(parentKR, verifier, f.links[h.linkId].keys);
  }

  /** After the commit of a draft that its handle fits: the record is what the link's key material gives. */
  lemma CommitInPlace(f: Folder, f': Folder, name: string, parentKR: KeyRing, addrKR: KeyRing, verifier: KeyRing,
                      h: DraftHandle, record: Record, body: Body)
    requires Fits(f, name, parentKR, verifier, h) && FolderInv(f') && Holds(f', h.linkId, name)
    requires f'.links == f.links[h.linkId := Commits(f.links[h.linkId], h.revision.value, record)]
    requires InState(f'.links[h.linkId], DraftRevision) == {}
    requires body.size > 0 && body.batch > 0
    requires record == RecordUnder(RevisionKeys(h.session, h.nodeKR, addrKR), body)
    ensures NameTaken(f', name) && DraftsOf(f', name) == 0
    ensures f'.links.Keys == f.links.Keys
    ensures RecordOf(parentKR, addrKR, verifier, f'.links[h.linkId].keys, body) == Ok(record)
  {
    HolderIs(f', name, h.linkId);
    FreeName(f', name);
  }

  lemma ReliableCall(c: Connection, k: nat)
    ensures c.Reliable() ==> c.faultOf(k) == Delivered
  {
  }

  /** The part of an upload that follows the draft: the blocks and the commit. */
  method FinishUpload(c: Connection, addrKR: KeyRing, h: DraftHandle, source: Source, store: RevisionStore,
                      size: nat, batch: nat, testParam: int, ghost body: Body, ghost parentKR: KeyRing,
                      ghost verifier: KeyRing, ghost f0: Folder, ghost name: string, ghost keys: Sealed)
    returns (r: Result<Option<FileId>>, ghost done: Commit)
    requires Uncommitted(f0, c.folder, name, keys) && Fits(c.folder, name, parentKR, verifier, h)
    requires size > 0 && batch > 0 && body == Body(source.content, source.ending, size, batch)
    requires Untouched(source, store, body)
    modifies c`folder, c`calls, source, store
    ensures FolderInv(c.folder) && Effect(f0, c.folder, name, keys, done)
    ensures old(c.calls) <= c.calls
    ensures done.Commit? ==>
              && !Stops(testParam) && addrKR != []
              && h.revision == Some(done.revision) && done.id == h.linkId && Holds(c.folder, done.id, name)
              && InState(c.folder.links[done.id], ActiveRevision) == {done.revision}
              && BlocksGoUp(body, store.fateOf) && done.record.blocks == store.stored
              && RecordOf(parentKR, addrKR, verifier, c.folder.links[done.id].keys, body) == Ok(done.record)
    ensures r.Ok? ==> r.value == if done.Commit? then Some(done.id) else None
    ensures r.Ok? && !Stops(testParam) ==> done.Commit?
    ensures done.Commit? ==>
              && old(c.calls) < c.calls
              && if r.Err? then c.faultOf(c.calls - 1).Unacknowledged? else c.faultOf(c.calls - 1) == Delivered
    ensures r.Ok? ==> NameTaken(c.folder, name) && DraftsOf(c.folder, name) == (if Stops(testParam) then 1 else 0)
    ensures c.folder.links.Keys == old(c.folder.links.Keys)
    ensures c.Reliable() && addrKR != [] ==> (r.Ok? <==> testParam == 1 || BlocksGoUp(body, store.fateOf))
  {
    hide *;
    done := NoCommit;
    UncommittedParts(f0, c.folder, name, keys);
    DraftInPlace(c.folder, name, parentKR, verifier, h);
    StopCases(testParam);
    if testParam == 1 {
      return Ok(None), done;
    }
    var data := UploadBlocks(c, h, addrKR, source, store, size, batch, body);
    if data.Err? {
      return Err(data.error), done;
    }
    if testParam == 2 {
      return Ok(None), done;
    }
    ghost var k, before := c.calls, c.folder;
    ReliableCall(c, k);
    var e;
    e, done := CommitNewRevision(c, addrKR, h.linkId, h.revision.value, data.value, store, f0, name, keys);
    if done.Commit? {
      CommitInPlace(before, c.folder, name, parentKR, addrKR, verifier, h, done.record, body);
      assert c.faultOf(c.calls - 1) == c.faultOf(k);
    }
    if e.Some? {
      return Err(e.value), done;
    }
    return Ok(Some(h.linkId)), done;
  }

  lemma NoRevision(f: Folder, name: string, parentKR: KeyRing, verifier: KeyRing, h: DraftHandle)
    requires h.revision.None?
    ensures !Fits(f, name, parentKR, verifier, h) && !Known(f, h.linkId, h.revision)
  {
  }

  /** One upload, stopped on purpose or by a failure at any call. `done` is the commit the server made, if any. A commit
      is made only after the stream ended and every block its manifest lists was stored; manifest, sizes and blocks
      are those of the content, sealed with the keys that the committed record opens to. */
  method UploadFile(c: Connection, replaceExistingDraft: bool, name: string, parentKR: KeyRing, addrKR: KeyRing,
                    verifier: KeyRing, random: Randomness, session: SessionKey, source: Source, store: RevisionStore,
                    size: nat, batch: nat, testParam: int)
    returns (r: Result<Option<FileId>>, ghost done: Commit)
    requires FolderInv(c.folder)
    requires addrKR != [] ==> addrKR[0] in verifier
    requires size > 0 && batch > 0
    requires Untouched(source, store, Body(source.content, source.ending, size, batch))
    modifies c, source, store
    ensures FolderInv(c.folder)
    ensures Effect(old(c.folder), c.folder, name, RequestKeys(parentKR, addrKR, random, session), done)
    ensures c.creates <= old(c.creates) + 2 && old(c.calls) <= c.calls
    ensures done.Commit? ==>
              var body := Body(source.content, source.ending, size, batch);
              && !Stops(testParam) && addrKR != [] && Holds(c.folder, done.id, name)
              && InState(c.folder.links[done.id], ActiveRevision) == {done.revision}
              && BlocksGoUp(body, store.fateOf) && done.record.blocks == store.stored
              && RecordOf(parentKR, addrKR, verifier, c.folder.links[done.id].keys, body) == Ok(done.record)
              && NewRevision(old(c.folder), done.revision)
    // the commit is reported as one unless its own answer was lost, and then it was the last call
    ensures r.Ok? ==> r.value == if done.Commit? then Some(done.id) else None
    ensures r.Ok? && !Stops(testParam) ==> done.Commit?
    ensures done.Commit? ==>
              && old(c.calls) < c.calls
              && if r.Err? then c.faultOf(c.calls - 1).Unacknowledged? else c.faultOf(c.calls - 1) == Delivered
    // a success leaves one draft or none on the name's link, but for a draft that is gone and not asked for
    ensures r.Ok? ==>
              (NameTaken(c.folder, name) && DraftsOf(c.folder, name) == (if Stops(testParam) then 1 else 0) <==>
               !(&& testParam == 1 && c.creates == old(c.creates) + 2
                 && c.faultOf(old(c.calls) + 7) == Unacknowledged(FileNameExist)))
    // nothing but a configured replacement or a listing that fails deletes a link
    ensures !replaceExistingDraft && c.NoFalseNotFound() ==> old(c.folder.links.Keys) <= c.folder.links.Keys
    ensures c.Reliable() && parentKR != [] && addrKR != [] && HolderOpens(old(c.folder), name, parentKR, verifier) ==>
              (r.Ok? <==>
               && (replaceExistingDraft || !HasDraft(old(c.folder), name))
               && (testParam == 1 || BlocksGoUp(Body(source.content, source.ending, size, batch), store.fateOf)))
  {
    hide *;
    done := NoCommit;
    ghost var f0, keys := c.folder, RequestKeys(parentKR, addrKR, random, session);
    ghost var body := Body(source.content, source.ending, size, batch);
    ghost var k := c.calls + 7;
    StopCases(testParam);
    var draft := CreateFileUploadDraft(c, replaceExistingDraft, name, parentKR, addrKR, verifier, random, session);
    UncommittedParts(f0, c.folder, name, keys);
    ReliableCall(c, k);
    if draft.Err? {
      return Err(draft.error), done;
    }
    if draft.value.revision.None? {
      NoRevision(c.folder, name, parentKR, verifier, draft.value);
      if testParam == 1 {
        return Ok(None), done;
      }
      var data := UploadBlocks(c, draft.value, addrKR, source, store, size, batch, body);
      return Err(data.error), done;
    }
    r, done := FinishUpload(c, addrKR, draft.value, source, store, size, batch, testParam, body, parentKR, verifier,
                            f0, name, keys);
  }

  // ---- many uploads

  /** One upload of a sequence; `fateOf` is what becomes of its batches. */
  datatype Upload = Upload(
    replaceExistingDraft: bool, name: string, random: Randomness, session: SessionKey,
    body: Body, fateOf: nat -> BatchFate, testParam: int)
  {
    ghost predicate Valid() {
      body.size > 0 && body.batch > 0 && forall k, n :: Possible(fateOf(k), n)
    }
  }

  /** How many of the uploads committed a revision of a name. */
  ghost function CommitCount(uploads: seq<Upload>, commits: seq<Commit>, name: string): nat
    requires |uploads| == |commits|
  {
    if uploads == [] then 0
    else CommitCount(uploads[..|uploads| - 1], commits[..|uploads| - 1], name)
         + (if commits[|uploads| - 1].Commit? && uploads[|uploads| - 1].name == name then 1 else 0)
  }

  /** The commits of every name are those that were there and those that the uploads of the name made. */
  ghost predicate CommitsCounted(f0: Folder, f: Folder, uploads: seq<Upload>, commits: seq<Commit>) {
    && |uploads| == |commits|
    && forall n :: CommitsOf(f, n) == CommitsOf(f0, n) + CommitCount(uploads, commits, n)
  }

  lemma CommitsCountedOne(f0: Folder, f: Folder, f': Folder, keys: Sealed, uploads: seq<Upload>, commits: seq<Commit>,
                          u: Upload, c: Commit)
    requires CommitsCounted(f0, f, uploads, commits)
    requires FolderInv(f) && FolderInv(f') && Effect(f, f', u.name, keys, c)
    ensures CommitsCounted(f0, f', uploads + [u], commits + [c])
  {
    forall n ensures CommitsOf(f', n) == CommitsOf(f0, n) + CommitCount(uploads + [u], commits + [c], n) {
      CommitsAddUp(f, f', u.name, keys, c, n);
      assert (uploads + [u])[..|uploads|] == uploads && (commits + [c])[..|uploads|] == commits;
    }
  }

  /** A committed revision is in the folder, recorded with the content of its upload under the link's own keys. */
  ghost predicate RecordPresent(f: Folder, parentKR: KeyRing, addrKR: KeyRing, verifier: KeyRing,
                                u: Upload, c: Commit)
  {
    && c.Commit? && u.Valid()
    && c.id in f.links && c.revision in f.links[c.id].recorded
    && f.links[c.id].recorded[c.revision] == c.record
    && RecordOf(parentKR, addrKR, verifier, f.links[c.id].keys, u.body) == Ok(c.record)
  }

  ghost predicate AllRecordsPresent(f: Folder, parentKR: KeyRing, addrKR: KeyRing, verifier: KeyRing,
                              uploads: seq<Upload>, commits: seq<Commit>)
  {
    && |uploads| == |commits|
    && forall i | 0 <= i < |uploads| && commits[i].Commit? ::
         RecordPresent(f, parentKR, addrKR, verifier, uploads[i], commits[i])
  }

  lemma AllRecordsPresentOne(f: Folder, f': Folder, keys: Sealed, parentKR: KeyRing, addrKR: KeyRing, verifier: KeyRing,
                       uploads: seq<Upload>, commits: seq<Commit>, u: Upload, c: Commit)
    requires AllRecordsPresent(f, parentKR, addrKR, verifier, uploads, commits)
    requires FolderInv(f) && FolderInv(f') && Effect(f, f', u.name, keys, c) && u.Valid()
    requires c.Commit? ==>
               c.id in f'.links && RecordOf(parentKR, addrKR, verifier, f'.links[c.id].keys, u.body) == Ok(c.record)
    ensures AllRecordsPresent(f', parentKR, addrKR, verifier, uploads + [u], commits + [c])
  {
    forall i | 0 <= i < |uploads| && commits[i].Commit?
      ensures RecordPresent(f', parentKR, addrKR, verifier, uploads[i], commits[i])
    {
      assert RecordPresent(f, parentKR, addrKR, verifier, uploads[i], commits[i]);
      RecordKept(f, f', u.name, keys, c, commits[i].id, commits[i].revision);
    }
    if c.Commit? {
      RecordKept(f, f', u.name, keys, c, c.id, c.revision);
    }
  }

  lemma DraftsOfOthers(f0: Folder, f: Folder, name: string, keys: Sealed, c: Commit, n: string)
    requires FolderInv(f0) && FolderInv(f) && Effect(f0, f, name, keys, c) && n != name
    ensures DraftsOf(f, n) == DraftsOf(f0, n)
  {
    forall id ensures Holds(f, id, n) <==> Holds(f0, id, n)
      ensures Holds(f0, id, n) ==> f.links[id] == f0.links[id]
    {
      assert IdEffect(f0, f, id, name, keys, c);
    }
    if id :| Holds(f0, id, n) {
      HolderIs(f0, n, id);
      HolderIs(f, n, id);
    } else {
      NoHolder(f0, n);
      NoHolder(f, n);
    }
  }

  /** No later upload is of the same name. */
  ghost predicate IsLast(uploads: seq<Upload>, i: nat)
    requires i < |uploads|
  {
    forall j | i < j < |uploads| :: uploads[j].name != uploads[i].name
  }

  /** The drafts of each name: as the last upload of the name left them, if that was a success, and as before where
      nothing was uploaded. */
  ghost predicate DraftsCounted(f0: Folder, f: Folder, uploads: seq<Upload>, results: seq<Result<Option<FileId>>>,
                                noFalseConflict: bool)
  {
    && |uploads| == |results|
    && (forall i | 0 <= i < |uploads| && IsLast(uploads, i) && results[i].Ok? ::
          uploads[i].testParam != 1 || noFalseConflict ==>
            DraftsOf(f, uploads[i].name) == if Stops(uploads[i].testParam) then 1 else 0)
    && forall n | (forall u | u in uploads :: u.name != n) :: DraftsOf(f, n) == DraftsOf(f0, n)
  }

  lemma DraftsCountedOne(f0: Folder, f: Folder, f': Folder, keys: Sealed, uploads: seq<Upload>,
                         results: seq<Result<Option<FileId>>>, u: Upload, r: Result<Option<FileId>>, c: Commit,
                         noFalseConflict: bool)
    requires DraftsCounted(f0, f, uploads, results, noFalseConflict)
    requires FolderInv(f) && FolderInv(f') && Effect(f, f', u.name, keys, c)
    requires r.Ok? && (u.testParam != 1 || noFalseConflict) ==>
               DraftsOf(f', u.name) == if Stops(u.testParam) then 1 else 0
    ensures DraftsCounted(f0, f', uploads + [u], results + [r], noFalseConflict)
  {
    var us := uploads + [u];
    forall i | 0 <= i < |uploads| && IsLast(us, i)
      ensures IsLast(uploads, i) && DraftsOf(f', us[i].name) == DraftsOf(f, us[i].name)
    {
      assert us[|uploads|].name != us[i].name;
      assert forall j | i < j < |uploads| :: us[j] == uploads[j];
      DraftsOfOthers(f, f', u.name, keys, c, us[i].name);
    }
    forall n | (forall v | v in us :: v.name != n) ensures DraftsOf(f', n) == DraftsOf(f0, n) {
      assert u in us && forall v | v in uploads :: v in us;
      DraftsOfOthers(f, f', u.name, keys, c, n);
    }
  }

  lemma NothingUploaded(f: Folder, parentKR: KeyRing, addrKR: KeyRing, verifier: KeyRing, noFalseConflict: bool)
    ensures CommitsCounted(f, f, [], []) && DraftsCounted(f, f, [], [], noFalseConflict)
    ensures AllRecordsPresent(f, parentKR, addrKR, verifier, [], [])
  {
  }

  /** An upload of a sequence starts afresh. */
  lemma StartsUntouched(u: Upload, source: Source, store: RevisionStore)
    requires u.Valid() && source.Valid() && source.pos == 0
    requires source.content == u.body.content && source.ending == u.body.ending
    requires store.Valid() && store.requests == [] && store.stored == {}
    ensures u.body == Body(source.content, source.ending, u.body.size, u.body.batch)
    ensures u.body.size > 0 && u.body.batch > 0 && Untouched(source, store, u.body)
  {
  }

  lemma HoldsIsThere(f: Folder, id: FileId, name: string)
    requires Holds(f, id, name)
    ensures id in f.links
  {
  }

  lemma NotDenied(c: Connection, k: nat)
    ensures c.NoFalseConflict() ==> c.faultOf(k) != Unacknowledged(FileNameExist)
  {
    assert Report(Unacknowledged(FileNameExist)) == Some(FileNameExist);
  }

  lemma ValidUpload(u: Upload)
    requires u.Valid()
    ensures u.body.size > 0 && u.body.batch > 0 && forall k, n :: Possible(u.fateOf(k), n)
  {
  }

  /** What each result says of its upload's commit, given that the upload made the calls `from` to `to - 1`. */
  ghost predicate Reported(c: Connection, u: Upload, r: Result<Option<FileId>>, commit: Commit, from: nat, to: nat) {
    && from <= to
    && (r.Ok? ==> (commit.Commit? <==> !Stops(u.testParam)) && (commit.Commit? <==> r.value.Some?))
    && (commit.Commit? ==>
          && from < to
          && (c.faultOf(to - 1) == Delivered || c.faultOf(to - 1).Unacknowledged?)
          && (r == Ok(Some(commit.id)) <==> c.faultOf(to - 1) == Delivered))
  }

  lemma Reports(c: Connection, u: Upload, r: Result<Option<FileId>>, commit: Commit, from: nat, to: nat)
    requires from <= to
    requires r.Ok? ==> r.value == if commit.Commit? then Some(commit.id) else None
    requires r.Ok? && !Stops(u.testParam) ==> commit.Commit?
    requires commit.Commit? ==> !Stops(u.testParam)
    requires commit.Commit? ==>
               && from < to
               && if r.Err? then c.faultOf(to - 1).Unacknowledged? else c.faultOf(to - 1) == Delivered
    ensures Reported(c, u, r, commit, from, to)
  {
  }

  /** Any sequence of uploads by one client, completed, abandoned or failed. Every link of the folder keeps at most one
      draft and at most one active revision, its revisions are its commits and its draft (see RevisionCounts); commits
      and drafts of every name are what the uploads of that name make them; and every revision ever committed on the
      way is still there at the end, recorded with what its upload read. Upload `i` made the calls from `bounds[i]` to
      `bounds[i + 1] - 1`. */
  method UploadAll(c: Connection, parentKR: KeyRing, addrKR: KeyRing, verifier: KeyRing, uploads: seq<Upload>)
    returns (results: seq<Result<Option<FileId>>>, ghost commits: seq<Commit>, ghost bounds: seq<nat>)
    requires FolderInv(c.folder)
    requires addrKR != [] ==> addrKR[0] in verifier
    requires forall u | u in uploads :: u.Valid()
    modifies c
    ensures FolderInv(c.folder)
    ensures CommitsCounted(old(c.folder), c.folder, uploads, commits)
    ensures DraftsCounted(old(c.folder), c.folder, uploads, results, c.NoFalseConflict())
    ensures AllRecordsPresent(c.folder, parentKR, addrKR, verifier, uploads, commits)
    ensures |results| == |commits| == |uploads|
    ensures |bounds| == |uploads| + 1 && bounds[0] == old(c.calls) && bounds[|uploads|] == c.calls
    ensures forall i | 0 <= i < |uploads| ::
              Reported(c, uploads[i], results[i], commits[i], bounds[i], bounds[i + 1])
    ensures c.creates <= old(c.creates) + 2 * |uploads|
  {
    hide *;
    results, commits, bounds := [], [], [c.calls];
    NothingUploaded(c.folder, parentKR, addrKR, verifier, c.NoFalseConflict());
    ghost var f0, noFalseConflict := c.folder, c.NoFalseConflict();
    for i := 0 to |uploads|
      invariant FolderInv(c.folder) && |results| == |commits| == i && c.creates <= old(c.creates) + 2 * i
      invariant CommitsCounted(f0, c.folder, uploads[..i], commits)
      invariant DraftsCounted(f0, c.folder, uploads[..i], results, noFalseConflict)
      invariant AllRecordsPresent(c.folder, parentKR, addrKR, verifier, uploads[..i], commits)
      invariant |bounds| == i + 1 && bounds[0] == old(c.calls) && bounds[i] == c.calls
      invariant forall j | 0 <= j < i :: Reported(c, uploads[j], results[j], commits[j], bounds[j], bounds[j + 1])
    {
      var u := uploads[i];
      assert u in uploads && uploads[..i] + [u] == uploads[..i + 1];
      ghost var k := c.calls + 7;
      NotDenied(c, k);
      ValidUpload(u);
      ghost var before, keys := c.folder, RequestKeys(parentKR, addrKR, u.random, u.session);
      var source := new Source(u.body.content, u.body.ending);
      var store := new RevisionStore(u.fateOf);
      StartsUntouched(u, source, store);
      var r, done := UploadFile(c, u.replaceExistingDraft, u.name, parentKR, addrKR, verifier, u.random, u.session,
                                source, store, u.body.size, u.body.batch, u.testParam);
      if done.Commit? {
        HoldsIsThere(c.folder, done.id, u.name);
        assert Body(source.content, source.ending, u.body.size, u.body.batch) == u.body;
      }
      CommitsCountedOne(f0, before, c.folder, keys, uploads[..i], commits, u, done);
      DraftsCountedOne(f0, before, c.folder, keys, uploads[..i], results, u, r, done, noFalseConflict);
      AllRecordsPresentOne(before, c.folder, keys, parentKR, addrKR, verifier, uploads[..i], commits, u, done);
      Reports(c, u, r, done, bounds[i], c.calls);
      results, commits, bounds := results + [r], commits + [done], bounds + [c.calls];
    }
    assert uploads[..|uploads|] == uploads;
  }
}
