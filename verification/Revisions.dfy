/** Drafts, revisions and name conflicts: one folder of the server, as one client uploading a name sees it. */
module Revisions {
  import opened Wrappers
  import opened Crypto
  import opened Blocks
  import opened BlockUpload
  import LinkTree

  type FileId = nat
  type RevisionId = nat
  type LinkState = LinkTree.LinkState

  datatype RevisionState = DraftRevision | ActiveRevision | ObsoleteRevision

  /** The key material a file's record holds: the locked node key, its passphrase, and the content session key. */
  datatype Sealed = Sealed(
    nodeKey: ArmoredKey, nodePassphrase: Armored, signature: ArmoredSignature, content: KeyPacket)

  /** What the server keeps of a committed revision: what the commit carried, and the blocks uploaded to the draft. */
  datatype Record = Record(data: BlockData, blocks: set<Block>)

  /** `commits` counts the commits the server made on the link; the client never sees it. */
  datatype FileLink = FileLink(
    id: FileId, name: string, state: LinkState, revisions: map<RevisionId, RevisionState>,
    recorded: map<RevisionId, Record>, keys: Sealed, commits: nat)

  /** One folder. IDs from `next` on are unused. */
  datatype Folder = Folder(links: map<FileId, FileLink>, next: nat)

  const FILE_OR_FOLDER_NOT_FOUND := 2501
  const DRAFT_ALREADY_THERE := 2500

  // ---- the server's operations

  function InState(link: FileLink, state: RevisionState): set<RevisionId> {
    set r | r in link.revisions && link.revisions[r] == state
  }

  function Named(f: Folder, name: string, state: LinkState): set<FileId> {
    set id | id in f.links && f.links[id].name == name && f.links[id].state == state
  }

  predicate NameTaken(f: Folder, name: string) {
    Named(f, name, LinkTree.Active) + Named(f, name, LinkTree.Draft) != {}
  }

  /** A new link, with a draft under the next ID. */
  function NewFile(id: FileId, name: string, keys: Sealed): FileLink {
    FileLink(id, name, LinkTree.Draft, map[id + 1 := DraftRevision], map[], keys, 0)
  }

  function CreateFile(f: Folder, name: string, keys: Sealed): (Folder, Result<(FileId, RevisionId)>) {
    if NameTaken(f, name) then (f, Err(FileNameExist))
    else
      (Folder(f.links[f.next := NewFile(f.next, name, keys)], f.next + 2), Ok((f.next, f.next + 1)))
  }

  function ListRevisions(f: Folder, id: FileId): Result<map<RevisionId, RevisionState>> {
    if id in f.links then Ok(f.links[id].revisions) else Err(Api(FILE_OR_FOLDER_NOT_FOUND))
  }

  /** Deletes a link for good, whatever its state. */
  function DeleteChild(f: Folder, id: FileId): (Folder, Result<()>) {
    if id in f.links then (f.(links := f.links - {id}), Ok(())) else (f, Err(Api(FILE_OR_FOLDER_NOT_FOUND)))
  }

  /** Fails for a link that has only a draft. */
  function DeleteRevision(f: Folder, id: FileId, r: RevisionId): (Folder, Result<()>) {
    if id !in f.links || r !in f.links[id].revisions || f.links[id].state == LinkTree.Draft
    then (f, Err(Api(FILE_OR_FOLDER_NOT_FOUND)))
    else
      var link := f.links[id];
      (f.(links := f.links[id := link.(revisions := link.revisions - {r})]), Ok(()))
  }

  /** One draft per file. */
  function CreateRevision(f: Folder, id: FileId): (Folder, Result<RevisionId>) {
    if id !in f.links then (f, Err(Api(FILE_OR_FOLDER_NOT_FOUND)))
    else if InState(f.links[id], DraftRevision) != {} then (f, Err(Api(DRAFT_ALREADY_THERE)))
    else
      var link := f.links[id];
      (Folder(f.links[id := link.(revisions := link.revisions[f.next := DraftRevision])], f.next + 1), Ok(f.next))
  }

  function Promote(revisions: map<RevisionId, RevisionState>, r: RevisionId): map<RevisionId, RevisionState> {
    map x | x in revisions ::
      if x == r then ActiveRevision
      else if revisions[x] == ActiveRevision then ObsoleteRevision
      else revisions[x]
  }

  /** The link after the commit of one of its drafts. */
  function Commits(link: FileLink, r: RevisionId, record: Record): FileLink {
    link.(state := LinkTree.Active, revisions := Promote(link.revisions, r), recorded := link.recorded[r := record],
          commits := link.commits + 1)
  }

  function CommitRevision(f: Folder, id: FileId, r: RevisionId, record: Record): (Folder, Result<()>) {
    if id !in f.links || r !in f.links[id].revisions || f.links[id].revisions[r] != DraftRevision
       || f.links[id].state == LinkTree.Trashed
    then (f, Err(Api(FILE_OR_FOLDER_NOT_FOUND)))
    else (f.(links := f.links[id := Commits(f.links[id], r, record)]), Ok(()))
  }

  /** The revisions of a link that were ever committed. */
  function Committed(revisions: map<RevisionId, RevisionState>): map<RevisionId, RevisionState> {
    map r | r in revisions && revisions[r] != DraftRevision :: revisions[r]
  }

  // ---- what holds of every folder

  ghost predicate FileInv(link: FileLink) {
    && (forall r, s | r in InState(link, DraftRevision) && s in InState(link, DraftRevision) :: r == s)
    && (forall r, s | r in InState(link, ActiveRevision) && s in InState(link, ActiveRevision) :: r == s)
    && (InState(link, ActiveRevision) != {} <==> link.commits > 0)
    && |link.revisions| == link.commits + |InState(link, DraftRevision)|
    && link.recorded.Keys == Committed(link.revisions).Keys
    && (link.state == LinkTree.Draft ==> link.commits == 0)
    && (link.state == LinkTree.Active ==> link.commits > 0)
  }

  ghost predicate Placed(link: FileLink, id: FileId, next: nat) {
    && link.id == id < next
    && (forall r | r in link.revisions :: r < next)
    && FileInv(link)
  }

  ghost predicate PlacedAt(f: Folder, id: FileId)
    requires id in f.links
  {
    Placed(f.links[id], id, f.next)
  }

  predicate Holds(f: Folder, id: FileId, name: string) {
    id in f.links && f.links[id].name == name && f.links[id].state != LinkTree.Trashed
  }

  ghost predicate UniqueNames(f: Folder) {
    forall i, j, name | Holds(f, i, name) && Holds(f, j, name) :: i == j
  }

  ghost predicate FolderInv(f: Folder) {
    && (forall id {:trigger PlacedAt(f, id)} | id in f.links :: PlacedAt(f, id))
    && UniqueNames(f)
  }

  lemma SmallSet<T>(s: set<T>)
    requires forall x, y | x in s && y in s :: x == y
    ensures |s| == if s == {} then 0 else 1
  {
    if s != {} {
      var x :| x in s;
      assert s == {x};
    }
  }

  /** The counts a listing of revisions shows: total, active, draft and obsolete. */
  lemma RevisionCounts(link: FileLink)
    requires FileInv(link)
    ensures |link.revisions| == link.commits + |InState(link, DraftRevision)|
    ensures |InState(link, DraftRevision)| <= 1
    ensures |InState(link, ActiveRevision)| == if link.commits > 0 then 1 else 0
    ensures |InState(link, ObsoleteRevision)| == if link.commits > 0 then link.commits - 1 else 0
    ensures link.state != LinkTree.Trashed ==> (link.state == LinkTree.Draft <==> link.commits == 0)
  {
    var d, a, o := InState(link, DraftRevision), InState(link, ActiveRevision), InState(link, ObsoleteRevision);
    SmallSet(d);
    SmallSet(a);
    assert link.revisions.Keys == d + a + o;
    assert |d + a + o| == |d| + |a| + |o|;
  }

  /** Replacing one record by a sound one of the same name, which is not brought back from the trash. */
  lemma ReplaceLink(f: Folder, id: FileId, link: FileLink, next: nat)
    requires FolderInv(f) && id in f.links && next >= f.next && Placed(link, id, next)
    requires link.name == f.links[id].name
    requires f.links[id].state == LinkTree.Trashed ==> link.state == LinkTree.Trashed
    ensures FolderInv(Folder(f.links[id := link], next))
  {
    var f' := Folder(f.links[id := link], next);
    forall x | x in f'.links ensures PlacedAt(f', x) {
      assert x != id ==> PlacedAt(f, x);
    }
    forall i, j, name | Holds(f', i, name) && Holds(f', j, name) ensures i == j {
      assert Holds(f, i, name) && Holds(f, j, name);
    }
  }

  lemma AddLink(f: Folder, link: FileLink, next: nat)
    requires FolderInv(f) && link.id == f.next < next && Placed(link, f.next, next)
    requires !exists id :: Holds(f, id, link.name)
    ensures FolderInv(Folder(f.links[f.next := link], next))
  {
    var f' := Folder(f.links[f.next := link], next);
    forall x | x in f'.links ensures PlacedAt(f', x) {
      assert x in f.links ==> PlacedAt(f, x);
    }
    forall i, j, n | Holds(f', i, n) && Holds(f', j, n) ensures i == j {
      assert i != f.next ==> Holds(f, i, n);
      assert j != f.next ==> Holds(f, j, n);
    }
  }

  lemma FreeName(f: Folder, name: string)
    ensures NameTaken(f, name) <==> exists id :: Holds(f, id, name)
  {
    var taken := Named(f, name, LinkTree.Active) + Named(f, name, LinkTree.Draft);
    if NameTaken(f, name) {
      var id :| id in taken;
      assert Holds(f, id, name);
    }
    if id :| Holds(f, id, name) {
      assert id in taken;
    }
  }

  lemma FreshDraft(id: FileId, name: string, keys: Sealed)
    ensures Placed(NewFile(id, name, keys), id, id + 2)
    ensures InState(NewFile(id, name, keys), DraftRevision) == {id + 1}
  {
    var link := NewFile(id, name, keys);
    assert InState(link, DraftRevision) == {id + 1} && InState(link, ActiveRevision) == {};
    assert |link.revisions.Keys| == 1;
  }

  lemma CreateFileCases(f: Folder, name: string, keys: Sealed)
    ensures var link := NewFile(f.next, name, keys);
            && link.id == f.next && link.name == name
            && CreateFile(f, name, keys).0
               == if NameTaken(f, name) then f else Folder(f.links[f.next := link], f.next + 2)
  {
  }

  lemma CreateFileInv(f: Folder, name: string, keys: Sealed)
    requires FolderInv(f)
    ensures FolderInv(CreateFile(f, name, keys).0)
  {
    hide *;
    CreateFileCases(f, name, keys);
    if !NameTaken(f, name) {
      FreshDraft(f.next, name, keys);
      FreeName(f, name);
      AddLink(f, NewFile(f.next, name, keys), f.next + 2);
    }
  }

  lemma DeleteChildInv(f: Folder, id: FileId)
    requires FolderInv(f)
    ensures FolderInv(DeleteChild(f, id).0)
  {
    var f' := DeleteChild(f, id).0;
    forall x | x in f'.links ensures PlacedAt(f', x) {
      assert PlacedAt(f, x);
    }
    forall i, j, name | Holds(f', i, name) && Holds(f', j, name) ensures i == j {
      assert Holds(f, i, name) && Holds(f, j, name);
    }
  }

  /** A change of the drafts alone, down to none or up to one, keeps a link sound. */
  lemma DraftsChanged(link: FileLink, link': FileLink, drafts: set<RevisionId>)
    requires FileInv(link) && link' == link.(revisions := link'.revisions)
    requires InState(link', ActiveRevision) == InState(link, ActiveRevision)
    requires Committed(link'.revisions) == Committed(link.revisions)
    requires InState(link', DraftRevision) == drafts && forall r, s | r in drafts && s in drafts :: r == s
    requires |link'.revisions| - |drafts| == |link.revisions| - |InState(link, DraftRevision)|
    ensures FileInv(link')
  {
  }

  lemma WithoutDraft(link: FileLink, r: RevisionId)
    requires r in InState(link, DraftRevision)
    ensures var link' := link.(revisions := link.revisions - {r});
            && InState(link', DraftRevision) == InState(link, DraftRevision) - {r}
            && InState(link', ActiveRevision) == InState(link, ActiveRevision)
            && |link'.revisions| == |link.revisions| - 1
  {
    var link' := link.(revisions := link.revisions - {r});
    assert link.revisions.Keys == link'.revisions.Keys + {r};
  }

  lemma DraftsNotCommitted(revisions: map<RevisionId, RevisionState>, r: RevisionId)
    ensures r in revisions && revisions[r] == DraftRevision ==>
              Committed(revisions - {r}) == Committed(revisions)
    ensures r !in revisions ==> Committed(revisions[r := DraftRevision]) == Committed(revisions)
  {
  }

  lemma OneDraft(link: FileLink, r: RevisionId)
    requires FileInv(link) && r in InState(link, DraftRevision)
    ensures InState(link, DraftRevision) == {r} && r in link.revisions && link.revisions[r] == DraftRevision
  {
  }

  lemma DraftDropped(link: FileLink, r: RevisionId)
    requires FileInv(link) && r in InState(link, DraftRevision)
    ensures var link' := link.(revisions := link.revisions - {r});
            FileInv(link') && InState(link', DraftRevision) == {}
  {
    hide *;
    OneDraft(link, r);
    WithoutDraft(link, r);
    DraftsNotCommitted(link.revisions, r);
    DraftsChanged(link, link.(revisions := link.revisions - {r}), {});
  }

  /** Deleting a revision keeps a folder sound as long as it is a draft. */
  lemma DeleteRevisionInv(f: Folder, id: FileId, r: RevisionId)
    requires FolderInv(f)
    requires id in f.links && r in f.links[id].revisions ==> f.links[id].revisions[r] == DraftRevision
    ensures FolderInv(DeleteRevision(f, id, r).0)
    ensures DeleteRevision(f, id, r).1.Ok? ==> InState(DeleteRevision(f, id, r).0.links[id], DraftRevision) == {}
  {
    if DeleteRevision(f, id, r).1.Ok? {
      assert PlacedAt(f, id);
      DraftDropped(f.links[id], r);
      ReplaceLink(f, id, f.links[id].(revisions := f.links[id].revisions - {r}), f.next);
    }
  }

  lemma MoreKeys<T>(m: map<RevisionId, T>, r: RevisionId, x: T)
    requires r !in m
    ensures |m[r := x]| == |m| + 1
  {
    assert m[r := x].Keys == m.Keys + {r};
  }

  lemma WithDraft(link: FileLink, r: RevisionId)
    requires r !in link.revisions
    ensures var link' := link.(revisions := link.revisions[r := DraftRevision]);
            && InState(link', DraftRevision) == InState(link, DraftRevision) + {r}
            && InState(link', ActiveRevision) == InState(link, ActiveRevision)
            && |link'.revisions| == |link.revisions| + 1
  {
    var link' := link.(revisions := link.revisions[r := DraftRevision]);
    forall x
      ensures x in InState(link', DraftRevision) <==> x in InState(link, DraftRevision) || x == r
      ensures x in InState(link', ActiveRevision) <==> x in InState(link, ActiveRevision)
    {
    }
    MoreKeys(link.revisions, r, DraftRevision);
  }

  lemma DraftAdded(link: FileLink, r: RevisionId)
    requires FileInv(link) && r !in link.revisions && InState(link, DraftRevision) == {}
    ensures var link' := link.(revisions := link.revisions[r := DraftRevision]);
            FileInv(link') && InState(link', DraftRevision) == {r}
  {
    hide *;
    WithDraft(link, r);
    DraftsNotCommitted(link.revisions, r);
    DraftsChanged(link, link.(revisions := link.revisions[r := DraftRevision]), {r});
  }

  lemma CreateRevisionInv(f: Folder, id: FileId)
    requires FolderInv(f)
    ensures FolderInv(CreateRevision(f, id).0)
    ensures CreateRevision(f, id).1.Ok? ==>
              InState(CreateRevision(f, id).0.links[id], DraftRevision) == {CreateRevision(f, id).1.value}
  {
    if CreateRevision(f, id).1.Ok? {
      var link := f.links[id];
      assert PlacedAt(f, id);
      DraftAdded(link, f.next);
      var link' := link.(revisions := link.revisions[f.next := DraftRevision]);
      assert Placed(link', id, f.next + 1);
      ReplaceLink(f, id, link', f.next + 1);
    }
  }

  lemma Promoted(link: FileLink, r: RevisionId, record: Record)
    requires FileInv(link) && r in InState(link, DraftRevision)
    ensures var link' := Commits(link, r, record);
            FileInv(link') && InState(link', DraftRevision) == {} && InState(link', ActiveRevision) == {r}
  {
    var link' := Commits(link, r, record);
    SmallSet(InState(link, DraftRevision));
    forall x ensures x !in InState(link', DraftRevision) {
      assert x in InState(link', DraftRevision) ==> x in InState(link, DraftRevision);
    }
    assert InState(link', ActiveRevision) == {r};
    assert link'.revisions.Keys == link.revisions.Keys;
    assert Committed(link'.revisions).Keys == Committed(link.revisions).Keys + {r};
  }

  lemma CommitRevisionInv(f: Folder, id: FileId, r: RevisionId, record: Record)
    requires FolderInv(f)
    ensures FolderInv(CommitRevision(f, id, r, record).0)
    ensures CommitRevision(f, id, r, record).1.Ok? ==>
              && InState(CommitRevision(f, id, r, record).0.links[id], DraftRevision) == {}
              && InState(CommitRevision(f, id, r, record).0.links[id], ActiveRevision) == {r}
  {
    if CommitRevision(f, id, r, record).1.Ok? {
      assert PlacedAt(f, id);
      Promoted(f.links[id], r, record);
      ReplaceLink(f, id, CommitRevision(f, id, r, record).0.links[id], f.next);
    }
  }

  // ---- what an upload may do to a folder

  function Retired(committed: map<RevisionId, RevisionState>): map<RevisionId, RevisionState> {
    map r | r in committed :: ObsoleteRevision
  }

  datatype Commit = NoCommit | Commit(id: FileId, revision: RevisionId, record: Record)

  /** Without a commit on it a link changes in nothing but its drafts. A commit makes one new revision active, with its
      record, and leaves every revision committed before in place, obsolete, with the record it had. */
  ghost predicate LinkEffect(link: FileLink, link': FileLink, c: Commit) {
    if c.Commit? && c.id == link.id then
      && link' == link.(revisions := link'.revisions, state := LinkTree.Active, commits := link.commits + 1,
                        recorded := link.recorded[c.revision := c.record])
      && c.revision !in Committed(link.revisions)
      && Committed(link'.revisions) == Retired(Committed(link.revisions))[c.revision := ActiveRevision]
    else
      link' == link.(revisions := link'.revisions) && Committed(link'.revisions) == Committed(link.revisions)
  }

  function Blank(id: FileId, name: string, keys: Sealed): FileLink {
    FileLink(id, name, LinkTree.Draft, map[], map[], keys, 0)
  }

  /** What may become of one ID: a never-committed draft of the name may be deleted, a new draft of the name may
      appear, drafts of a link of the name may come and go, and `c`, if any, was committed. */
  ghost predicate IdEffect(f: Folder, f': Folder, id: FileId, name: string, keys: Sealed, c: Commit) {
    if id !in f'.links then
      && !(c.Commit? && c.id == id)
      && (id in f.links ==> f.links[id].name == name && f.links[id].state == LinkTree.Draft)
    else
      && f'.links[id].id == id
      && (id !in f.links ==> id >= f.next)
      && (if Holds(f, id, name) then LinkEffect(f.links[id], f'.links[id], c)
          else if id in f.links then f'.links[id] == f.links[id] && !(c.Commit? && c.id == id)
          else LinkEffect(Blank(id, name, keys), f'.links[id], c))
  }

  ghost predicate Effect(f: Folder, f': Folder, name: string, keys: Sealed, c: Commit) {
    f.next <= f'.next && forall id :: IdEffect(f, f', id, name, keys, c)
  }

  lemma EffectNothing(f: Folder, name: string, keys: Sealed)
    requires FolderInv(f)
    ensures Effect(f, f, name, keys, NoCommit)
  {
    forall id ensures IdEffect(f, f, id, name, keys, NoCommit) {
      assert id in f.links ==> PlacedAt(f, id);
    }
  }

  /** After a step that concerns one link only. */
  lemma EffectOne(f0: Folder, f: Folder, f': Folder, name: string, keys: Sealed, id: FileId, c: Commit)
    requires Effect(f0, f, name, keys, NoCommit)
    requires f'.next >= f.next
    requires forall x | x != id :: (x in f'.links <==> x in f.links) && (x in f.links ==> f'.links[x] == f.links[x])
    requires IdEffect(f0, f', id, name, keys, c)
    requires c.Commit? ==> c.id == id
    ensures Effect(f0, f', name, keys, c)
  {
    forall x ensures IdEffect(f0, f', x, name, keys, c) {
      assert IdEffect(f0, f, x, name, keys, NoCommit);
    }
  }

  lemma EffectCreateFile(f0: Folder, f: Folder, name: string, keys: Sealed)
    requires FolderInv(f0) && Effect(f0, f, name, keys, NoCommit)
    ensures Effect(f0, CreateFile(f, name, keys).0, name, keys, NoCommit)
  {
    if !NameTaken(f, name) {
      var f' := CreateFile(f, name, keys).0;
      assert f.next in f0.links ==> PlacedAt(f0, f.next);
      assert Committed(map[f.next + 1 := DraftRevision]) == map[];
      EffectOne(f0, f, f', name, keys, f.next, NoCommit);
    }
  }

  lemma EffectDeleteChild(f0: Folder, f: Folder, name: string, keys: Sealed, id: FileId)
    requires Effect(f0, f, name, keys, NoCommit)
    requires id in f.links ==> f.links[id].name == name && f.links[id].state == LinkTree.Draft
    ensures Effect(f0, DeleteChild(f, id).0, name, keys, NoCommit)
  {
    assert IdEffect(f0, f, id, name, keys, NoCommit);
    EffectOne(f0, f, DeleteChild(f, id).0, name, keys, id, NoCommit);
  }

  lemma EffectDeleteRevision(f0: Folder, f: Folder, name: string, keys: Sealed, id: FileId, r: RevisionId)
    requires Effect(f0, f, name, keys, NoCommit)
    requires Holds(f, id, name) && r in f.links[id].revisions && f.links[id].revisions[r] == DraftRevision
    ensures Effect(f0, DeleteRevision(f, id, r).0, name, keys, NoCommit)
  {
    var f' := DeleteRevision(f, id, r).0;
    if f' != f {
      assert Committed(f'.links[id].revisions) == Committed(f.links[id].revisions);
      assert IdEffect(f0, f, id, name, keys, NoCommit);
      EffectOne(f0, f, f', name, keys, id, NoCommit);
    }
  }

  lemma EffectCreateRevision(f0: Folder, f: Folder, name: string, keys: Sealed, id: FileId)
    requires Effect(f0, f, name, keys, NoCommit)
    requires Holds(f, id, name) && f.next !in f.links[id].revisions
    ensures Effect(f0, CreateRevision(f, id).0, name, keys, NoCommit)
  {
    var f' := CreateRevision(f, id).0;
    if f' != f {
      assert Committed(f'.links[id].revisions) == Committed(f.links[id].revisions);
      assert IdEffect(f0, f, id, name, keys, NoCommit);
      EffectOne(f0, f, f', name, keys, id, NoCommit);
    }
  }

  lemma EffectCommit(f0: Folder, f: Folder, name: string, keys: Sealed, id: FileId, r: RevisionId, record: Record)
    requires Effect(f0, f, name, keys, NoCommit) && Holds(f, id, name)
    ensures var (f', result) := CommitRevision(f, id, r, record);
            if result.Ok? then Effect(f0, f', name, keys, Commit(id, r, record)) else f' == f
  {
    var (f', result) := CommitRevision(f, id, r, record);
    if result.Ok? {
      assert Committed(f'.links[id].revisions) == Retired(Committed(f.links[id].revisions))[r := ActiveRevision];
      assert IdEffect(f0, f, id, name, keys, NoCommit);
      EffectOne(f0, f, f', name, keys, id, Commit(id, r, record));
    }
  }

  lemma StillCommitted(revisions: map<RevisionId, RevisionState>, r: RevisionId)
    ensures r in Committed(revisions) <==> r in revisions && revisions[r] != DraftRevision
    ensures r in Committed(revisions) ==> Committed(revisions)[r] == revisions[r]
  {
  }

  /** In terms of the active revision of a link that was ever committed: it stays the active one, unless the upload
      committed another on that link, and then it is kept as obsolete. */
  lemma ActiveRevisionKept(f: Folder, f': Folder, name: string, keys: Sealed, c: Commit, id: FileId, a: RevisionId)
    requires FolderInv(f) && FolderInv(f') && Effect(f, f', name, keys, c)
    requires id in f.links && a in InState(f.links[id], ActiveRevision)
    ensures id in f'.links
    ensures if c.Commit? && c.id == id
            then InState(f'.links[id], ActiveRevision) == {c.revision} && c.revision != a
                 && a in InState(f'.links[id], ObsoleteRevision) && f'.links[id].commits == f.links[id].commits + 1
            else InState(f'.links[id], ActiveRevision) == {a} && f'.links[id].commits == f.links[id].commits
  {
    assert PlacedAt(f, id) && IdEffect(f, f', id, name, keys, c);
    assert PlacedAt(f', id);
    var link, link' := f.links[id], f'.links[id];
    if link' != link {
      StillCommitted(link.revisions, a);
      StillCommitted(link'.revisions, a);
      var r := if c.Commit? && c.id == id then c.revision else a;
      StillCommitted(link'.revisions, r);
      assert r in InState(link', ActiveRevision);
    }
  }

  lemma CommittedCounts(link: FileLink, r: RevisionId)
    requires FileInv(link) && r in link.recorded
    ensures link.commits > 0
  {
    StillCommitted(link.revisions, r);
    var d := InState(link, DraftRevision);
    assert r in link.revisions.Keys - d;
    assert |link.revisions.Keys| == |link.revisions.Keys - d| + |d| by {
      assert link.revisions.Keys == (link.revisions.Keys - d) + d;
    }
  }

  /** Whatever was committed stays in the folder with its record, and a commit adds the record it carried. The key
      material of the link stays as it is. */
  lemma RecordKept(f: Folder, f': Folder, name: string, keys: Sealed, c: Commit, id: FileId, r: RevisionId)
    requires FolderInv(f) && FolderInv(f') && Effect(f, f', name, keys, c)
    ensures id in f.links && r in f.links[id].recorded ==>
              && id in f'.links && f'.links[id].keys == f.links[id].keys
              && r in f'.links[id].recorded && f'.links[id].recorded[r] == f.links[id].recorded[r]
    ensures c.Commit? && c.id == id && c.revision == r ==>
              id in f'.links && r in f'.links[id].recorded && f'.links[id].recorded[r] == c.record
  {
    assert IdEffect(f, f', id, name, keys, c);
    if id in f.links {
      assert PlacedAt(f, id);
      if r in f.links[id].recorded {
        CommittedCounts(f.links[id], r);
      }
    }
  }

  lemma SubsetOfSameSize<T>(a: set<T>, b: set<T>)
    requires a <= b && |a| == |b|
    ensures a == b
  {
    assert b == a + (b - a);
    assert |b| == |a| + |b - a|;
  }

  /** What an upload deletes is a link of its name that was never committed: it has no revision but drafts. */
  lemma OnlyDraftsDeleted(f: Folder, f': Folder, name: string, keys: Sealed, c: Commit, id: FileId)
    requires FolderInv(f) && Effect(f, f', name, keys, c)
    requires id in f.links && id !in f'.links
    ensures f.links[id].name == name && f.links[id].state == LinkTree.Draft && f.links[id].commits == 0
    ensures f.links[id].revisions.Keys == InState(f.links[id], DraftRevision)
  {
    assert PlacedAt(f, id) && IdEffect(f, f', id, name, keys, c);
    RevisionCounts(f.links[id]);
    SubsetOfSameSize(InState(f.links[id], DraftRevision), f.links[id].revisions.Keys);
  }
}
