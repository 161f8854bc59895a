/** One input for each place where the code does not do what one might expect. */
module Examples {
  import opened Wrappers
  import opened Crypto
  import opened LinkTree
  import opened LinkCache
  import Blocks
  import BlockUpload
  import CachedResolver
  import Drive
  import Revisions
  import DraftProtocol

  const NO_SIGNATURE := GarbledSignature
  const NO_HASH := NameHash("", 0)

  /** A link that nobody can open, where only its place and its state matter. */
  function Bare(id: LinkId, parentId: LinkId, kind: LinkType): Link {
    Link(id, parentId, kind, Active, Garbled, "", NO_HASH, "", GarbledKey, Garbled, NO_SIGNATURE, Garbled)
  }

  const NOBODY := Account([], [], "", map[])

  // ---- the cache

  lemma ListedTwice(d: Data, rows: Index)
    requires d.Keys == {"p", "q", "k"}
    requires "k" in ChildrenIn(rows, "p") && forall p | p in d :: "q" !in ChildrenIn(rows, p)
    ensures RowSubtree(d, rows, "p") == {"p", "k"}
  {
    assert RowReachesIn(d, rows, "p", "p", 0) && RowStep(d, rows, "p", "k");
    RowReachStep(d, rows, "p", "k", "p");
  }

  /** One ID under two parents: a removal of the first takes the entry, whose parent is the second. */
  method EvictedWithFormerParent() returns (parentId: LinkId, kept: set<LinkId>)
    ensures parentId == "q" && kept == {"q"}
  {
    hide Exact, Indexed, RowSubtree, Subtree, IndexAfter;
    var cache := new Cache(true);
    cache.Insert("q", Bare("q", "", Folder), None);
    cache.Insert("p", Bare("p", "", Folder), None);
    cache.Insert("k", Bare("k", "p", File), None);
    cache.Insert("k", Bare("k", "q", File), None);
    parentId := cache.data["k"].link.parentId;
    ListedTwice(cache.data, cache.children);
    cache.Remove("p", true);
    kept := cache.data.Keys;
  }

  function BrokenChain(): Tree {
    map["a" := Bare("a", "", Folder), "b" := Bare("b", "a", Folder), "c" := Bare("c", "b", File)]
  }

  lemma BrokenChainTree(t: Tree)
    requires t == BrokenChain()
    ensures WellKeyed(t) && Acyclic(t) && "a" in t && t["a"].kind == Folder && LinkTree.GetLink(t, "c") == Ok(t["c"])
    ensures "c" in t && t["c"].parentId == "b" && t["c"].linkId == "c"
  {
    assert Ranked(t, map["a" := 0, "b" := 1, "c" := 2]);
  }

  lemma ChainBroken(t: Tree, was: Data, t': Tree, now: Data, r: Option<Error>)
    requires "a" in t && t["a"].kind == Folder
    requires was.Keys == {"c"} && was["c"].link.parentId == "b"
    requires Drive.TrashedById(t, was, t', now, true, "a", Drive.TrashableFolder(t, "a", false, None), Delivered, r)
    ensures r == None && now.Keys == {"c"}
  {
    var fetched := was["a" := Entry(t["a"], None)];
    assert Drive.Refetched(true, was, "a", Ok(t["a"])) == fetched;
    ReachStep(fetched, "a", "a");
    ReachStep(fetched, "c", "a");
    ReachStep(fetched, "b", "a");
    assert Subtree(fetched, "a") == {"a"};
  }

  /** A cached link whose cached chain is broken above it stays when the folder at the top is trashed. */
  method GrandchildStaysCached() returns (r: Option<Error>, kept: set<LinkId>)
    ensures r == None && kept == {"c"}
  {
    hide BrokenChain, Bare, InSubtree, Drive.TrashedById, CachedResolver.CoherentData;
    var t := BrokenChain();
    BrokenChainTree(t);
    var server := new Drive.Server(t);
    var drive := new Drive.Drive(NOBODY, server, true);
    var c := drive.GetLink("c");
    ghost var was := drive.cache.data;
    r := drive.MoveFolderToTrashByID("a", false, None, Delivered);
    ChainBroken(t, was, server.links, drive.cache.data, r);
    kept := drive.cache.data.Keys;
  }

  /** The server has trashed a file, the answer is lost, and the cache goes on showing the file as active. */
  method TrashAnswerLost() returns (r: Option<Error>, onServer: LinkState, cached: Result<Link>)
    ensures r.Some? && onServer == Trashed && cached == Ok(Bare("f", "", File))
  {
    var t := map["f" := Bare("f", "", File)];
    assert Ranked(t, map["f" := 0]);
    var server := new Drive.Server(t);
    var drive := new Drive.Drive(NOBODY, server, true);
    var before := drive.GetLink("f");
    r := drive.MoveToTrash(["f"], Unacknowledged(Api(504)));
    onServer := server.links["f"].state;
    cached := drive.GetLink("f");
  }

  /** A caller resolves the keyring of a link it has held since before the link was moved. From then on the cache
      answers with the old record. */
  method OldRecordInserted() returns (onServer: Link, cached: Result<Link>)
    ensures onServer == Bare("x", "q", File) && cached == Ok(Bare("x", "p", File))
  {
    var t := map["p" := Bare("p", "", Folder), "q" := Bare("q", "", Folder), "x" := Bare("x", "q", File)];
    assert Ranked(t, map["p" := 0, "q" := 0, "x" := 1]);
    var server := new Drive.Server(t);
    var drive := new Drive.Drive(NOBODY, server, true);
    var kr := drive.GetLinkKR(Some(Bare("x", "p", File)), 5);
    onServer := server.links["x"];
    cached := drive.GetLink("x");
  }

  // ---- moves

  /** A file named by somebody else, key 7, is renamed by an account that signs with key 3. */
  function Renamer(): Account {
    Account([1], [3], "me", map["me" := [3], "other" := [7]])
  }

  function Node(id: LinkId, parentId: LinkId, kind: LinkType, parentKey: KeyId, key: KeyId,
                email: Email, signer: KeyId, name: string): Link
  {
    Link(id, parentId, kind, Active,
         Message(KeyPacket({parentKey}, SessionKey(0)), DataPacket(SessionKey(0), Text(name, signer))), email,
         NO_HASH, email, LockedKey(key, Passphrase(key)),
         Message(KeyPacket({parentKey}, SessionKey(1)), DataPacket(SessionKey(1), Passphrase(key))),
         Signature(signer, Passphrase(key)),
         Message(KeyPacket({key}, SessionKey(2)), DataPacket(SessionKey(2), HashKey(9, signer))))
  }

  /** Such a node opens, with its name and its hash key, for the key it was made for and the address it names. */
  lemma NodeOpens(acct: Account, link: Link, parentKey: KeyId, key: KeyId, signer: KeyId, name: string)
    requires link == Node(link.linkId, link.parentId, link.kind, parentKey, key, link.signatureEmail, signer, name)
    requires link.signatureEmail in acct.addrKRs && acct.addrKRs[link.signatureEmail] == [signer]
    ensures OpenNode(acct, link, [parentKey]) == Ok([key])
    ensures GetName(acct, link, [parentKey]) == Ok(name)
    ensures GetHashKey(acct, link, [key]) == Ok(9)
  {
    assert AddressKeys(acct, [link.signatureEmail]) == [signer];
    assert [link.signatureEmail, link.signatureEmail][1..] == [link.signatureEmail];
    assert Opens([parentKey], KeyPacket({parentKey}, SessionKey(0)));
    assert Opens([parentKey], KeyPacket({parentKey}, SessionKey(1)));
    assert Opens([key], KeyPacket({key}, SessionKey(2)));
  }

  lemma OutsideFile(t: Tree)
    requires Acyclic(t) && "r" in t && t["r"].parentId !in t
    ensures !InSubtree(t, "s", "r")
  {
  }

  lemma RenameRequest(acct: Account, t: Tree, root: Link, file: Link)
    requires Acyclic(t) && "r" in t && t["r"] == root && root.linkId == "r" && root.parentId == ""
    requires file.parentId == "r" && file == Node("s", "r", File, 2, 4, "other", 7, "old")
    requires OpenNode(acct, root, acct.mainShareKR) == Ok([2]) && GetHashKey(acct, root, [2]) == Ok(9)
    requires acct.defaultAddrKR != []
    ensures ResolveById(acct, t, "r") == Ok([2])
    ensures PlainMoveRequest(acct, t, file, root, "new", SessionKey(5)).Ok?
  {
    hide OpenNode, GetHashKey;
    assert Opens([2], file.nodePassphrase.keyPacket);
  }

  function RenameTree(): Tree {
    map["r" := Node("r", "", Folder, 1, 2, "me", 3, "root"), "s" := Node("s", "r", File, 2, 4, "other", 7, "old")]
  }

  /** The name was readable before the move, and is not afterwards: the link still names the other's address. */
  lemma RenamedUnreadable() returns (t: Tree, req: MoveRequest)
    ensures WellKeyed(t) && Acyclic(t) && "s" in t && "r" in t
    ensures NameOf(Renamer(), t, "s") == Ok("old")
    ensures PlainMoveRequest(Renamer(), t, t["s"], t["r"], "new", SessionKey(5)) == Ok(req)
    ensures Acyclic(AfterMove(t, "s", req)) && NameOf(Renamer(), AfterMove(t, "s", req), "s") == Err(BadSignature)
  {
    hide OpenNode, GetName, GetHashKey, InSubtree;
    var acct := Renamer();
    t := RenameTree();
    var root, file := t["r"], t["s"];
    assert Ranked(t, map["r" := 0, "s" := 1]);
    NodeOpens(acct, root, 1, 2, 3, "root");
    NodeOpens(acct, file, 2, 4, 7, "old");
    RenameRequest(acct, t, root, file);
    req := PlainMoveRequest(acct, t, file, root, "new", SessionKey(5)).value;
    OutsideFile(t);
    assert AddressKeys(acct, ["other", "other"]) == [7, 7] by {
      assert ["other", "other"][1..] == ["other"];
    }
    MoveRenames(acct, t, file, root, "new", SessionKey(5));
  }

  /** The keyrings of a rename resolve within a few levels. */
  lemma RenameLevels(t: Tree, data: Data)
    requires t == RenameTree() && data == map[]
    ensures "r" in t && "s" in t
    ensures CachedResolver.Climb(Renamer(), t, CachedResolver.With(data, t["r"]), "r", 3).Returned?
    ensures CachedResolver.Climb(Renamer(), t, CachedResolver.With(data, t["r"]), t["s"].parentId, 3).Returned?
  {
  }

  /** What a rename in this tree asks for and leaves. */
  lemma RenameFacts(t: Tree)
    requires t == RenameTree()
    ensures WellKeyed(t) && Acyclic(t) && "r" in t && "s" in t && t["r"].linkId == "r"
    ensures LinkTree.GetLink(t, "s") == Ok(t["s"]) && t["s"].linkId == "s" && t["s"].nameHash.name == ""
    ensures LinkTree.GetLink(t, "r") == Ok(t["r"])
    ensures var plan := MoveRequestUnder(Renamer(), t, ResolveById(Renamer(), t, "r"), t["s"], t["r"], "new",
                                         SessionKey(5));
            && plan.Ok?
            && Drive.MoveReport(t, "s", Delivered) == None
            && "s" in MoveOutcome(t, "s", plan, Delivered)
            && MoveOutcome(t, "s", plan, Delivered)["s"].nameHash.name == "new"
  {
    hide OpenNode, GetHashKey, ReencryptKeyPacket;
    assert Ranked(t, map["r" := 0, "s" := 1]);
    NodeOpens(Renamer(), t["r"], 1, 2, 3, "root");
    RenameRequest(Renamer(), t, t["r"], t["s"]);
  }

  lemma KnownHere(drive: Drive.Drive, link: Link)
    requires drive.Coherent() && LinkTree.GetLink(drive.server.links, link.linkId) == Ok(link) && link.linkId != ""
    ensures drive.Known(link) && drive.Usable() && Acyclic(drive.server.links)
  {
  }

  /** Between the eviction of a moved link and the server's change somebody looks the link up. From then on the cache
      answers with the record from before the move. */
  method LookedUpWhileMoved() returns (r: Run<Option<Error>>, onServer: Link, cached: Result<Link>)
    ensures r == Returned(None) && onServer.nameHash.name == "new"
    ensures cached.Ok? && cached.value.nameHash.name == ""
  {
    hide *;
    var t := RenameTree();
    RenameFacts(t);
    RenameLevels(t, map[]);
    var server := new Drive.Server(t);
    var drive := new Drive.Drive(Renamer(), server, true);
    KnownHere(drive, t["r"]);
    drive.Resolutions(t["s"], t["r"], "new", SessionKey(5), 3);
    drive.CurrentPlan(t["s"], t["r"], "new", SessionKey(5), 3);
    assert "s" in ["s"] by { assert ["s"][0] == "s"; }
    r := drive.MoveLink(t["s"], t["r"], "new", SessionKey(5), ["s"], Delivered, 3);
    onServer := server.links["s"];
    cached := drive.GetLink("s");
  }

  lemma HeldOpens(t: Tree, x: Link, p: Link, held: Link)
    requires Acyclic(t) && t == map["x" := x, "p" := p]
    requires x == Node("x", "", Folder, 1, 2, "me", 3, "x") && p == Node("p", "x", Folder, 2, 6, "me", 3, "p")
    requires held == Node("x", "p", Folder, 6, 4, "me", 3, "x")
    ensures ResolveLink(Renamer(), t, held) == Ok([4])
  {
    NodeOpens(Renamer(), x, 1, 2, 3, "x");
    NodeOpens(Renamer(), p, 2, 6, 3, "p");
    NodeOpens(Renamer(), held, 6, 4, 3, "x");
    ResolveThroughParent(Renamer(), t, x);
    ResolveThroughParent(Renamer(), t, p);
    ResolveThroughParent(Renamer(), t, held);
  }

  lemma HeldIsMet(t: Tree, data: Data)
    requires Acyclic(t) && data == map[] && "p" in t && t["p"].parentId == "x"
    ensures !CachedResolver.ClimbMisses(t, data, "x", "p")
  {
  }

  /** A caller holds a record of x from when x lay under p; since then p was moved under x. The plain resolver answers;
      the memoising one goes from x to p, from p back to x, and returns for no bound. */
  method RecordAboveItsParent(levels: nat) returns (plain: Run<Result<KeyRing>>, r: Run<Result<KeyRing>>)
    ensures plain == Returned(Ok([4])) && r == Running
  {
    hide OpenNode, InSubtree, ResolveById, ResolveLink, CachedResolver.CoherentData;
    var acct := Renamer();
    var x, p := Node("x", "", Folder, 1, 2, "me", 3, "x"), Node("p", "x", Folder, 2, 6, "me", 3, "p");
    var held := Node("x", "p", Folder, 6, 4, "me", 3, "x");
    var t := map["x" := x, "p" := p];
    assert Ranked(t, map["x" := 0, "p" := 1]);
    var server := new Drive.Server(t);
    var uncached := new Drive.Drive(acct, server, false);
    plain := uncached.GetLinkKR(Some(held), levels);
    HeldOpens(t, x, p, held);
    var drive := new Drive.Drive(acct, server, true);
    HeldIsMet(t, drive.cache.data);
    CachedResolver.NeverReturns(acct, t, drive.cache.data, held, levels);
    r := drive.GetLinkKR(Some(held), levels);
  }

  // ---- uploads

  /** A stream of unknown length that breaks off after one byte, with an unexpected end of file, is uploaded whole. */
  method TruncatedStreamAccepted() returns (r: Result<BlockUpload.BlockData>)
    ensures r.Ok? && r.value.totalFileSize == 1
  {
    var keys := Blocks.RevisionKeys(SessionKey(0), [1], [1]);
    var source := new BlockUpload.Source([7], UnexpectedEndOfFile);
    var store := new BlockUpload.RevisionStore(k => BlockUpload.LinksReturned(1, {0}, None));
    r := BlockUpload.UploadAndCollectBlockData(Some(keys), None, source, store, 4, 8);
  }

  const ANY_KEYS := Revisions.Sealed(GarbledKey, Garbled, GarbledSignature, KeyPacket({}, SessionKey(0)))

  lemma EmptyFolder()
    ensures Revisions.FolderInv(Revisions.Folder(map[], 0))
  {
  }

  /** With replacing off, a draft link is deleted because listing its revisions reported that it was not found. */
  method DraftDeletedUnasked() returns (before: set<Revisions.FileId>, after: set<Revisions.FileId>, recreate: bool)
    ensures before == {0} && after == {} && recreate
  {
    EmptyFolder();
    var notFound := Api(Revisions.FILE_OR_FOLDER_NOT_FOUND);
    var c := new DraftProtocol.Connection(Revisions.Folder(map[], 0),
                                          k => if k == 1 then Lost(notFound) else Delivered);
    Revisions.CreateFileInv(c.folder, "f", ANY_KEYS);
    var created := c.CreateFile("f", ANY_KEYS);
    before := c.folder.links.Keys;
    Revisions.EffectNothing(c.folder, "f", ANY_KEYS);
    var revision, e;
    revision, recreate, e := DraftProtocol.HandleRevisionConflict(
      c, false, Some(c.folder.links[0]), None, c.folder, "f", ANY_KEYS);
    after := c.folder.links.Keys;
  }

  /** The second request for a file takes effect and is reported as a conflict: the draft just made is deleted, and the
      handle names a link that is gone. */
  method HandleWithoutDraft() returns (r: Result<DraftProtocol.DraftHandle>, links: set<Revisions.FileId>)
    ensures r.Ok? && r.value.revision == None && r.value.linkId !in links
  {
    EmptyFolder();
    var c := new DraftProtocol.Connection(Revisions.Folder(map[], 0),
                                          k => if k == 8 then Unacknowledged(FileNameExist) else Delivered);
    Revisions.CreateFileInv(c.folder, "f", ANY_KEYS);
    var created := c.CreateFile("f", ANY_KEYS);
    Revisions.FreshDraft(0, "f", ANY_KEYS);
    assert Revisions.Holds(c.folder, 0, "f") && DraftProtocol.IsDraftLink(Some(c.folder.links[0]));
    r := DraftProtocol.CreateFileUploadDraft(c, true, "f", [1], [3], [3], Randomness(2, 0, SessionKey(0)),
                                             SessionKey(1));
    links := c.folder.links.Keys;
  }
}
