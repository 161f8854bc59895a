/** The client's side of an upload: create a draft, resolve a name conflict, upload, commit. */
module DraftProtocol {
  import opened Wrappers
  import opened Crypto
  import opened Blocks
  import opened BlockUpload
  import opened Revisions
  import LinkTree

  /** One folder behind a connection: the n-th call meets the n-th fault. A fault may report any error, even one that
      the server would only give for another reason. */
  class Connection {
    const faultOf: nat -> Fault
    var folder: Folder
    var calls: nat
    var creates: nat

    constructor (folder: Folder, faultOf: nat -> Fault)
      ensures this.folder == folder && this.faultOf == faultOf && calls == 0 && creates == 0
    {
      this.folder, this.faultOf := folder, faultOf;
      calls, creates := 0, 0;
    }

    ghost predicate Reliable() {
      forall k :: faultOf(k) == Delivered
    }

    /** The `n` calls from number `from` go through. */
    ghost predicate Delivers(from: nat, n: nat) {
      forall k | from <= k < from + n :: faultOf(k) == Delivered
    }

    /** No fault makes the server seem to refuse a name. */
    ghost predicate NoFalseConflict() {
      forall k :: Report(faultOf(k)) != Some(FileNameExist)
    }

    /** No fault makes a link seem to be gone. */
    ghost predicate NoFalseNotFound() {
      forall k :: Report(faultOf(k)) != Some(Api(FILE_OR_FOLDER_NOT_FOUND))
    }

    /** The state after an update that would lead to `next`. */
    function Outcome(fault: Fault, before: Folder, next: Folder): Folder {
      if fault.Lost? then before else next
    }

    function Answer<T>(fault: Fault, r: Result<T>): Result<T> {
      match fault
      case Delivered => r
      case Lost(e) => Err(e)
      case Unacknowledged(e) => Err(e)
    }

    method CreateFile(name: string, keys: Sealed) returns (r: Result<(FileId, RevisionId)>)
      modifies this
      ensures folder == Outcome(faultOf(old(calls)), old(folder), Revisions.CreateFile(old(folder), name, keys).0)
      ensures r == Answer(faultOf(old(calls)), Revisions.CreateFile(old(folder), name, keys).1)
      ensures calls == old(calls) + 1 && creates == old(creates) + 1
    {
      var fault, done := faultOf(calls), Revisions.CreateFile(folder, name, keys);
      folder := Outcome(fault, folder, done.0);
      calls, creates := calls + 1, creates + 1;
      return Answer(fault, done.1);
    }

    method ListRevisions(id: FileId) returns (r: Result<map<RevisionId, RevisionState>>)
      modifies this`calls
      ensures r == Answer(faultOf(old(calls)), Revisions.ListRevisions(folder, id)) && calls == old(calls) + 1
    {
      calls := calls + 1;
      return Answer(faultOf(calls - 1), Revisions.ListRevisions(folder, id));
    }

    method DeleteChild(id: FileId) returns (r: Result<()>)
      modifies this`folder, this`calls
      ensures folder == Outcome(faultOf(old(calls)), old(folder), Revisions.DeleteChild(old(folder), id).0)
      ensures r == Answer(faultOf(old(calls)), Revisions.DeleteChild(old(folder), id).1) && calls == old(calls) + 1
    {
      var fault, done := faultOf(calls), Revisions.DeleteChild(folder, id);
      folder, calls := Outcome(fault, folder, done.0), calls + 1;
      return Answer(fault, done.1);
    }

    method DeleteRevision(id: FileId, revision: RevisionId) returns (r: Result<()>)
      modifies this`folder, this`calls
      ensures folder == Outcome(faultOf(old(calls)), old(folder), Revisions.DeleteRevision(old(folder), id, revision).0)
      ensures r == Answer(faultOf(old(calls)), Revisions.DeleteRevision(old(folder), id, revision).1)
      ensures calls == old(calls) + 1
    {
      var fault, done := faultOf(calls), Revisions.DeleteRevision(folder, id, revision);
      folder, calls := Outcome(fault, folder, done.0), calls + 1;
      return Answer(fault, done.1);
    }

    method CreateRevision(id: FileId) returns (r: Result<RevisionId>)
      modifies this`folder, this`calls
      ensures folder == Outcome(faultOf(old(calls)), old(folder), Revisions.CreateRevision(old(folder), id).0)
      ensures r == Answer(faultOf(old(calls)), Revisions.CreateRevision(old(folder), id).1) && calls == old(calls) + 1
    {
      var fault, done := faultOf(calls), Revisions.CreateRevision(folder, id);
      folder, calls := Outcome(fault, folder, done.0), calls + 1;
      return Answer(fault, done.1);
    }

    /** The server records what the commit carries, and holds the blocks in `store` for the revision. */
    method CommitRevision(id: FileId, revision: RevisionId, data: BlockData, store: RevisionStore)
      returns (r: Result<()>)
      modifies this`folder, this`calls
      ensures var done := Revisions.CommitRevision(old(folder), id, revision, Record(data, store.stored));
              folder == Outcome(faultOf(old(calls)), old(folder), done.0) && r == Answer(faultOf(old(calls)), done.1)
      ensures calls == old(calls) + 1
    {
      var fault := faultOf(calls);
      var done := Revisions.CommitRevision(folder, id, revision, Record(data, store.stored));
      folder, calls := Outcome(fault, folder, done.0), calls + 1;
      return Answer(fault, done.1);
    }

    /** Whether a name is free: the server compares its hash with those of the active links and the drafts. */
    method CheckAvailableHashes(name: string) returns (r: Result<bool>)
      modifies this`calls
      ensures r == Answer(faultOf(old(calls)), Ok(!NameTaken(folder, name))) && calls == old(calls) + 1
    {
      calls := calls + 1;
      return Answer(faultOf(calls - 1), Ok(!NameTaken(folder, name)));
    }

    method ListChildren() returns (r: Result<map<FileId, FileLink>>)
      modifies this`calls
      ensures r == Answer(faultOf(old(calls)), Ok(folder.links)) && calls == old(calls) + 1
    {
      calls := calls + 1;
      return Answer(faultOf(calls - 1), Ok(folder.links));
    }

    /** `SearchByNameInActiveFolder` for a file: the hash check, then the scan of the children if the name is taken. */
    method SearchByName(name: string, state: LinkState) returns (r: Result<Option<FileLink>>)
      modifies this`calls
      ensures calls == old(calls) + if faultOf(old(calls)) == Delivered && NameTaken(folder, name) then 2 else 1
      ensures r.Err? <==>
                faultOf(old(calls)) != Delivered || (NameTaken(folder, name) && faultOf(old(calls) + 1) != Delivered)
      ensures r.Ok? && r.value.Some? ==>
                exists id :: id in Named(folder, name, state) && folder.links[id] == r.value.value
      ensures r.Ok? ==> (r.value.None? <==> !NameTaken(folder, name) || Named(folder, name, state) == {})
    {
      var available := CheckAvailableHashes(name);
      if available.Err? {
        return Err(available.error);
      }
      if available.value {
        return Ok(None);
      }
      var children := ListChildren();
      if children.Err? {
        return Err(children.error);
      }
      if id :| id in children.value && children.value[id].name == name && children.value[id].state == state {
        assert id in Named(folder, name, state);
        return Ok(Some(children.value[id]));
      }
      return Ok(None);
    }
  }

  // ---- the client

  /** A run that started in `f0` and has committed nothing yet. */
  ghost predicate Uncommitted(f0: Folder, f: Folder, name: string, keys: Sealed) {
    FolderInv(f0) && FolderInv(f) && Effect(f0, f, name, keys, NoCommit)
  }

  /** `revision` is the only draft of a link of the name. */
  ghost predicate OnlyDraft(f: Folder, id: FileId, name: string, revision: RevisionId) {
    Holds(f, id, name) && InState(f.links[id], DraftRevision) == {revision}
  }

  /** A link that holds a name and has nothing but a draft. */
  predicate IsDraftLink(link: Option<FileLink>) {
    link.Some? && link.value.state == LinkTree.Draft && InState(link.value, DraftRevision) != {}
  }

  /** The revisions of a link that are in one state, as the server lists them now. */
  method GetRevisions(c: Connection, link: FileLink, state: RevisionState) returns (r: Result<set<RevisionId>>)
    modifies c`calls
    ensures c.calls == old(c.calls) + 1
    ensures link.id in c.folder.links && c.faultOf(old(c.calls)) == Delivered ==>
              r == Ok(InState(c.folder.links[link.id], state))
    ensures r.Err? ==> Report(c.faultOf(old(c.calls))) == Some(r.error) || link.id !in c.folder.links
    ensures r.Ok? ==> c.faultOf(old(c.calls)) == Delivered
    ensures r.Ok? ==> link.id in c.folder.links && r.value == InState(c.folder.links[link.id], state)
  {
    var revisions := c.ListRevisions(link.id);
    if revisions.Err? {
      return Err(revisions.error);
    }
    return Ok(set x | x in revisions.value && revisions.value[x] == state);
  }

  /** The revision a download reads: the only active one. A link in active state always has it. */
  method GetActiveRevision(c: Connection, link: FileLink) returns (r: Result<RevisionId>)
    requires FolderInv(c.folder)
    modifies c`calls
    ensures c.calls == old(c.calls) + 1
    ensures r.Ok? ==> link.id in c.folder.links && InState(c.folder.links[link.id], ActiveRevision) == {r.value}
    ensures link.id in c.folder.links && c.faultOf(old(c.calls)) == Delivered ==>
              (r.Ok? <==> c.folder.links[link.id].commits > 0) && (r.Err? ==> r.error == CantFindActiveRevision)
    ensures c.Reliable() && link.id in c.folder.links && c.folder.links[link.id].state == LinkTree.Active ==> r.Ok?
  {
    var actives := GetRevisions(c, link, ActiveRevision);
    if actives.Err? {
      return Err(actives.error);
    }
    assert PlacedAt(c.folder, link.id);
    RevisionCounts(c.folder.links[link.id]);
    if |actives.value| != 1 {
      return Err(CantFindActiveRevision);
    }
    var revision :| revision in actives.value;
    return Ok(revision);
  }

  lemma DeletingFreesName(f0: Folder, f: Folder, name: string, keys: Sealed, id: FileId)
    requires Uncommitted(f0, f, name, keys)
    requires Holds(f, id, name) && f.links[id].state == LinkTree.Draft
    ensures Revisions.DeleteChild(f, id).1 == Ok(())
    ensures Revisions.DeleteChild(f, id).0.next == f.next && id !in Revisions.DeleteChild(f, id).0.links
    ensures Uncommitted(f0, Revisions.DeleteChild(f, id).0, name, keys)
    ensures !NameTaken(Revisions.DeleteChild(f, id).0, name)
  {
    var f' := Revisions.DeleteChild(f, id).0;
    DeleteChildInv(f, id);
    EffectDeleteChild(f0, f, name, keys, id);
    FreeName(f', name);
    forall x ensures !Holds(f', x, name) {
      assert Holds(f', x, name) ==> Holds(f, x, name) && x != id;
    }
  }

  /** Deletes a link that cannot be read, if it is a draft. */
  method RecoverBrokenConflictState(c: Connection, err: Error, link: FileLink,
                                    ghost f0: Folder, ghost name: string, ghost keys: Sealed)
    returns (recreate: bool, e: Option<Error>)
    requires Uncommitted(f0, c.folder, name, keys)
    requires Holds(c.folder, link.id, name) && c.folder.links[link.id] == link
    modifies c`folder, c`calls
    ensures Uncommitted(f0, c.folder, name, keys)
    ensures old(c.calls) <= c.calls
    ensures link.id !in c.folder.links <==>
              && err == Api(FILE_OR_FOLDER_NOT_FOUND) && link.state == LinkTree.Draft
              && !c.faultOf(old(c.calls)).Lost?
    ensures recreate <==> e == None
    ensures if err == Api(FILE_OR_FOLDER_NOT_FOUND) && link.state == LinkTree.Draft
            then c.calls == old(c.calls) + 1 && e == Report(c.faultOf(old(c.calls)))
            else c.calls == old(c.calls) && e == Some(err)
    ensures recreate <==>
              && err == Api(FILE_OR_FOLDER_NOT_FOUND) && link.state == LinkTree.Draft
              && c.faultOf(old(c.calls)) == Delivered
    ensures recreate ==> !NameTaken(c.folder, name) && link.id !in c.folder.links && c.calls == old(c.calls) + 1
    ensures c.folder != old(c.folder) ==>
              err == Api(FILE_OR_FOLDER_NOT_FOUND) && c.folder == Revisions.DeleteChild(old(c.folder), link.id).0
    ensures old(c.folder.next) <= c.folder.next
  {
    if err != Api(FILE_OR_FOLDER_NOT_FOUND) || link.state != LinkTree.Draft {
      return false, Some(err);
    }
    DeletingFreesName(f0, c.folder, name, keys, link.id);
    var deleted := c.DeleteChild(link.id);
    if deleted.Err? {
      return false, Some(deleted.error);
    }
    return true, None;
  }

  lemma DeletingDraft(f0: Folder, f: Folder, name: string, keys: Sealed, id: FileId, r: RevisionId)
    requires Uncommitted(f0, f, name, keys)
    requires Holds(f, id, name) && r in InState(f.links[id], DraftRevision) && f.links[id].state != LinkTree.Draft
    ensures var (f', result) := Revisions.DeleteRevision(f, id, r);
            && result == Ok(()) && Uncommitted(f0, f', name, keys)
            && Holds(f', id, name) && InState(f'.links[id], DraftRevision) == {}
            && f'.links[id].keys == f.links[id].keys && f'.links.Keys == f.links.Keys && f'.next == f.next
  {
    DeleteRevisionInv(f, id, r);
    EffectDeleteRevision(f0, f, name, keys, id, r);
  }

  lemma CreatingDraft(f0: Folder, f: Folder, name: string, keys: Sealed, id: FileId)
    requires Uncommitted(f0, f, name, keys) && Holds(f, id, name)
    ensures var (f', result) := Revisions.CreateRevision(f, id);
            && Uncommitted(f0, f', name, keys) && f'.links.Keys == f.links.Keys
            && f.next <= f'.next && (result.Ok? ==> result.value == f.next && f.next !in f.links[id].revisions)
            && (result.Ok? <==> InState(f.links[id], DraftRevision) == {})
            && (result.Ok? ==> OnlyDraft(f', id, name, result.value) && f'.links[id].keys == f.links[id].keys)
  {
    assert PlacedAt(f, id);
    CreateRevisionInv(f, id);
    EffectCreateRevision(f0, f, name, keys, id);
  }

  lemma RevisionsBelowNext(f: Folder, id: FileId)
    requires FolderInv(f) && id in f.links
    ensures forall r | r in f.links[id].revisions :: r < f.next
  {
    assert PlacedAt(f, id);
  }

  /** Deletes the draft of a committed link, if it has one, and makes a new one. It stops at the first call that
      fails. */
  method RenewDraft(c: Connection, link: FileLink, drafts: set<RevisionId>,
                    ghost f0: Folder, ghost name: string, ghost keys: Sealed)
    returns (revision: Option<RevisionId>, e: Option<Error>)
    requires Uncommitted(f0, c.folder, name, keys)
    requires Holds(c.folder, link.id, name) && c.folder.links[link.id] == link
    requires drafts == InState(link, DraftRevision) && (drafts != {} ==> link.state != LinkTree.Draft)
    modifies c`folder, c`calls
    ensures Uncommitted(f0, c.folder, name, keys) && c.folder.links.Keys == old(c.folder.links.Keys)
    ensures old(c.calls) < c.calls <= old(c.calls) + 2 && old(c.folder.next) <= c.folder.next
    ensures e == None ==>
              && revision.Some? && OnlyDraft(c.folder, link.id, name, revision.value)
              && c.folder.links[link.id].keys == link.keys
              && revision.value >= old(c.folder.next) && revision.value !in link.revisions
    ensures e == None ==> forall k | old(c.calls) <= k < c.calls :: c.faultOf(k) == Delivered
    ensures e.Some? ==> revision == None && e == Report(c.faultOf(c.calls - 1))
  {
    hide FolderInv, FileInv, UniqueNames, Effect, NameTaken, Revisions.CreateRevision, Revisions.DeleteRevision;
    RevisionsBelowNext(c.folder, link.id);
    if drafts != {} {
      var draft :| draft in drafts;
      DeletingDraft(f0, c.folder, name, keys, link.id, draft);
      var deleted := c.DeleteRevision(link.id, draft);
      if deleted.Err? {
        return None, Some(deleted.error);
      }
    }
    CreatingDraft(f0, c.folder, name, keys, link.id);
    var newRevision := c.CreateRevision(link.id);
    if newRevision.Err? {
      return None, Some(newRevision.error);
    }
    return Some(newRevision.value), None;
  }

  /** Exactly one of `link`, the link that holds the name, and `created`, the new draft, is given. Either a draft
      revision comes back, or the name has been freed for another attempt, or an error. */
  method HandleRevisionConflict(c: Connection, replaceExistingDraft: bool, link: Option<FileLink>,
                                created: Option<(FileId, RevisionId)>,
                                ghost f0: Folder, ghost name: string, ghost keys: Sealed)
    returns (revision: Option<RevisionId>, recreate: bool, e: Option<Error>)
    requires Uncommitted(f0, c.folder, name, keys)
    requires link.Some? ==> Holds(c.folder, link.value.id, name) && c.folder.links[link.value.id] == link.value
    requires created.Some? ==> OnlyDraft(c.folder, created.value.0, name, created.value.1)
    modifies c`folder, c`calls
    ensures Uncommitted(f0, c.folder, name, keys)
    ensures old(c.calls) <= c.calls
    ensures link.None? ==> c.folder == old(c.folder) && c.calls == old(c.calls) && !recreate
    ensures link.None? && created.None? ==> e == Some(UploadFailed)
    ensures link.None? && created.Some? ==> e == None && revision == Some(created.value.1)
    ensures e == None ==> (recreate <==> revision == None)
    ensures e == None && link.Some? && !recreate ==>
              && OnlyDraft(c.folder, link.value.id, name, revision.value)
              && c.folder.links[link.value.id].keys == link.value.keys
    ensures recreate ==> e == None && link.Some? && link.value.state == LinkTree.Draft
    ensures recreate ==>
              !NameTaken(c.folder, name) && link.value.id !in c.folder.links && c.calls == old(c.calls) + 2
    ensures e == None && IsDraftLink(link) ==> recreate
    ensures !replaceExistingDraft && c.NoFalseNotFound() ==>
              c.folder.links.Keys == old(c.folder.links.Keys) && !recreate
    ensures link.Some? ==>
              (link.value.id !in c.folder.links <==>
               && link.value.state == LinkTree.Draft
               && !c.faultOf(old(c.calls) + 1).Lost?
               && (if c.faultOf(old(c.calls)) == Delivered
                   then replaceExistingDraft && InState(link.value, DraftRevision) != {}
                   else Report(c.faultOf(old(c.calls))) == Some(Api(FILE_OR_FOLDER_NOT_FOUND))))
    ensures link.Some? && link.value.id !in c.folder.links ==>
              && c.folder == Revisions.DeleteChild(old(c.folder), link.value.id).0
              && (recreate <==> c.faultOf(old(c.calls) + 1) == Delivered)
    ensures c.Delivers(old(c.calls), 3) ==>
              if link.Some? && !replaceExistingDraft && InState(link.value, DraftRevision) != {}
              then e == Some(DraftExists) && c.folder == old(c.folder)
              else link.None? || e == None
    // a draft link is read and deleted in two calls
    ensures c.Delivers(old(c.calls), 2) && replaceExistingDraft && IsDraftLink(link) ==> recreate
    // it stops at the first call that fails, and there with its error, but for a link that cannot be read
    ensures e == None && link.Some? && !recreate ==>
              forall k | old(c.calls) <= k < c.calls :: c.faultOf(k) == Delivered
    ensures e.Some? && link.Some? ==>
              || (e == Some(DraftExists) && !replaceExistingDraft && c.folder == old(c.folder))
              || (old(c.calls) < c.calls && e == Report(c.faultOf(c.calls - 1)))
    // a draft that was there is replaced
    ensures e == None && link.Some? && revision.Some? ==>
              revision.value >= old(c.folder.next) && revision.value !in link.value.revisions
    ensures old(c.folder.next) <= c.folder.next
  {
    hide Uncommitted, OnlyDraft, InState, NameTaken, Revisions.DeleteChild;
    revision, recreate, e := None, false, None;
    if link.Some? {
      var linkId := link.value.id;
      var listed := GetRevisions(c, link.value, DraftRevision);
      if listed.Err? {
        recreate, e := RecoverBrokenConflictState(c, listed.error, link.value, f0, name, keys);
        return;
      }
      var drafts := listed.value;
      if drafts != {} {
        if !replaceExistingDraft {
          e := Some(DraftExists);
          return;
        }
        if link.value.state == LinkTree.Draft {
          DeletingFreesName(f0, c.folder, name, keys, linkId);
          var deleted := c.DeleteChild(linkId);
          if deleted.Err? {
            e := Some(deleted.error);
            return;
          }
          recreate := true;
          return;
        }
      }
      revision, e := RenewDraft(c, link.value, drafts, f0, name, keys);
    } else if created.Some? {
      revision := Some(created.value.1);
    } else {
      e := Some(UploadFailed);
    }
  }

  lemma NewcomerAlone(f: Folder, name: string, keys: Sealed)
    requires !NameTaken(f, name) && f.next !in f.links
    ensures var f' := Revisions.CreateFile(f, name, keys).0;
            Named(f', name, LinkTree.Active) == {} && Named(f', name, LinkTree.Draft) == {f.next}
  {
    var f' := Revisions.CreateFile(f, name, keys).0;
    forall id | id in f.links && f.links[id].name == name
      ensures f.links[id].state != LinkTree.Active && f.links[id].state != LinkTree.Draft
    {
      assert id !in Named(f, name, LinkTree.Active) + Named(f, name, LinkTree.Draft);
    }
  }

  lemma CreatingFile(f0: Folder, f: Folder, name: string, keys: Sealed)
    requires Uncommitted(f0, f, name, keys)
    ensures var (f', result) := Revisions.CreateFile(f, name, keys);
            && Uncommitted(f0, f', name, keys)
            && (result.Ok? <==> !NameTaken(f, name))
            && (result.Ok? ==> OnlyDraft(f', result.value.0, name, result.value.1)
                               && f'.links[result.value.0].keys == keys && result.value.0 !in f.links
                               && Named(f', name, LinkTree.Active) == {}
                               && Named(f', name, LinkTree.Draft) == {result.value.0})
            && (forall id | id in f.links :: id in f'.links && f'.links[id] == f.links[id])
  {
    hide FileInv, UniqueNames, Effect;
    CreateFileInv(f, name, keys);
    EffectCreateFile(f0, f, name, keys);
    FreshDraft(f.next, name, keys);
    assert f.next in f.links ==> PlacedAt(f, f.next);
    if !NameTaken(f, name) {
      NewcomerAlone(f, name, keys);
    }
  }

  lemma NamedHolds(f: Folder, name: string, link: FileLink)
    requires FolderInv(f)
    requires exists id, state: LinkState ::
               state != LinkTree.Trashed && id in Named(f, name, state) && f.links[id] == link
    ensures Holds(f, link.id, name) && f.links[link.id] == link
  {
    var id, state: LinkState :| state != LinkTree.Trashed && id in Named(f, name, state) && f.links[id] == link;
    assert PlacedAt(f, id);
  }

  /** Looks for the link that holds a name: among the active links first, then among the drafts. */
  method FindHolder(c: Connection, name: string) returns (link: Option<FileLink>, e: Option<Error>)
    requires FolderInv(c.folder)
    modifies c`calls
    ensures old(c.calls) < c.calls
    ensures e == None <==> link.Some?
    ensures link.Some? ==>
              && Holds(c.folder, link.value.id, name) && c.folder.links[link.value.id] == link.value
              && c.calls == old(c.calls) + (if link.value.state == LinkTree.Draft then 4 else 2)
    ensures link.Some? ==> NameTaken(c.folder, name)
    ensures link.Some? ==> forall k | old(c.calls) <= k < c.calls :: c.faultOf(k) == Delivered
    ensures c.Delivers(old(c.calls), 4) ==> (link.Some? <==> NameTaken(c.folder, name))
  {
    hide FolderInv;
    link, e := None, None;
    var found := c.SearchByName(name, LinkTree.Active);
    if found.Err? {
      e := Some(found.error);
      return;
    }
    if found.value == None {
      found := c.SearchByName(name, LinkTree.Draft);
      if found.Err? {
        e := Some(found.error);
        return;
      }
      if found.value == None {
        e := Some(CantLocateRevision);
        return;
      }
    }
    link := found.value;
    NamedHolds(c.folder, name, link.value);
  }

  /** Asks for a new file; on a name conflict finds the link that holds the name. */
  method CreateFileAction(c: Connection, ghost f0: Folder, name: string, keys: Sealed)
    returns (created: Option<(FileId, RevisionId)>, link: Option<FileLink>, e: Option<Error>)
    requires Uncommitted(f0, c.folder, name, keys)
    modifies c
    ensures Uncommitted(f0, c.folder, name, keys)
    ensures c.creates == old(c.creates) + 1 && old(c.calls) < c.calls
    ensures forall id | id in old(c.folder.links) ::
              id in c.folder.links && c.folder.links[id] == old(c.folder.links)[id]
    ensures created.Some? ==> e == None && link == None
    ensures created.Some? ==> OnlyDraft(c.folder, created.value.0, name, created.value.1)
                              && c.folder.links[created.value.0].keys == keys
                              && created.value.0 !in old(c.folder.links)
    ensures link.Some? ==> Holds(c.folder, link.value.id, name) && c.folder.links[link.value.id] == link.value
    ensures e == None ==> created.Some? || link.Some?
    ensures NameTaken(old(c.folder), name) ==> created == None && c.folder == old(c.folder)
    ensures created.Some? ==> c.calls == old(c.calls) + 1 && c.faultOf(old(c.calls)) == Delivered
    ensures link.Some? ==> c.calls == old(c.calls) + (if link.value.state == LinkTree.Draft then 5 else 3)
    // it looks for a link only after a conflict, and stops at the first call that fails
    ensures link.Some? ==>
              || Report(c.faultOf(old(c.calls))) == Some(FileNameExist)
              || (c.faultOf(old(c.calls)) == Delivered && NameTaken(old(c.folder), name))
    ensures link.Some? ==> forall k | old(c.calls) < k < c.calls :: c.faultOf(k) == Delivered
    // a link found for a free name is the draft just made, by a request that its maker believes refused
    ensures link.Some? && !NameTaken(old(c.folder), name) ==>
              && c.faultOf(old(c.calls)) == Unacknowledged(FileNameExist)
              && IsDraftLink(link) && link.value.keys == keys
    ensures (&& !NameTaken(old(c.folder), name)
             && c.faultOf(old(c.calls)) == Unacknowledged(FileNameExist) && c.Delivers(old(c.calls) + 1, 4))
            ==> e == None && link.Some?
    ensures c.Delivers(old(c.calls), 5) ==>
              && e == None
              && (NameTaken(old(c.folder), name) <==> link.Some?)
              && (link.Some? ==> c.folder == old(c.folder))
    ensures created.Some? ==> created.value.1 >= old(c.folder.next)
    ensures old(c.folder.next) <= c.folder.next
  {
    created, link, e := None, None, None;
    ghost var before := c.folder;
    CreatingFile(f0, c.folder, name, keys);
    var createFileResp := c.CreateFile(name, keys);
    if createFileResp.Ok? {
      created := Some(createFileResp.value);
      return;
    }
    if createFileResp.error != FileNameExist {
      e := Some(createFileResp.error);
      return;
    }
    link, e := FindHolder(c, name);
  }

  // ---- keys

  /** The key material of a request for a new file, and what it opens to for its maker. */
  datatype NewKeys = NewKeys(sealed: Sealed, nodeKR: KeyRing)

  function GenerateFileKeys(parentKR: KeyRing, addrKR: KeyRing, random: Randomness, session: SessionKey)
    : Result<NewKeys>
  {
    match GenerateNodeKeys(parentKR, addrKR, random)
    case Err(e) => Err(e)
    case Ok((nodeKey, passphrase, signature)) =>
      match GetKeyRing(parentKR, addrKR, nodeKey, passphrase, signature)
      case Err(e) => Err(e)
      case Ok(nodeKR) =>
        match EncryptSessionKey(nodeKR, session)
        case Err(e) => Err(e)
        case Ok(packet) => Ok(NewKeys(Sealed(nodeKey, passphrase, signature, packet), nodeKR))
  }

  /** What a record's key material opens to: the node keyring and the content session key. */
  function OpenSealed(parentKR: KeyRing, verifier: KeyRing, sealed: Sealed): Result<(KeyRing, SessionKey)> {
    match GetKeyRing(parentKR, verifier, sealed.nodeKey, sealed.nodePassphrase, sealed.signature)
    case Err(e) => Err(e)
    case Ok(nodeKR) =>
      match DecryptSessionKey(nodeKR, sealed.content)
      case Err(e) => Err(e)
      case Ok(session) => Ok((nodeKR, session))
  }

  /** What its maker keeps is what others read back from the record: exactly those who share a key with the ring of the
      parent and take the signer's key for one of the address. */
  lemma NewKeysOpen(parentKR: KeyRing, addrKR: KeyRing, random: Randomness, session: SessionKey,
                    reader: KeyRing, verifier: KeyRing)
    ensures GenerateFileKeys(parentKR, addrKR, random, session).Ok? <==> parentKR != [] && addrKR != []
    ensures GenerateFileKeys(parentKR, addrKR, random, session).Ok? ==>
              var k := GenerateFileKeys(parentKR, addrKR, random, session).value;
              && k.nodeKR == [random.key]
              && (OpenSealed(reader, verifier, k.sealed) == Ok((k.nodeKR, session)) <==>
                  (exists x | x in reader :: x in parentKR) && addrKR[0] in verifier)
  {
    GenerateNodeKeysRoundTrip(parentKR, addrKR, random, parentKR, addrKR);
    GenerateNodeKeysRoundTrip(parentKR, addrKR, random, reader, verifier);
    if parentKR != [] {
      assert parentKR[0] in parentKR;
    }
    assert random.key in [random.key];
  }

  // ---- createFileUploadDraft

  datatype DraftHandle = DraftHandle(
    linkId: FileId, revision: Option<RevisionId>, session: SessionKey, nodeKR: KeyRing)

  /** The handle fits the record: its revision is the only draft of its link, and its keys are those the record
      opens to. */
  ghost predicate Fits(f: Folder, name: string, parentKR: KeyRing, verifier: KeyRing, h: DraftHandle) {
    && h.revision.Some?
    && OnlyDraft(f, h.linkId, name, h.revision.value)
    && OpenSealed(parentKR, verifier, f.links[h.linkId].keys) == Ok((h.nodeKR, h.session))
  }

  /** Every link that holds the name can be opened. */
  ghost predicate HolderOpens(f: Folder, name: string, parentKR: KeyRing, verifier: KeyRing) {
    forall id | Holds(f, id, name) :: OpenSealed(parentKR, verifier, f.links[id].keys).Ok?
  }

  /** The name is held by a link in draft state with a draft. */
  ghost predicate HeldByDraft(f: Folder, name: string) {
    exists id :: id in f.links && Holds(f, id, name) && IsDraftLink(Some(f.links[id]))
  }

  predicate HasDraft(f: Folder, name: string) {
    exists id :: id in f.links && Holds(f, id, name) && InState(f.links[id], DraftRevision) != {}
  }

  function RequestKeys(parentKR: KeyRing, addrKR: KeyRing, random: Randomness, session: SessionKey): Sealed {
    var k := GenerateFileKeys(parentKR, addrKR, random, session);
    if k.Ok? then k.value.sealed else Sealed(GarbledKey, Garbled, GarbledSignature, KeyPacket({}, session))
  }

  lemma HolderFacts(f: Folder, name: string)
    requires FolderInv(f)
    ensures HeldByDraft(f, name) || HasDraft(f, name) ==> NameTaken(f, name)
    ensures forall id | Holds(f, id, name) ::
              && (HeldByDraft(f, name) <==> IsDraftLink(Some(f.links[id])))
              && (HasDraft(f, name) <==> InState(f.links[id], DraftRevision) != {})
  {
    FreeName(f, name);
  }

  /** What comes of an attempt without an error: a new link with its draft, the link that holds the name with its draft,
      or a freed name. */
  ghost predicate Attempted(f: Folder, name: string, keys: Sealed, created: Option<(FileId, RevisionId)>,
                            link: Option<FileLink>, revision: Option<RevisionId>, recreate: bool)
  {
    if created.Some? then
      && link == None && !recreate && revision == Some(created.value.1)
      && OnlyDraft(f, created.value.0, name, created.value.1) && f.links[created.value.0].keys == keys
    else
      && link.Some? && (recreate <==> revision == None)
      && (if recreate then !NameTaken(f, name) && link.value.id !in f.links
          else OnlyDraft(f, link.value.id, name, revision.value) && f.links[link.value.id].keys == link.value.keys)
  }

  /** Key material of a link that held the name, or of the one asked for. */
  ghost predicate KeysFrom(f: Folder, name: string, keys: Sealed, found: Sealed) {
    found == keys || exists id :: Holds(f, id, name) && f.links[id].keys == found
  }

  /** One request for the file, and what follows if the name is held. */
  method AttemptDraft(c: Connection, replaceExistingDraft: bool, ghost f0: Folder, name: string, keys: Sealed)
    returns (created: Option<(FileId, RevisionId)>, link: Option<FileLink>,
             revision: Option<RevisionId>, recreate: bool, e: Option<Error>)
    requires Uncommitted(f0, c.folder, name, keys)
    modifies c
    ensures Uncommitted(f0, c.folder, name, keys)
    ensures c.creates == old(c.creates) + 1 && old(c.calls) < c.calls
    ensures e == None ==>
              Attempted(c.folder, name, keys, created, link, revision, recreate)
    ensures e == None && created.Some? ==> c.faultOf(old(c.calls)) == Delivered
    ensures recreate ==> e == None && c.calls == old(c.calls) + 7
    ensures e == None && link.Some? && !NameTaken(old(c.folder), name) ==>
              recreate && c.faultOf(old(c.calls)) == Unacknowledged(FileNameExist)
    ensures e == None && link.Some? ==> KeysFrom(old(c.folder), name, keys, link.value.keys)
    ensures (&& replaceExistingDraft && !NameTaken(old(c.folder), name)
             && c.faultOf(old(c.calls)) == Unacknowledged(FileNameExist) && c.Delivers(old(c.calls) + 1, 6))
            ==> recreate
    ensures c.Delivers(old(c.calls), 7) && replaceExistingDraft && HeldByDraft(old(c.folder), name) ==> recreate
    ensures c.Reliable() ==>
              if !replaceExistingDraft && HasDraft(old(c.folder), name)
              then e == Some(DraftExists) && c.folder == old(c.folder)
              else e == None
    ensures !replaceExistingDraft && c.NoFalseNotFound() ==>
              old(c.folder.links.Keys) <= c.folder.links.Keys && !recreate
    ensures e == None && revision.Some? ==> revision.value >= old(c.folder.next)
    ensures old(c.folder.next) <= c.folder.next
  {
    ghost var k := c.calls;
    HolderFacts(c.folder, name);
    assert c.Delivers(k, 7) ==> c.Delivers(k, 5) && c.Delivers(k + 5, 2);
    assert c.Delivers(k + 1, 6) ==> c.Delivers(k + 1, 4) && c.Delivers(k + 5, 2);
    created, link, e := CreateFileAction(c, f0, name, keys);
    revision, recreate := None, false;
    if e.Some? {
      return;
    }
    revision, recreate, e := HandleRevisionConflict(c, replaceExistingDraft, link, created, f0, name, keys);
  }

  /** No link of the folder has such a revision. */
  ghost predicate NewRevision(f: Folder, revision: RevisionId) {
    forall id | id in f.links :: revision !in f.links[id].revisions
  }

  lemma LaterIsNew(f: Folder, revision: RevisionId)
    requires FolderInv(f) && revision >= f.next
    ensures NewRevision(f, revision)
  {
    forall id | id in f.links ensures revision !in f.links[id].revisions {
      assert PlacedAt(f, id);
    }
  }

  /** Everything but one call of a draft's creation goes through, and that one, the second request for the file, takes
      effect while its maker is told that the name exists. */
  ghost predicate SecondRequestDenied(c: Connection, calls: nat) {
    && c.Delivers(calls, 7)
    && c.faultOf(calls + 7) == Unacknowledged(FileNameExist)
    && c.Delivers(calls + 8, 6)
  }

  /** On success the handle fits exactly if it did not come to a second request for the file which took effect while
      it was reported as a conflict. In that case the conflict frees the name once more, nobody asks a third time, and
      the link that the handle names is gone. The second request is the eighth call: seven are made before it. */
  method CreateFileUploadDraft(c: Connection, replaceExistingDraft: bool, name: string, parentKR: KeyRing,
                               addrKR: KeyRing, verifier: KeyRing, random: Randomness, session: SessionKey)
    returns (r: Result<DraftHandle>)
    requires FolderInv(c.folder)
    requires addrKR != [] ==> addrKR[0] in verifier
    modifies c
    ensures Uncommitted(old(c.folder), c.folder, name, RequestKeys(parentKR, addrKR, random, session))
    ensures c.creates <= old(c.creates) + 2 && old(c.calls) <= c.calls
    ensures r.Ok? ==>
              (Fits(c.folder, name, parentKR, verifier, r.value) <==>
               !(c.creates == old(c.creates) + 2 && c.faultOf(old(c.calls) + 7) == Unacknowledged(FileNameExist)))
    ensures r.Ok? && !Fits(c.folder, name, parentKR, verifier, r.value) ==>
              r.value.revision == None && r.value.linkId !in c.folder.links && !NameTaken(c.folder, name)
    // a run that ends so: the name is held by a draft that may be replaced
    ensures (&& replaceExistingDraft && parentKR != [] && addrKR != []
             && HeldByDraft(old(c.folder), name) && SecondRequestDenied(c, old(c.calls)))
            ==> r.Ok? && c.creates == old(c.creates) + 2
    ensures !replaceExistingDraft && c.NoFalseNotFound() ==> old(c.folder.links.Keys) <= c.folder.links.Keys
    ensures c.Reliable() && parentKR != [] && addrKR != [] && HolderOpens(old(c.folder), name, parentKR, verifier) ==>
              if !replaceExistingDraft && HasDraft(old(c.folder), name)
              then r == Err(DraftExists) && c.folder == old(c.folder)
              else r.Ok?
    // the revision to upload to is a new one
    ensures r.Ok? && r.value.revision.Some? ==> NewRevision(old(c.folder), r.value.revision.value)
  {
    hide FileInv, UniqueNames, Effect, HasDraft, HeldByDraft;
    ghost var f0 := c.folder;
    var newKeys := GenerateFileKeys(parentKR, addrKR, random, session);
    NewKeysOpen(parentKR, addrKR, random, session, parentKR, verifier);
    assert parentKR != [] ==> parentKR[0] in parentKR;
    EffectNothing(f0, name, RequestKeys(parentKR, addrKR, random, session));
    FreeName(f0, name);
    if newKeys.Err? {
      return Err(newKeys.error);
    }
    var keys := newKeys.value.sealed;
    var created, link, revision, recreate, e := AttemptDraft(c, replaceExistingDraft, f0, name, keys);
    if e.Some? {
      return Err(e.value);
    }
    if recreate {
      FreeName(c.folder, name);
      created, link, revision, recreate, e := AttemptDraft(c, replaceExistingDraft, f0, name, keys);
      if e.Some? {
        return Err(e.value);
      }
    }
    if revision.Some? {
      LaterIsNew(f0, revision.value);
    }
    if link.Some? {
      var held := OpenSealed(parentKR, verifier, link.value.keys);
      if held.Err? {
        return Err(held.error);
      }
      return Ok(DraftHandle(link.value.id, revision, held.value.1, held.value.0));
    }
    return Ok(DraftHandle(created.value.0, revision, session, newKeys.value.nodeKR));
  }
}
