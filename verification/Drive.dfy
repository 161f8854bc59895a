/** The client over the server's tree: the cached resolver, moves and trashing. */
module Drive {
  import opened Wrappers
  import opened Crypto
  import opened LinkTree
  import opened LinkCache
  import opened CachedResolver

  function MoveReport(t: Tree, linkId: LinkId, fault: Fault): Option<Error> {
    if linkId !in t && !fault.Lost? then Some(NotFound) else Report(fault)
  }

  function AfterTrash(t: Tree, linkIds: seq<LinkId>): Tree {
    map id | id in t :: if id in linkIds then t[id].(state := Trashed) else t[id]
  }

  /** The part of the server that holds the tree. Reads are answered from it; each update meets the fault
      given to it. */
  class Server {
    var links: Tree

    constructor (links: Tree)
      ensures this.links == links
    {
      this.links := links;
    }

    method GetLink(linkId: LinkId) returns (r: Result<Link>)
      ensures r == if linkId in links then Ok(links[linkId]) else Err(NotFound)
    {
      if linkId in links {
        return Ok(links[linkId]);
      }
      return Err(NotFound);
    }

    /** A request that the server refuses, for the original hash or another reason, is a lost one. */
    method MoveLink(linkId: LinkId, req: MoveRequest, fault: Fault) returns (r: Option<Error>)
      modifies this
      ensures links == MoveOutcome(old(links), linkId, Ok(req), fault)
      ensures r == MoveReport(old(links), linkId, fault)
    {
      if linkId !in links {
        return MoveReport(links, linkId, fault);
      }
      if !fault.Lost? {
        links := AfterMove(links, linkId, req);
      }
      return Report(fault);
    }

    /** Trashing changes the state of the named links and of nothing below them. */
    method TrashChildren(linkIds: seq<LinkId>, fault: Fault) returns (r: Option<Error>)
      modifies this
      ensures links == if fault.Lost? then old(links) else AfterTrash(old(links), linkIds)
      ensures r == Report(fault)
    {
      if !fault.Lost? {
        links := AfterTrash(links, linkIds);
      }
      return Report(fault);
    }
  }

  function IdsOf(linkIds: seq<LinkId>): set<LinkId> {
    set id | id in linkIds
  }

  function ActiveChildren(t: Tree, linkId: LinkId): set<LinkId> {
    set x | x in t && t[x].parentId == linkId && t[x].state == Active
  }

  // ---- what moving and trashing do to a cache that is up to date

  /** What moving may do to a cache: with the moved link gone from it, everything left is still right. */
  lemma {:induction false} MoveKeepsCoherent(acct: Account, t: Tree, src: LinkId, req: MoveRequest, data: Data)
    requires WellKeyed(t) && Acyclic(t) && src in t
    requires ReencryptedFor(acct, t, src, req) && !InSubtree(t, src, req.parentId)
    requires CoherentData(acct, t, data)
    ensures Acyclic(AfterMove(t, src, req))
    ensures src !in data ==> CoherentData(acct, AfterMove(t, src, req), data)
    // Keeping the moved entry would be wrong unless the move changed nothing.
    ensures src in data && AfterMove(t, src, req) != t ==> !CoherentData(acct, AfterMove(t, src, req), data)
  {
    MoveKeepsKeyRings(acct, t, src, req);
    var t' := AfterMove(t, src, req);
    assert t'[src] == t[src] ==> t' == t;
  }

  /** A move that the server carries out keeps the tree a tree. */
  ghost predicate MoveStays(t: Tree, src: LinkId, dst: LinkId, plan: Result<MoveRequest>, fault: Fault)
    requires Acyclic(t)
  {
    plan.Err? || fault.Lost? || !InSubtree(t, src, dst)
  }

  /** What becomes of the tree and the cache for each fault. A destination inside the moved subtree, if the server lets
      it through, ties the tree into a cycle; and the moved link must not have come back into the cache. */
  lemma MoveSettles(acct: Account, t: Tree, src: Link, dst: Link, dstName: string, session: SessionKey,
                    plan: Result<MoveRequest>, data: Data, fault: Fault)
    requires WellKeyed(t) && Acyclic(t) && CoherentData(acct, t, data)
    requires GetLink(t, src.linkId) == Ok(src) && dst.linkId in t
    requires plan.Ok?
    requires plan == MoveRequestUnder(acct, t, ResolveById(acct, t, dst.linkId), src, dst, dstName, session)
    ensures var t' := MoveOutcome(t, src.linkId, plan, fault);
            && (Acyclic(t') <==> MoveStays(t, src.linkId, dst.linkId, plan, fault))
            && (Acyclic(t') ==> SameKeyRings(acct, t, t'))
            && (Acyclic(t') ==> (CoherentData(acct, t', data) <==> src.linkId !in data || t' == t))
  {
    MoveReencrypts(acct, t, ResolveById(acct, t, dst.linkId), src, dst, dstName, session);
    MoveKeepsAcyclic(t, src.linkId, plan.value);
    if !InSubtree(t, src.linkId, dst.linkId) {
      MoveKeepsKeyRings(acct, t, src.linkId, plan.value);
      MoveKeepsCoherent(acct, t, src.linkId, plan.value, data);
    }
  }

  /** What a move asks for, given what resolving its two keyrings comes to. The old parent's is resolved last. */
  function MovePlan(acct: Account, dstKR: Run<Result<KeyRing>>, srcParentKR: Run<Result<KeyRing>>,
                    src: Link, dst: Link, dstName: string, session: SessionKey): Run<Result<MoveRequest>>
  {
    if dstKR.Running? then Running
    else
      var named := dstKR.value.Ok? && NewName(acct, dstKR.value.value, dst, dstName, session).Ok?;
      if srcParentKR.Returned? then
        Returned(MoveRequestFrom(acct, dstKR.value, srcParentKR.value, src, dst, dstName, session))
      else if named then Running
      else Returned(MoveRequestFrom(acct, dstKR.value, Err(NotFound), src, dst, dstName, session))
  }

  /** A plan that came about asks for what the move is about, field by field. */
  lemma PlanAsks(acct: Account, dstKR: Run<Result<KeyRing>>, srcParentKR: Run<Result<KeyRing>>, src: Link, dst: Link,
                 dstName: string, session: SessionKey)
    ensures var plan := MovePlan(acct, dstKR, srcParentKR, src, dst, dstName, session);
            plan.Returned? && plan.value.Ok? ==>
              && dstKR.Returned? && dstKR.value.Ok? && srcParentKR.Returned?
              && AsksFor(acct, dstKR.value.value, src, dst, dstName, session, plan.value.value)
  {
    if dstKR.Returned? {
      var srcKR := if srcParentKR.Returned? then srcParentKR.value else Err(NotFound);
      MoveRequestIff(acct, dstKR.value, srcKR, src, dst, dstName, session);
    }
  }

  ghost predicate TrashedAlready(t: Tree, linkIds: seq<LinkId>, data: Data) {
    forall id | id in linkIds && id in data && id in t :: t[id].state == Trashed
  }

  /** Trashing changes no keyring; the cache stays coherent exactly when it holds no link whose state changed. */
  lemma TrashKeepsCoherent(acct: Account, t: Tree, linkIds: seq<LinkId>, data: Data)
    requires WellKeyed(t) && Acyclic(t)
    requires CoherentData(acct, t, data)
    ensures WellKeyed(AfterTrash(t, linkIds)) && Acyclic(AfterTrash(t, linkIds))
    ensures SameKeyRings(acct, t, AfterTrash(t, linkIds))
    ensures CoherentData(acct, AfterTrash(t, linkIds), data) <==> TrashedAlready(t, linkIds, data)
  {
    var t' := AfterTrash(t, linkIds);
    StateKeepsAcyclic(t, t');
    forall id ensures ResolveById(acct, t', id) == ResolveById(acct, t, id) {
      StateKeepsKeyRing(acct, t, t', id);
    }
    if CoherentData(acct, t', data) {
      forall id | id in linkIds && id in data ensures t[id].state == Trashed {
        assert data[id].link == t'[id] == t[id];
      }
    }
  }

  lemma EvictedAreGone(data: Data, linkIds: seq<LinkId>)
    ensures forall t :: TrashedAlready(t, linkIds, data - ReachingAny(data, IdsOf(linkIds)))
  {
    forall id | id in linkIds && id in data ensures id in ReachingAny(data, IdsOf(linkIds)) {
      ReachStep(data, id, id);
    }
  }

  // ---- trashing by ID

  function Refetched(enableCaching: bool, data: Data, linkId: LinkId, r: Result<Link>): Data {
    if enableCaching && r.Ok? then data[linkId := Entry(r.value, None)] else data - {linkId}
  }

  function TrashableFile(t: Tree, linkId: LinkId): Result<Link> {
    var r := GetLink(t, linkId);
    if r.Ok? && r.value.kind != File then Err(LinkMustBeFile) else r
  }

  /** `listing` is the error that listing the children meets, if any. */
  function TrashableFolder(t: Tree, linkId: LinkId, onlyOnEmpty: bool, listing: Option<Error>): Result<Link> {
    var r := GetLink(t, linkId);
    if r.Ok? && r.value.kind != Folder then Err(LinkMustBeFolder)
    else if r.Ok? && listing.Some? then Err(listing.value)
    else if r.Ok? && onlyOnEmpty && ActiveChildren(t, linkId) != {} then Err(FolderIsNotEmpty)
    else r
  }

  /** Some active link names this one as its parent. */
  ghost predicate HasActiveChild(t: Tree, linkId: LinkId) {
    exists x :: x in t && t[x].parentId == linkId && t[x].state == Active
  }

  /** When a file or a folder may be trashed by ID, and else which check fails. */
  lemma TrashableIff(t: Tree, linkId: LinkId, onlyOnEmpty: bool, listing: Option<Error>)
    requires "" !in t
    ensures TrashableFile(t, linkId).Ok? <==> linkId in t && t[linkId].kind == File
    ensures linkId in t && t[linkId].kind == Folder ==> TrashableFile(t, linkId) == Err(LinkMustBeFile)
    ensures TrashableFolder(t, linkId, onlyOnEmpty, listing).Ok? <==>
            && linkId in t && t[linkId].kind == Folder && listing == None
            && (onlyOnEmpty ==> !HasActiveChild(t, linkId))
    ensures linkId in t && t[linkId].kind == File ==>
              TrashableFolder(t, linkId, onlyOnEmpty, listing) == Err(LinkMustBeFolder)
    ensures linkId in t && t[linkId].kind == Folder && listing.Some? ==>
              TrashableFolder(t, linkId, onlyOnEmpty, listing) == Err(listing.value)
    ensures linkId in t && t[linkId].kind == Folder && listing == None && onlyOnEmpty && HasActiveChild(t, linkId) ==>
              TrashableFolder(t, linkId, onlyOnEmpty, listing) == Err(FolderIsNotEmpty)
  {
    if x :| x in t && t[x].parentId == linkId && t[x].state == Active {
      assert x in ActiveChildren(t, linkId);
    }
  }

  /** What trashing by ID does: the link is fetched afresh whatever the cache held, so the recursive eviction
      starts from a present entry, and takes everything whose chain of cached parents leads to it. */
  ghost predicate TrashedById(t: Tree, data: Data, t': Tree, data': Data, enableCaching: bool,
                              linkId: LinkId, check: Result<Link>, fault: Fault, r: Option<Error>)
  {
    var fetched := Refetched(enableCaching, data, linkId, GetLink(t, linkId));
    && r == (if check.Err? then Some(check.error) else Report(fault))
    && t' == (if check.Err? || fault.Lost? then t else AfterTrash(t, [linkId]))
    && data' == (if r == None then fetched - Subtree(fetched, linkId) else fetched)
    && (r == None && enableCaching ==> linkId in fetched)
  }

  lemma ReachingSingle(data: Data, linkId: LinkId)
    ensures ReachingAny(data, IdsOf([linkId])) == Subtree(data, linkId)
  {
    assert linkId in IdsOf([linkId]);
  }

  /** Trashing with and without the eviction that follows. */
  lemma TrashAndEvict(acct: Account, t: Tree, linkIds: seq<LinkId>, data: Data)
    requires WellKeyed(t) && Acyclic(t) && CoherentData(acct, t, data)
    ensures WellKeyed(AfterTrash(t, linkIds)) && SameKeyRings(acct, t, AfterTrash(t, linkIds))
    ensures CoherentData(acct, AfterTrash(t, linkIds), data) <==> TrashedAlready(t, linkIds, data)
    ensures CoherentData(acct, AfterTrash(t, linkIds), data - ReachingAny(data, IdsOf(linkIds)))
  {
    TrashKeepsCoherent(acct, t, linkIds, data);
    EvictedAreGone(data, linkIds);
    TrashKeepsCoherent(acct, t, linkIds, data - ReachingAny(data, IdsOf(linkIds)));
  }

  lemma {:induction false} ConnectedReaches(acct: Account, t: Tree, data: Data, root: LinkId, x: LinkId)
    requires Acyclic(t) && CoherentData(acct, t, data) && x in data && InSubtree(t, root, x)
    requires forall y | y in data && InSubtree(t, root, y) && y != root :: t[y].parentId in data
    ensures Reaches(data, x, root)
    decreases Depth(t, x)
  {
    ReachStep(data, x, root);
    if x != root {
      ConnectedReaches(acct, t, data, root, t[x].parentId);
    }
  }

  /** A recursive eviction clears a whole subtree of the server's tree exactly when every cached link strictly
      below its top has its parent cached too. */
  lemma EvictionClearsSubtree(acct: Account, t: Tree, data: Data, root: LinkId)
    requires Acyclic(t) && CoherentData(acct, t, data) && root in data
    ensures (forall x | x in data && InSubtree(t, root, x) :: x in Subtree(data, root)) <==>
            (forall x | x in data && InSubtree(t, root, x) && x != root :: t[x].parentId in data)
  {
    forall x | x in data && x in Subtree(data, root) && x != root ensures t[x].parentId in data {
      ReachStep(data, x, root);
      ReachStep(data, t[x].parentId, root);
    }
    if forall x | x in data && InSubtree(t, root, x) && x != root :: t[x].parentId in data {
      forall x | x in data && InSubtree(t, root, x) ensures x in Subtree(data, root) {
        ConnectedReaches(acct, t, data, root, x);
      }
    }
  }

  lemma UnderCases(acct: Account, link: Link, parentKR: Result<KeyRing>)
    ensures OpenUnder(acct, link, parentKR) ==
            if parentKR.Ok? then OpenNode(acct, link, parentKR.value) else parentKR
  {
  }

  lemma GrownMore(was: Data, now: Data, id: LinkId)
    ensures Grown(was, was)
    ensures Grown(was, now) && id in was ==> id in now && now[id].link == was[id].link
  {
  }

  lemma GrownLess(was: Data, mid: Data, now: Data, id: LinkId)
    requires Grown(was, mid) && (now == mid - {id} || (now == mid == map[]) || now == mid)
    ensures Grown(was - {id}, now)
  {
  }

  lemma GrownTwice(was: Data, mid: Data, now: Data)
    requires Grown(was, mid) && Grown(mid, now)
    ensures Grown(was, now)
  {
  }

  lemma GrownThrough(was: Data, first: Data, second: Data, now: Data, id: LinkId)
    requires Grown(was - {id}, first) && Grown(first, second) && (now == second || Grown(second - {id}, now))
    ensures Grown(was - {id}, now)
  {
  }

  /** What lookups of some IDs leave in the cache. */
  function LookedUp(enableCaching: bool, t: Tree, data: Data, linkIds: seq<LinkId>): Data {
    if linkIds == [] then data
    else
      var before, id := LookedUp(enableCaching, t, data, linkIds[..|linkIds| - 1]), linkIds[|linkIds| - 1];
      if enableCaching && id != "" && id in t && id !in before then before[id := Entry(t[id], None)] else before
  }

  lemma {:induction false} LookedUpGrows(enableCaching: bool, t: Tree, data: Data, linkIds: seq<LinkId>)
    ensures Grown(data, LookedUp(enableCaching, t, data, linkIds))
    decreases |linkIds|
  {
    if linkIds != [] {
      LookedUpGrows(enableCaching, t, data, linkIds[..|linkIds| - 1]);
    }
  }

  /** A link that is not cached is, afterwards, exactly if it is among those looked up. */
  lemma {:induction false} BroughtBack(enableCaching: bool, t: Tree, data: Data, linkIds: seq<LinkId>, link: Link)
    requires link.linkId !in data
    ensures link.linkId in LookedUp(enableCaching, t, data, linkIds) ==>
              && enableCaching && link.linkId in linkIds
              && GetLink(t, link.linkId) == Ok(LookedUp(enableCaching, t, data, linkIds)[link.linkId].link)
    ensures GetLink(t, link.linkId) == Ok(link) && enableCaching && link.linkId in linkIds ==>
              link.linkId in LookedUp(enableCaching, t, data, linkIds)
    decreases |linkIds|
  {
    if linkIds != [] {
      BroughtBack(enableCaching, t, data, linkIds[..|linkIds| - 1], link);
    }
  }

  lemma NotMoved(t: Tree, src: LinkId, plan: Result<MoveRequest>, fault: Fault)
    requires plan.Err?
    ensures MoveOutcome(t, src, plan, fault) == t
  {
  }

  lemma AskedFor(t: Tree, src: LinkId, plan: Result<MoveRequest>, fault: Fault)
    requires plan.Ok?
    ensures MoveOutcome(t, src, Ok(plan.value), fault) == MoveOutcome(t, src, plan, fault)
  {
  }

  lemma ParentIsHigher(t: Tree, link: Link)
    requires Acyclic(t) && GetLink(t, link.linkId) == Ok(link)
    ensures Depth(t, link.parentId) < Depth(t, link.linkId)
  {
  }

  lemma PlannedCases(acct: Account, t: Tree, srcId: LinkId, dstId: LinkId, dstName: string, session: SessionKey)
    requires WellKeyed(t) && Acyclic(t)
    ensures var src, dst := ActiveLink(t, srcId), ActiveLink(t, dstId);
            var plan := PlannedMove(acct, t, srcId, dstId, dstName, session);
            if src.Err? then plan == Err(src.error)
            else if dst.Err? then plan == Err(dst.error)
            else
              && LinkTree.GetLink(t, srcId) == Ok(src.value) && src.value.linkId == srcId && srcId in t
              && LinkTree.GetLink(t, dstId) == Ok(dst.value) && dst.value.linkId == dstId && dstId != ""
              && plan == MoveRequestUnder(acct, t, ResolveById(acct, t, dstId), src.value, dst.value, dstName, session)
    ensures srcId in t ==> forall fault :: MoveReport(t, srcId, fault) == Report(fault)
  {
  }

  class Drive {
    const acct: Account
    const cache: Cache
    const server: Server

    /** The two maps of the cache agree; what it holds may be out of date, after changes by another client. */
    ghost predicate Usable()
      reads cache, server
    {
      && WellKeyed(server.links)
      && cache.ExactIndex()
      && "" !in cache.data
      && (!cache.enableCaching ==> cache.data == map[])
    }

    ghost predicate Coherent()
      reads cache, server
    {
      && Usable()
      && Acyclic(server.links)
      && CoherentData(acct, server.links, cache.data)
    }

    constructor (acct: Account, server: Server, enableCaching: bool)
      requires WellKeyed(server.links) && Acyclic(server.links)
      ensures Coherent() && this.acct == acct && this.server == server && fresh(cache)
      ensures cache.enableCaching == enableCaching && cache.data == map[]
    {
      this.acct := acct;
      this.server := server;
      cache := new Cache(enableCaching);
    }

    method GetLink(linkId: LinkId) returns (r: Result<Link>)
      requires Usable()
      modifies cache
      ensures Usable()
      ensures r == if linkId in old(cache.data) then Ok(old(cache.data)[linkId].link)
                   else LinkTree.GetLink(server.links, linkId)
      ensures cache.data ==
              if cache.enableCaching && r.Ok? && linkId !in old(cache.data)
              then old(cache.data)[linkId := Entry(r.value, None)] else old(cache.data)
      ensures old(Coherent()) ==> Coherent() && r == LinkTree.GetLink(server.links, linkId)
    {
      if linkId == "" {
        return Err(WrongUsageOfGetLink);
      }
      var hit := cache.Get(linkId);
      if hit.Some? {
        return Ok(hit.value.link);
      }
      r := server.GetLink(linkId);
      if r.Err? {
        return;
      }
      cache.Insert(linkId, r.value, None);
    }

    /** What `Usable` and `Coherent` consist of. */
    lemma Parts()
      requires Usable()
      ensures WellKeyed(server.links) && "" !in server.links && cache.ExactIndex() && cache.Valid()
      ensures "" !in cache.data && (!cache.enableCaching ==> cache.data == map[])
      ensures forall id | id in cache.data :: cache.data[id].link.linkId == id
      ensures Coherent() <==> Acyclic(server.links) && CoherentData(acct, server.links, cache.data)
    {
    }

    /** What makes `Usable` up. */
    lemma Whole()
      requires WellKeyed(server.links) && cache.ExactIndex() && "" !in cache.data && cache.enableCaching
      ensures Usable()
    {
    }

    /** One level of the recursion through a cached entry. */
    lemma CachedLevel(data: Data, linkId: LinkId, levels: nat)
      requires linkId in data && linkId != ""
      ensures Climb(acct, server.links, data, linkId, levels) ==
              if levels == 0 then Running
              else if data[linkId].kr.Some? then Returned(Ok(data[linkId].kr.value))
              else
                var parentKR := Climb(acct, server.links, data, data[linkId].link.parentId, levels - 1);
                if parentKR.Running? then Running else Returned(OpenUnder(acct, data[linkId].link, parentKR.value))
    {
    }

    lemma CacheIsOn(linkId: LinkId)
      requires Usable() && linkId in cache.data
      ensures cache.enableCaching
    {
    }

    lemma Kept(was: Data, now: Data, id: LinkId)
      requires Advanced(acct, server.links, was, now) && id in was
      ensures id in now && now[id].link == was[id].link
    {
    }

    /** The branch of the memoising resolver for an ID that is cached. */
    method OpenCached(linkId: LinkId, levels: nat) returns (r: Run<Result<KeyRing>>)
      requires Usable() && Acyclic(server.links) && linkId in cache.data
      modifies cache
      ensures Usable() && Advanced(acct, server.links, old(cache.data), cache.data)
      ensures r == Climb(acct, server.links, old(cache.data), linkId, levels)
      ensures linkId in cache.data && (r.Returned? && r.value.Ok? ==> cache.data[linkId].kr == Some(r.value.value))
      decreases levels, 0
    {
      hide *;
      ghost var was := cache.data;
      Parts();
      CachedLevel(was, linkId, levels);
      AdvancedNothing(acct, server.links, was);
      if levels == 0 {
        return Running;
      }
      var entry := cache.data[linkId];
      if entry.kr.Some? {
        return Returned(Ok(entry.kr.value));
      }
      CacheIsOn(linkId);
      var parentKR := GetLinkKRByID(entry.link.parentId, levels - 1);
      ghost var mid := cache.data;
      Kept(was, mid, linkId);
      if parentKR.Running? {
        return Running;
      }
      UnderCases(acct, entry.link, parentKR.value);
      if parentKR.value.Err? {
        return parentKR;
      }
      var kr := OpenNode(acct, entry.link, parentKR.value.value);
      r := Returned(kr);
      if kr.Ok? {
        AnswerIs(acct, server.links, was, linkId, levels);
        AdvancedMemo(acct, server.links, was, mid, linkId, kr.value);
        Parts();
        cache.SetKeyRing(linkId, kr.value);
        Whole();
      }
    }

    lemma WithCases(data: Data, link: Link)
      ensures With(data, link) == if link.linkId in data then data else data[link.linkId := Entry(link, None)]
    {
    }

    /** After the resolver has run on a link. */
    lemma StaysCoherent(was: Data, link: Link)
      requires Usable() && Acyclic(server.links) && link.linkId != ""
      requires Advanced(acct, server.links, With(was, link), cache.data)
      ensures CoherentData(acct, server.links, was) ==>
                (Coherent() <==>
                 (link.linkId !in was ==> LinkTree.GetLink(server.links, link.linkId) == Ok(link)))
    {
      if CoherentData(acct, server.links, was) {
        if link.linkId !in was {
          InsertCoherent(acct, server.links, was, link);
        }
        if CoherentData(acct, server.links, With(was, link)) {
          CoherentAdvanced(acct, server.links, With(was, link), cache.data);
        } else {
          assert cache.data[link.linkId].link == link;
        }
      }
    }

    /** The resolver with memoisation, for any link and whatever the cache holds: a cached link is opened as cached,
        whatever record the caller has; one that is not is inserted unchecked and opened as given. It runs for at most
        `levels` levels. A cache that was coherent stays so exactly if the link was cached or is the server's record.
        The branch that inserts and calls again is taken at most once for a link: the second component of the measure
        falls. */
    method GetLinkKR(link: Option<Link>, levels: nat) returns (r: Run<Result<KeyRing>>)
      requires Usable() && Acyclic(server.links)
      requires link.None? ==> cache.enableCaching
      requires link.Some? ==> link.value.linkId != ""
      modifies cache
      ensures Usable()
      ensures link.None? ==> r == Returned(Err(WrongUsageOfGetLinkKR))
      ensures link.None? || !cache.enableCaching ==> cache.data == old(cache.data)
      ensures link.Some? && !cache.enableCaching ==> r == Returned(ResolveLink(acct, server.links, link.value))
      ensures link.Some? && cache.enableCaching ==>
                var began := With(old(cache.data), link.value);
                && r == Climb(acct, server.links, began, link.value.linkId, levels)
                && Advanced(acct, server.links, began, cache.data)
                && link.value.linkId in cache.data
                && (r.Returned? && r.value.Ok? ==> cache.data[link.value.linkId].kr == Some(r.value.value))
      // if the cache was coherent: what is opened, when it returns, and whether the cache stays coherent
      ensures old(Coherent()) && link.Some? && cache.enableCaching ==>
                var id, parentId := link.value.linkId, link.value.parentId;
                var ends := id in old(cache.data) || ClimbMisses(server.links, old(cache.data), id, parentId);
                var enough := levels > Depth(server.links, id) && levels > Depth(server.links, parentId) + 1;
                && (r.Returned? ==> ends && r.value == OpensTo(acct, server.links, old(cache.data), link.value))
                && (ends && enough ==> r.Returned?)
      ensures old(Coherent()) ==>
                (Coherent() <==>
                 (cache.enableCaching && link.Some? && link.value.linkId !in old(cache.data) ==>
                    LinkTree.GetLink(server.links, link.value.linkId) == Ok(link.value)))
      decreases levels, if link.Some? && link.value.linkId in cache.data then 1 else 2
    {
      hide *;
      Parts();
      if !cache.enableCaching {
        return Returned(ResolveLink(acct, server.links, link.value));
      }
      if link.None? {
        return Returned(Err(WrongUsageOfGetLinkKR));
      }
      ghost var was := cache.data;
      WithCases(was, link.value);
      if Coherent() {
        BoundedAnswer(acct, server.links, was, link.value, levels);
      }
      var hit := cache.Get(link.value.linkId);
      if hit.Some? {
        r := OpenCached(link.value.linkId, levels);
        StaysCoherent(was, link.value);
        return;
      }
      cache.Insert(link.value.linkId, link.value, None);
      Whole();
      WithCases(cache.data, link.value);
      r := GetLinkKR(link, levels);
      StaysCoherent(was, link.value);
    }

    lemma LevelCases(data: Data, linkId: LinkId, levels: nat)
      requires "" !in server.links
      ensures levels == 0 ==> Climb(acct, server.links, data, linkId, levels) == Running
      ensures levels > 0 && linkId == "" ==>
                Climb(acct, server.links, data, linkId, levels) == Returned(Ok(acct.mainShareKR))
      ensures linkId != "" && LinkTree.GetLink(server.links, linkId).Ok? ==>
                && linkId in server.links
                && LinkTree.GetLink(server.links, linkId).value == server.links[linkId]
      ensures levels > 0 && linkId != "" && linkId !in data && LinkTree.GetLink(server.links, linkId).Err? ==>
                Climb(acct, server.links, data, linkId, levels)
                == Returned(Err(LinkTree.GetLink(server.links, linkId).error))
      ensures WellKeyed(server.links) && linkId in server.links ==> server.links[linkId].linkId == linkId
    {
    }

    lemma Refines(data: Data, linkId: LinkId, levels: nat)
      requires WellKeyed(server.links) && Acyclic(server.links)
      ensures CoherentData(acct, server.links, data) ==>
                && (levels > Depth(server.links, linkId) ==>
                      Climb(acct, server.links, data, linkId, levels).Returned?)
                && (Climb(acct, server.links, data, linkId, levels).Returned? ==>
                      Climb(acct, server.links, data, linkId, levels)
                      == Returned(ResolveById(acct, server.links, linkId)))
    {
      if CoherentData(acct, server.links, data) {
        CoherentClimb(acct, server.links, data, linkId, levels);
      }
    }

    lemma KeptCoherent(was: Data)
      requires Usable() && Acyclic(server.links) && Advanced(acct, server.links, was, cache.data)
      ensures CoherentData(acct, server.links, was) ==> Coherent()
    {
      if CoherentData(acct, server.links, was) {
        CoherentAdvanced(acct, server.links, was, cache.data);
      }
    }

    /** The resolver by ID, whatever the cache holds. If the cache is coherent it refines the plain one, with the same
        keyring and the same error, and needs no more levels than the node is deep. */
    method GetLinkKRByID(linkId: LinkId, levels: nat) returns (r: Run<Result<KeyRing>>)
      requires Usable() && Acyclic(server.links)
      modifies cache
      ensures Usable() && Advanced(acct, server.links, old(cache.data), cache.data)
      ensures r == if cache.enableCaching then Climb(acct, server.links, old(cache.data), linkId, levels)
                   else Returned(ResolveById(acct, server.links, linkId))
      ensures old(Coherent()) ==>
                && Coherent()
                && (r.Returned? ==> r.value == ResolveById(acct, server.links, linkId))
                && (levels > Depth(server.links, linkId) ==> r.Returned?)
      decreases levels, 3
    {
      hide *;
      ghost var was := cache.data;
      Parts();
      AdvancedNothing(acct, server.links, was);
      LevelCases(was, linkId, levels);
      Refines(was, linkId, levels);
      if !cache.enableCaching {
        return Returned(ResolveById(acct, server.links, linkId));
      }
      if levels == 0 {
        return Running;
      }
      if linkId == "" {
        return Returned(Ok(acct.mainShareKR));
      }
      var hit := cache.Get(linkId);
      if hit.Some? {
        WithCases(was, hit.value.link);
        r := GetLinkKR(Some(hit.value.link), levels);
        KeptCoherent(was);
        return;
      }
      var link := GetLink(linkId);
      if link.Err? {
        return Returned(Err(link.error));
      }
      ghost var mid := cache.data;
      AdvancedFetch(acct, server.links, was, linkId);
      ClimbFetched(acct, server.links, was, linkId, linkId, levels);
      WithCases(mid, link.value);
      r := GetLinkKR(Some(link.value), levels);
      AdvancedTwice(acct, server.links, was, mid, cache.data);
      KeptCoherent(was);
    }

    method RemoveLinkIDFromCache(linkId: LinkId, includingChildren: bool)
      requires Usable()
      modifies cache
      ensures Usable() && (old(Coherent()) ==> Coherent())
      ensures !cache.enableCaching ==> cache.data == old(cache.data)
      ensures cache.enableCaching && !includingChildren ==> cache.data == old(cache.data) - {linkId}
      ensures cache.enableCaching && includingChildren ==>
                cache.data == old(cache.data) - Subtree(old(cache.data), linkId)
    {
      if !cache.enableCaching {
        return;
      }
      cache.Remove(linkId, includingChildren);
    }

    method ClearCache()
      requires Usable()
      modifies cache
      ensures Usable() && cache.data == map[] && (Acyclic(server.links) ==> Coherent())
    {
      cache.Clear();
    }

    // ---- moves

    /** What the resolver makes of a move's destination: of its ID if it is cached, else of the record given. */
    ghost function DestinationKR(dst: Link): Run<Result<KeyRing>>
      requires Acyclic(server.links)
      reads cache, server
    {
      if cache.enableCaching then Answer(acct, server.links, With(cache.data, dst), dst.linkId)
      else Returned(ResolveLink(acct, server.links, dst))
    }

    /** And then of the parent of the moved link, the destination being cached by now. */
    ghost function SourceParentKR(src: Link, dst: Link): Run<Result<KeyRing>>
      requires Acyclic(server.links)
      reads cache, server
    {
      if cache.enableCaching then Answer(acct, server.links, With(cache.data, dst), src.parentId)
      else Returned(ResolveById(acct, server.links, src.parentId))
    }

    ghost function Plan(src: Link, dst: Link, dstName: string, session: SessionKey): Run<Result<MoveRequest>>
      requires Acyclic(server.links)
      reads cache, server
    {
      MovePlan(acct, DestinationKR(dst), SourceParentKR(src, dst), src, dst, dstName, session)
    }

    /** Both keyrings resolve within the bound. */
    ghost predicate Enough(src: Link, dst: Link, levels: nat)
      reads cache, server
    {
      cache.enableCaching ==>
        && Climb(acct, server.links, With(cache.data, dst), dst.linkId, levels).Returned?
        && Climb(acct, server.links, With(cache.data, dst), src.parentId, levels).Returned?
    }

    /** The record given is the server's, or is not read because the ID is cached. */
    ghost predicate Known(dst: Link)
      reads cache, server
    {
      (cache.enableCaching && dst.linkId in cache.data) || LinkTree.GetLink(server.links, dst.linkId) == Ok(dst)
    }

    /** What the two resolutions of a move find, from the cache as it is when they begin. */
    lemma Resolutions(src: Link, dst: Link, dstName: string, session: SessionKey, levels: nat)
      requires Usable() && Acyclic(server.links)
      ensures var began := With(cache.data, dst);
              && "" !in server.links
              && Plan(src, dst, dstName, session)
                 == MovePlan(acct, DestinationKR(dst), SourceParentKR(src, dst), src, dst, dstName, session)
              && DestinationKR(dst)
                 == (if cache.enableCaching then Answer(acct, server.links, began, dst.linkId)
                     else Returned(ResolveLink(acct, server.links, dst)))
              && SourceParentKR(src, dst)
                 == (if cache.enableCaching then Answer(acct, server.links, began, src.parentId)
                     else Returned(ResolveById(acct, server.links, src.parentId)))
              && (Enough(src, dst, levels) <==>
                    (cache.enableCaching ==>
                      && Climb(acct, server.links, began, dst.linkId, levels).Returned?
                      && Climb(acct, server.links, began, src.parentId, levels).Returned?))
      ensures Coherent() && Known(dst) ==>
                (cache.enableCaching && dst.linkId !in cache.data ==>
                   LinkTree.GetLink(server.links, dst.linkId) == Ok(dst))
    {
    }

    /** The second resolution runs on what the first has left. */
    lemma ResolvedNext(began: Data, mid: Data, id: LinkId, levels: nat)
      requires "" !in server.links && Advanced(acct, server.links, began, mid)
      ensures Climb(acct, server.links, began, id, levels).Returned? ==>
                Climb(acct, server.links, mid, id, levels).Returned?
      ensures Climb(acct, server.links, mid, id, levels).Returned? ==>
                Answer(acct, server.links, began, id) == Climb(acct, server.links, mid, id, levels)
    {
      if Climb(acct, server.links, began, id, levels).Returned? {
        ClimbAdvanced(acct, server.links, began, mid, id, levels);
      }
      if Climb(acct, server.links, mid, id, levels).Returned? {
        ClimbBefore(acct, server.links, began, mid, id, levels);
      }
    }

    lemma FirstAnswer(data: Data, id: LinkId, levels: nat)
      ensures Climb(acct, server.links, data, id, levels).Returned? ==>
                Answer(acct, server.links, data, id) == Climb(acct, server.links, data, id, levels)
    {
      if Climb(acct, server.links, data, id, levels).Returned? {
        AnswerIs(acct, server.links, data, id, levels);
      }
    }

    lemma GrownFrom(was: Data, link: Link, now: Data)
      requires Advanced(acct, server.links, With(was, link), now)
      ensures Grown(was, now)
    {
    }

    lemma AdvancedGrows(was: Data, now: Data)
      requires Advanced(acct, server.links, was, now)
      ensures Grown(was, now)
    {
    }

    /** Everything `moveLink` does before it evicts the moved link and asks the server, for any two records and whatever
        the cache holds. */
    method PrepareMove(srcLink: Link, dstParentLink: Link, dstName: string, session: SessionKey, levels: nat)
      returns (r: Run<Result<MoveRequest>>)
      requires Usable() && Acyclic(server.links) && dstParentLink.linkId != ""
      modifies cache
      ensures Usable() && Grown(old(cache.data), cache.data)
      ensures old(Coherent()) && old(Known(dstParentLink)) ==> Coherent()
      ensures r.Returned? ==> r == old(Plan(srcLink, dstParentLink, dstName, session))
      ensures r.Returned? && r.value.Ok? ==>
                var dstKR := old(DestinationKR(dstParentLink));
                && dstKR.Returned? && dstKR.value.Ok?
                && AsksFor(acct, dstKR.value.value, srcLink, dstParentLink, dstName, session, r.value.value)
      ensures old(Enough(srcLink, dstParentLink, levels)) ==> r.Returned?
    {
      hide Climb, Answer, Advanced, Grown, CoherentData, With, ResolveById, ResolveLink, Depth, OpenNode, GetHashKey,
        EncryptName, ReencryptKeyPacket, AsksFor, Usable, Coherent, Known, Enough, Plan, DestinationKR, SourceParentKR;
      ghost var was, began := cache.data, With(cache.data, dstParentLink);
      Resolutions(srcLink, dstParentLink, dstName, session, levels);
      PlanAsks(acct, DestinationKR(dstParentLink), SourceParentKR(srcLink, dstParentLink), srcLink, dstParentLink,
               dstName, session);
      FirstAnswer(began, dstParentLink.linkId, levels);
      GrownMore(was, was, "");
      var dstParentKR := GetLinkKR(Some(dstParentLink), levels);
      ghost var mid := cache.data;
      if cache.enableCaching {
        GrownFrom(was, dstParentLink, mid);
        ResolvedNext(began, mid, srcLink.parentId, levels);
      }
      if dstParentKR.Running? {
        return Running;
      }
      if dstParentKR.value.Err? {
        return Returned(Err(dstParentKR.value.error));
      }
      var kr := dstParentKR.value.value;
      var name := EncryptName(kr, acct.defaultAddrKR, session, dstName);
      if name.Err? {
        return Returned(Err(name.error));
      }
      var hashKey := GetHashKey(acct, dstParentLink, kr);
      if hashKey.Err? {
        return Returned(Err(hashKey.error));
      }
      var srcParentKR := GetLinkKRByID(srcLink.parentId, levels);
      AdvancedGrows(mid, cache.data);
      GrownTwice(was, mid, cache.data);
      if srcParentKR.Running? {
        return Running;
      }
      if srcParentKR.value.Err? {
        return Returned(Err(srcParentKR.value.error));
      }
      var passphrase := ReencryptKeyPacket(srcParentKR.value.value, kr, srcLink.nodePassphrase);
      if passphrase.Err? {
        return Returned(Err(passphrase.error));
      }
      var nameHash := NameHash(dstName, hashKey.value);
      var request := MoveRequest(dstParentLink.linkId, srcLink.nameHash, name.value, nameHash,
                                 NameAddress(acct, srcLink), passphrase.value);
      return Returned(Ok(request));
    }

    /** Lookups by other goroutines. */
    method LookUp(linkIds: seq<LinkId>)
      requires Usable()
      modifies cache
      ensures Usable() && (old(Coherent()) ==> Coherent())
      ensures cache.data == LookedUp(cache.enableCaching, server.links, old(cache.data), linkIds)
    {
      for i := 0 to |linkIds|
        invariant Usable() && (old(Coherent()) ==> Coherent())
        invariant cache.data == LookedUp(cache.enableCaching, server.links, old(cache.data), linkIds[..i])
      {
        assert linkIds[..i + 1][..i] == linkIds[..i];
        var link := GetLink(linkIds[i]);
      }
      assert linkIds[..|linkIds|] == linkIds;
    }

    lemma DoneAsAsked(t: Tree, src: Link, fault: Fault, plan: Result<MoveRequest>)
      requires LinkTree.GetLink(t, src.linkId) == Ok(src) && plan.Ok?
      requires MoveReport(t, src.linkId, fault) == None
      ensures src.linkId in t
      ensures MoveOutcome(t, src.linkId, Ok(plan.value), fault) == AfterMove(t, src.linkId, plan.value)
    {
    }

    /** For current records nothing keeps a move from being planned. */
    lemma CurrentPlan(src: Link, dst: Link, dstName: string, session: SessionKey, levels: nat)
      requires Coherent() && Known(dst)
      ensures Acyclic(server.links) && dst.linkId in server.links
      ensures var dstKR := ResolveById(acct, server.links, dst.linkId);
              Plan(src, dst, dstName, session)
              == Returned(MoveRequestUnder(acct, server.links, dstKR, src, dst, dstName, session))
      ensures levels > Depth(server.links, dst.linkId) && levels > Depth(server.links, src.parentId) ==>
                Enough(src, dst, levels)
    {
      var t, began := server.links, With(cache.data, dst);
      if dst.linkId in cache.data {
        assert began == cache.data;
      } else {
        InsertCoherent(acct, t, cache.data, dst);
      }
      if cache.enableCaching {
        CoherentAnswer(acct, t, began, dst.linkId);
        CoherentAnswer(acct, t, began, src.parentId);
        CoherentClimb(acct, t, began, dst.linkId, levels);
        CoherentClimb(acct, t, began, src.parentId, levels);
      }
    }

    /** The cache and the server once a planned move has met its fault. */
    lemma MoveLanded(t: Tree, src: Link, dst: Link, dstName: string, session: SessionKey,
                     plan: Result<MoveRequest>, fault: Fault, current: bool)
      requires WellKeyed(t) && Acyclic(t)
      requires cache.ExactIndex() && "" !in cache.data && (!cache.enableCaching ==> cache.data == map[])
      requires server.links == MoveOutcome(t, src.linkId, plan, fault)
      requires current ==>
                 && LinkTree.GetLink(t, src.linkId) == Ok(src) && dst.linkId in t && CoherentData(acct, t, cache.data)
                 && plan == MoveRequestUnder(acct, t, ResolveById(acct, t, dst.linkId), src, dst, dstName, session)
      ensures Usable()
      ensures current && MoveStays(t, src.linkId, dst.linkId, plan, fault) ==> SameKeyRings(acct, t, server.links)
      ensures current ==>
                (Coherent() <==>
                 && MoveStays(t, src.linkId, dst.linkId, plan, fault)
                 && (plan.Ok? && src.linkId in cache.data ==> server.links == t))
    {
      if current && plan.Ok? {
        MoveSettles(acct, t, src, dst, dstName, session, plan, cache.data, fault);
      }
    }

    /** A move of any two records, whatever the cache holds. The moved link leaves the cache before the server is asked;
        `between` are the IDs that other goroutines look up in the meantime. If the cache was coherent and the records
        given are the server's, or the destination is cached, then no node's keyring changes, the keyrings memoised
        below the moved link included, as long as the tree stays one. And the cache is coherent with the server exactly
        if, besides, nobody has brought the moved link back in the meantime, unless the server did not change. */
    method MoveLink(srcLink: Link, dstParentLink: Link, dstName: string, session: SessionKey,
                    between: seq<LinkId>, fault: Fault, levels: nat)
      returns (r: Run<Option<Error>>)
      requires Usable() && Acyclic(server.links) && dstParentLink.linkId != ""
      modifies cache, server
      ensures Usable() && Grown(old(cache.data) - {srcLink.linkId}, cache.data)
      ensures old(Enough(srcLink, dstParentLink, levels)) ==> r.Returned?
      ensures r.Running? ==> server.links == old(server.links)
      ensures r.Returned? ==>
                var t, plan := old(server.links), old(Plan(srcLink, dstParentLink, dstName, session));
                && plan.Returned?
                && r.value == (if plan.value.Err? then Some(plan.value.error) else MoveReport(t, srcLink.linkId, fault))
                && server.links == MoveOutcome(t, srcLink.linkId, plan.value, fault)
                && (plan.value.Ok? && srcLink.linkId !in between ==> srcLink.linkId !in cache.data)
      ensures r == Returned(None) && LinkTree.GetLink(old(server.links), srcLink.linkId) == Ok(srcLink) ==>
                var dstKR := old(DestinationKR(dstParentLink));
                && dstKR.Returned? && dstKR.value.Ok?
                && MovedTo(acct, old(server.links), server.links, srcLink.linkId, dstParentLink, dstKR.value.value,
                           dstName, session)
      ensures old(Coherent()) && old(Known(dstParentLink)) && r.Running? ==> Coherent()
      ensures var t := old(server.links);
              (old(Coherent()) && LinkTree.GetLink(t, srcLink.linkId) == Ok(srcLink) && old(Known(dstParentLink))
               && r.Returned?) ==>
                var plan := old(Plan(srcLink, dstParentLink, dstName, session)).value;
                && (MoveStays(t, srcLink.linkId, dstParentLink.linkId, plan, fault) ==>
                      SameKeyRings(acct, t, server.links))
                && (plan.Ok? && cache.enableCaching && srcLink.linkId in between ==>
                      srcLink.linkId in cache.data && cache.data[srcLink.linkId].link == srcLink)
                && (Coherent() <==>
                    && MoveStays(t, srcLink.linkId, dstParentLink.linkId, plan, fault)
                    && (plan.Ok? && cache.enableCaching && srcLink.linkId in between ==> server.links == t))
    {
      hide *;
      ghost var t, was := server.links, cache.data;
      ghost var dstKR := DestinationKR(dstParentLink);
      ghost var current :=
        Coherent() && Known(dstParentLink) && LinkTree.GetLink(t, srcLink.linkId) == Ok(srcLink);
      if Coherent() && Known(dstParentLink) {
        CurrentPlan(srcLink, dstParentLink, dstName, session, levels);
      }
      var req := PrepareMove(srcLink, dstParentLink, dstName, session, levels);
      ghost var mid := cache.data;
      GrownLess(was, mid, mid, srcLink.linkId);
      Parts();
      if req.Running? {
        return Running;
      }
      if req.value.Err? {
        NotMoved(t, srcLink.linkId, req.value, fault);
        MoveLanded(t, srcLink, dstParentLink, dstName, session, req.value, fault, current);
        return Returned(Some(req.value.error));
      }
      RemoveLinkIDFromCache(srcLink.linkId, false);
      ghost var evicted := cache.data;
      GrownLess(was, mid, evicted, srcLink.linkId);
      LookUp(between);
      LookedUpGrows(cache.enableCaching, t, evicted, between);
      BroughtBack(cache.enableCaching, t, evicted, between, srcLink);
      GrownTwice(was - {srcLink.linkId}, evicted, cache.data);
      Parts();
      var answer := server.MoveLink(srcLink.linkId, req.value.value, fault);
      r := Returned(answer);
      if answer == None && LinkTree.GetLink(t, srcLink.linkId) == Ok(srcLink) {
        DoneAsAsked(t, srcLink, fault, req.value);
        AskedIsMoved(acct, t, srcLink, dstParentLink, dstKR.value.value, dstName, session, req.value.value);
      }
      AskedFor(t, srcLink.linkId, req.value, fault);
      MoveLanded(t, srcLink, dstParentLink, dstName, session, req.value, fault, current);
    }

    method GetActiveLink(linkId: LinkId) returns (r: Result<Link>)
      requires Coherent()
      modifies cache
      ensures Coherent() && Grown(old(cache.data), cache.data)
      ensures r == ActiveLink(server.links, linkId)
    {
      r := GetLink(linkId);
      if r.Ok? && r.value.state != Active {
        r := Err(LinkMustBeActive);
      }
    }

    lemma CoherentIsUsable()
      requires Coherent()
      ensures Usable() && WellKeyed(server.links) && Acyclic(server.links)
    {
    }

    lemma PlanFailed(src: LinkId, dst: LinkId, plan: Result<MoveRequest>, fault: Fault)
      requires Acyclic(server.links) && plan.Err?
      ensures MoveOutcome(server.links, src, plan, fault) == server.links
      ensures MoveStays(server.links, src, dst, plan, fault) && SameKeyRings(acct, server.links, server.links)
    {
    }

    lemma CurrentIsKnown(dst: Link)
      requires LinkTree.GetLink(server.links, dst.linkId) == Ok(dst)
      ensures Known(dst)
    {
    }

    /** `MoveFileByID` and `MoveFolderByID`, which have the same steps. */
    method MoveByID(srcLinkID: LinkId, dstParentLinkID: LinkId, dstName: string, session: SessionKey,
                    between: seq<LinkId>, fault: Fault, levels: nat)
      returns (r: Run<Option<Error>>)
      requires Coherent()
      modifies cache, server
      ensures Usable() && Grown(old(cache.data) - {srcLinkID}, cache.data)
      ensures levels > Depth(old(server.links), srcLinkID) && levels > Depth(old(server.links), dstParentLinkID) ==>
                r.Returned?
      ensures r.Running? ==> server.links == old(server.links) && Coherent()
      ensures r == Returned(None) ==>
                var t := old(server.links);
                && srcLinkID in t && t[srcLinkID].state == Active
                && dstParentLinkID in t && t[dstParentLinkID].state == Active
                && ResolveById(acct, t, dstParentLinkID).Ok?
                && MovedTo(acct, t, server.links, srcLinkID, t[dstParentLinkID],
                           ResolveById(acct, t, dstParentLinkID).value, dstName, session)
      ensures r.Returned? ==>
                var t := old(server.links);
                var plan := PlannedMove(acct, t, srcLinkID, dstParentLinkID, dstName, session);
                && r.value == (if plan.Err? then Some(plan.error) else Report(fault))
                && server.links == MoveOutcome(t, srcLinkID, plan, fault)
                && (plan.Ok? && srcLinkID !in between ==> srcLinkID !in cache.data)
                && (MoveStays(t, srcLinkID, dstParentLinkID, plan, fault) ==> SameKeyRings(acct, t, server.links))
                && (Coherent() <==>
                    && MoveStays(t, srcLinkID, dstParentLinkID, plan, fault)
                    && (plan.Ok? && cache.enableCaching && srcLinkID in between ==> server.links == t))
    {
      hide *;
      ghost var t, was := server.links, cache.data;
      CoherentIsUsable();
      ghost var plan := PlannedMove(acct, t, srcLinkID, dstParentLinkID, dstName, session);
      PlannedCases(acct, t, srcLinkID, dstParentLinkID, dstName, session);
      PlannedMoveIff(acct, t, srcLinkID, dstParentLinkID, dstName, session);
      RemoveLinkIDFromCache(srcLinkID, false);
      ghost var first := cache.data;
      GrownMore(was, was, srcLinkID);
      GrownLess(was, was, first, srcLinkID);
      var srcLink := GetActiveLink(srcLinkID);
      ghost var second := cache.data;
      GrownThrough(was, first, second, second, srcLinkID);
      if srcLink.Err? {
        CoherentIsUsable();
        PlanFailed(srcLinkID, dstParentLinkID, plan, fault);
        return Returned(Some(srcLink.error));
      }
      var dstParentLink := GetActiveLink(dstParentLinkID);
      ghost var third := cache.data;
      GrownThrough(was, second, third, third, srcLinkID);
      CoherentIsUsable();
      if dstParentLink.Err? {
        PlanFailed(srcLinkID, dstParentLinkID, plan, fault);
        return Returned(Some(dstParentLink.error));
      }
      CurrentIsKnown(dstParentLink.value);
      CurrentPlan(srcLink.value, dstParentLink.value, dstName, session, levels);
      ParentIsHigher(t, srcLink.value);
      r := MoveLink(srcLink.value, dstParentLink.value, dstName, session, between, fault, levels);
      GrownThrough(was, third, third, cache.data, srcLinkID);
      PlanCarriedOut(t, srcLinkID, plan, fault);
    }

    lemma PlanCarriedOut(t: Tree, src: LinkId, plan: Result<MoveRequest>, fault: Fault)
      requires src in t
      ensures plan.Ok? && Report(fault) == None ==> MoveOutcome(t, src, plan, fault) == AfterMove(t, src, plan.value)
    {
    }

    // ---- delete.go

    lemma EvictNeeds()
      requires Usable()
      ensures cache.ExactIndex() && (!cache.enableCaching ==> cache.data == map[])
      ensures WellKeyed(server.links) && "" !in cache.data
      ensures Coherent() ==> Acyclic(server.links) && CoherentData(acct, server.links, cache.data)
    {
    }

    lemma TrashSettles(t: Tree, was: Data, coherent: bool, linkIds: seq<LinkId>, fault: Fault)
      requires WellKeyed(t) && "" !in was && (!cache.enableCaching ==> was == map[])
      requires coherent ==> Acyclic(t) && CoherentData(acct, t, was)
      requires cache.ExactIndex()
      requires server.links == if fault.Lost? then t else AfterTrash(t, linkIds)
      requires cache.data == if Report(fault) == None then was - ReachingAny(was, IdsOf(linkIds)) else was
      ensures Usable()
      ensures coherent ==> Acyclic(t) && SameKeyRings(acct, t, server.links)
      ensures coherent ==> (Coherent() <==> (fault.Unacknowledged? ==> TrashedAlready(t, linkIds, was)))
    {
      if coherent {
        TrashAndEvict(acct, t, linkIds, was);
      }
    }

    method EvictAll(linkIds: seq<LinkId>)
      requires cache.ExactIndex() && (!cache.enableCaching ==> cache.data == map[])
      modifies cache
      ensures cache.ExactIndex()
      ensures cache.data == old(cache.data) - ReachingAny(old(cache.data), IdsOf(linkIds))
    {
      ghost var was, rows := cache.data, cache.children;
      NothingRemoved(was, rows);
      RowsCoverAnyChain(was, rows, IdsOf(linkIds));
      assert IdsOf(linkIds[..0]) == {};
      for i := 0 to |linkIds|
        invariant cache.ExactIndex()
        invariant !cache.enableCaching ==> cache.data == was == map[]
        invariant cache.enableCaching ==>
                    Removed(was, rows, RowReachingAny(was, rows, IdsOf(linkIds[..i])), cache.data, cache.children)
      {
        ghost var mid, midRows := cache.data, cache.children;
        assert IdsOf(linkIds[..i + 1]) == IdsOf(linkIds[..i]) + {linkIds[i]};
        cache.Remove(linkIds[i], true);
        if cache.enableCaching {
          RemovedOneMore(was, rows, IdsOf(linkIds[..i]), linkIds[i], mid, midRows, cache.data, cache.children);
        }
      }
      assert linkIds[..|linkIds|] == linkIds;
    }

    /** The server changes first and the cache only after an answer of success. If the answer is lost, a cached
        link keeps its old state; its keyring, and every other, is right even then. */
    method MoveToTrash(linkIds: seq<LinkId>, fault: Fault) returns (r: Option<Error>)
      requires Usable()
      modifies cache, server
      ensures Usable()
      ensures r == Report(fault)
      ensures server.links == if fault.Lost? then old(server.links) else AfterTrash(old(server.links), linkIds)
      ensures cache.data ==
              if r == None then old(cache.data) - ReachingAny(old(cache.data), IdsOf(linkIds)) else old(cache.data)
      ensures old(Coherent()) ==> SameKeyRings(acct, old(server.links), server.links)
      ensures old(Coherent()) ==>
                (Coherent() <==>
                 (fault.Unacknowledged? ==> TrashedAlready(old(server.links), linkIds, old(cache.data))))
    {
      hide *;
      ghost var t, was, coherent := server.links, cache.data, Coherent();
      EvictNeeds();
      r := server.TrashChildren(linkIds, fault);
      if r == None {
        EvictAll(linkIds);
      }
      TrashSettles(t, was, coherent, linkIds, fault);
    }

    /** Drops an entry that may be out of date and fetches it again, perhaps under a new parent. The entries
        below it stay, and stay indexed. */
    method Refetch(linkId: LinkId) returns (r: Result<Link>)
      requires Usable()
      modifies cache
      ensures Usable() && (old(Coherent()) ==> Coherent())
      ensures r == LinkTree.GetLink(server.links, linkId)
      ensures cache.data == Refetched(cache.enableCaching, old(cache.data), linkId, r)
    {
      cache.Remove(linkId, false);
      r := GetLink(linkId);
    }

    method MoveFileToTrashByID(linkId: LinkId, fault: Fault) returns (r: Option<Error>)
      requires Usable()
      modifies cache, server
      ensures Usable() && (old(Coherent()) && !fault.Unacknowledged? ==> Coherent())
      ensures TrashedById(old(server.links), old(cache.data), server.links, cache.data, cache.enableCaching,
                          linkId, TrashableFile(old(server.links), linkId), fault, r)
      ensures linkId in old(server.links) && old(server.links)[linkId].kind == File ==> r == Report(fault)
      ensures linkId in old(server.links) && old(server.links)[linkId].kind == Folder ==>
                r == Some(LinkMustBeFile) && server.links == old(server.links)
      ensures linkId !in old(server.links) ==> r.Some? && server.links == old(server.links)
    {
      TrashableIff(server.links, linkId, false, None);
      var fileLink := Refetch(linkId);
      if fileLink.Err? {
        return Some(fileLink.error);
      }
      if fileLink.value.kind != File {
        return Some(LinkMustBeFile);
      }
      ReachingSingle(cache.data, linkId);
      r := MoveToTrash([linkId], fault);
    }

    /** Listing the children may fail, with `listing`, even where its result is not looked at. */
    method MoveFolderToTrashByID(linkId: LinkId, onlyOnEmpty: bool, listing: Option<Error>, fault: Fault)
      returns (r: Option<Error>)
      requires Usable()
      modifies cache, server
      ensures Usable() && (old(Coherent()) && !fault.Unacknowledged? ==> Coherent())
      ensures TrashedById(old(server.links), old(cache.data), server.links, cache.data, cache.enableCaching,
                          linkId, TrashableFolder(old(server.links), linkId, onlyOnEmpty, listing), fault, r)
      ensures linkId !in old(server.links) ==> r.Some? && server.links == old(server.links)
      ensures linkId in old(server.links) && old(server.links)[linkId].kind == File ==>
                r == Some(LinkMustBeFolder) && server.links == old(server.links)
      ensures linkId in old(server.links) && old(server.links)[linkId].kind == Folder ==>
                if listing.Some? then r == listing && server.links == old(server.links)
                else if onlyOnEmpty && HasActiveChild(old(server.links), linkId)
                then r == Some(FolderIsNotEmpty) && server.links == old(server.links)
                else r == Report(fault)
    {
      TrashableIff(server.links, linkId, onlyOnEmpty, listing);
      var folderLink := Refetch(linkId);
      if folderLink.Err? {
        return Some(folderLink.error);
      }
      if folderLink.value.kind != Folder {
        return Some(LinkMustBeFolder);
      }
      if listing.Some? {
        return listing;
      }
      var childrenLinks := ActiveChildren(server.links, linkId);
      if onlyOnEmpty {
        if childrenLinks != {} {
          return Some(FolderIsNotEmpty);
        }
      }
      ReachingSingle(cache.data, linkId);
      r := MoveToTrash([linkId], fault);
    }
  }
}
