/** The cache of links and keyrings, and its parent-to-child index. */
module LinkCache {
  import opened Wrappers
  import opened Crypto
  import opened LinkTree

  datatype Entry = Entry(link: Link, kr: Option<KeyRing>)

  type Data = map<LinkId, Entry>
  type Index = map<LinkId, set<LinkId>>

  // ---- agreement of the two maps

  function ChildrenIn(children: Index, p: LinkId): set<LinkId> {
    if p in children then children[p] else {}
  }

  /** Every entry is stored under its own ID and indexed under its own parent. */
  ghost predicate Indexed(data: Data, children: Index) {
    forall id | id in data ::
      && data[id].link.linkId == id
      && data[id].link.parentId in children
      && id in children[data[id].link.parentId]
  }

  /** The index holds nothing else: `children[p]` is exactly the set of entries whose parent is `p`. */
  ghost predicate Exact(data: Data, children: Index) {
    && Indexed(data, children)
    && forall p, id | p in children && id in children[p] :: id in data && data[id].link.parentId == p
  }

  // ---- chains of cached parents

  ghost predicate ReachesIn(d: Data, x: LinkId, root: LinkId, n: nat)
    decreases n
  {
    x in d && (x == root || (n > 0 && ReachesIn(d, d[x].link.parentId, root, n - 1)))
  }

  /** Following cached parents from `x` leads to `root` without leaving the cache. */
  ghost predicate Reaches(d: Data, x: LinkId, root: LinkId) {
    exists n: nat :: ReachesIn(d, x, root, n)
  }

  ghost predicate ReachesOne(d: Data, x: LinkId, roots: set<LinkId>) {
    exists c :: c in roots && Reaches(d, x, c)
  }

  ghost function ReachingAny(d: Data, roots: set<LinkId>): set<LinkId> {
    set x | x in d && ReachesOne(d, x, roots)
  }

  /** Everything whose chain leads to `root`. */
  ghost function Subtree(d: Data, root: LinkId): set<LinkId> {
    set x | x in d && Reaches(d, x, root)
  }

  lemma {:induction false} ReachStep(d: Data, x: LinkId, root: LinkId)
    ensures Reaches(d, x, root) <==> x in d && (x == root || Reaches(d, d[x].link.parentId, root))
  {
    if Reaches(d, x, root) {
      var n: nat :| ReachesIn(d, x, root, n);
      if x != root {
        assert ReachesIn(d, d[x].link.parentId, root, n - 1);
      }
    }
    if x in d && x == root {
      assert ReachesIn(d, x, root, 0);
    }
    if x in d && Reaches(d, d[x].link.parentId, root) {
      var n: nat :| ReachesIn(d, d[x].link.parentId, root, n);
      assert ReachesIn(d, x, root, n + 1);
    }
  }

  // ---- walks along the rows of the index

  predicate RowStep(d: Data, children: Index, p: LinkId, x: LinkId) {
    p in d && x in d && x in ChildrenIn(children, p)
  }

  /** A walk of at most `n` steps from `root` down to `x`, each from a cached ID to one that its row lists. */
  ghost predicate RowReachesIn(d: Data, children: Index, x: LinkId, root: LinkId, n: nat)
    decreases n
  {
    && x in d && root in d
    && (x == root || (n > 0 && exists p :: RowStep(d, children, p, x) && RowReachesIn(d, children, p, root, n - 1)))
  }

  ghost predicate RowReaches(d: Data, children: Index, x: LinkId, root: LinkId) {
    exists n: nat :: RowReachesIn(d, children, x, root, n)
  }

  ghost predicate RowReachesOne(d: Data, children: Index, x: LinkId, roots: set<LinkId>) {
    exists c :: c in roots && RowReaches(d, children, x, c)
  }

  ghost function RowReachingAny(d: Data, children: Index, roots: set<LinkId>): set<LinkId> {
    set x | x in d && RowReachesOne(d, children, x, roots)
  }

  /** What a recursive removal of `root` takes away: all that the rows lead to. */
  ghost function RowSubtree(d: Data, children: Index, root: LinkId): set<LinkId> {
    set x | x in d && RowReaches(d, children, x, root)
  }

  function Remaining(d: Data, row: set<LinkId>, gone: set<LinkId>, p: LinkId): set<LinkId> {
    set x | x in row && !(x in gone && x in d && d[x].link.parentId == p)
  }

  /** The index once the entries in `gone` have left: they lose their rows, and each leaves the row of its parent.
      A row under which it was listed besides that keeps it. */
  function IndexAfter(d: Data, children: Index, gone: set<LinkId>): Index {
    map p | p in children && p !in gone :: Remaining(d, children[p], gone, p)
  }

  /** The two maps of a cache before and after the entries in `gone` left it. */
  ghost predicate Removed(d: Data, children: Index, gone: set<LinkId>, d': Data, children': Index) {
    d' == d - gone && children' == IndexAfter(d, children, gone)
  }

  lemma {:induction false} RowReachStep(d: Data, children: Index, p: LinkId, x: LinkId, root: LinkId)
    requires RowReaches(d, children, p, root) && RowStep(d, children, p, x)
    ensures RowReaches(d, children, x, root)
  {
    var n: nat :| RowReachesIn(d, children, p, root, n);
    assert RowReachesIn(d, children, x, root, n + 1);
  }

  /** Whoever removes all that some roots lead to leaves nothing listed under what is gone. */
  lemma RowsClosed(d: Data, children: Index, roots: set<LinkId>)
    ensures forall p, x | p in RowReachingAny(d, children, roots) && RowStep(d, children, p, x) ::
              x in RowReachingAny(d, children, roots)
  {
    forall p, x | p in RowReachingAny(d, children, roots) && RowStep(d, children, p, x)
      ensures x in RowReachingAny(d, children, roots)
    {
      var c :| c in roots && RowReaches(d, children, p, c);
      RowReachStep(d, children, p, x, c);
    }
  }

  /** A walk that is left after some removals was there before. */
  lemma {:induction false} RowMonotone(d: Data, children: Index, d': Data, children': Index,
                                       x: LinkId, root: LinkId, n: nat)
    requires forall p, y | RowStep(d', children', p, y) :: RowStep(d, children, p, y)
    requires d'.Keys <= d.Keys && RowReachesIn(d', children', x, root, n)
    ensures RowReachesIn(d, children, x, root, n)
    decreases n
  {
    if x != root {
      var p :| RowStep(d', children', p, x) && RowReachesIn(d', children', p, root, n - 1);
      RowMonotone(d, children, d', children', p, root, n - 1);
    }
  }

  /** Removing all that `roots` lead to breaks no walk to what stays. */
  lemma {:induction false} RowSurvives(d: Data, children: Index, roots: set<LinkId>, x: LinkId, root: LinkId, n: nat)
    requires RowReachesIn(d, children, x, root, n) && x !in RowReachingAny(d, children, roots)
    ensures var gone := RowReachingAny(d, children, roots);
            RowReachesIn(d - gone, IndexAfter(d, children, gone), x, root, n)
    decreases n
  {
    var gone := RowReachingAny(d, children, roots);
    if x != root {
      var p :| RowStep(d, children, p, x) && RowReachesIn(d, children, p, root, n - 1);
      RowsClosed(d, children, roots);
      RowSurvives(d, children, roots, p, root, n - 1);
      assert RowStep(d - gone, IndexAfter(d, children, gone), p, x);
    }
  }

  lemma RemovedRows(d: Data, children: Index, gone: set<LinkId>, p: LinkId, x: LinkId)
    requires RowStep(d - gone, IndexAfter(d, children, gone), p, x)
    ensures RowStep(d, children, p, x)
  {
  }

  /** Removing what one more root leads to, after the roots in `done`. */
  lemma RowReachingOneMore(d: Data, children: Index, done: set<LinkId>, c: LinkId)
    ensures var gone := RowReachingAny(d, children, done);
            gone + RowSubtree(d - gone, IndexAfter(d, children, gone), c) == RowReachingAny(d, children, done + {c})
  {
    var gone := RowReachingAny(d, children, done);
    var rest, rows := d - gone, IndexAfter(d, children, gone);
    forall x | x in rest
      ensures RowReaches(rest, rows, x, c) <==> RowReaches(d, children, x, c)
    {
      if n: nat :| RowReachesIn(d, children, x, c, n) {
        RowSurvives(d, children, done, x, c, n);
      }
      if n: nat :| RowReachesIn(rest, rows, x, c, n) {
        forall p, y | RowStep(rest, rows, p, y) ensures RowStep(d, children, p, y) {
          RemovedRows(d, children, gone, p, y);
        }
        RowMonotone(d, children, rest, rows, x, c, n);
      }
    }
    assert gone + RowSubtree(rest, rows, c) == RowReachingAny(d, children, done + {c});
  }

  /** Two removals in a row come to one. */
  lemma IndexAfterTwo(d: Data, children: Index, gone: set<LinkId>, more: set<LinkId>)
    requires gone <= d.Keys && more <= d.Keys - gone
    ensures IndexAfter(d - gone, IndexAfter(d, children, gone), more) == IndexAfter(d, children, gone + more)
    ensures (d - gone) - more == d - (gone + more)
  {
    var once, twice := IndexAfter(d - gone, IndexAfter(d, children, gone), more), IndexAfter(d, children, gone + more);
    forall p | p in once ensures once[p] == twice[p] {
    }
  }

  /** The index once an entry alone has left: its own row stays. */
  function Unlinked(children: Index, link: Link): Index {
    if link.parentId in children
    then children[link.parentId := children[link.parentId] - {link.linkId}] else children
  }

  /** A walk to an entry other than `root` enters it through an ID that the row of `root` lists besides it. */
  lemma {:induction false} RowThroughChild(d: Data, children: Index, root: LinkId, x: LinkId, n: nat)
    returns (c: LinkId)
    requires Indexed(d, children) && RowReachesIn(d, children, x, root, n) && x != root
    ensures c in ChildrenIn(Unlinked(children, d[root].link), root)
    ensures RowReaches(d - {root}, Unlinked(children, d[root].link), x, c)
    decreases n
  {
    var d1, rows := d - {root}, Unlinked(children, d[root].link);
    var p :| RowStep(d, children, p, x) && RowReachesIn(d, children, p, root, n - 1);
    if p == root {
      c := x;
      assert RowReachesIn(d1, rows, x, c, 0);
    } else {
      c := RowThroughChild(d, children, root, p, n - 1);
      assert RowStep(d1, rows, p, x);
      RowReachStep(d1, rows, p, x, c);
    }
  }

  /** A walk in a smaller cache, put behind a walk to its start. */
  lemma {:induction false} RowTransitive(d: Data, children: Index, x: LinkId, y: LinkId, root: LinkId, n: nat)
    requires RowReachesIn(d, children, x, y, n) && RowReaches(d, children, y, root)
    ensures RowReaches(d, children, x, root)
    decreases n
  {
    if x != y {
      var p :| RowStep(d, children, p, x) && RowReachesIn(d, children, p, y, n - 1);
      RowTransitive(d, children, p, y, root, n - 1);
      RowReachStep(d, children, p, x, root);
    }
  }

  lemma UnlinkedRows(d: Data, children: Index, root: LinkId, p: LinkId, x: LinkId)
    requires root in d && RowStep(d - {root}, Unlinked(children, d[root].link), p, x)
    ensures RowStep(d, children, p, x)
  {
  }

  lemma DroppedLast(d: Data, children: Index, root: LinkId, below: set<LinkId>)
    requires Indexed(d, children) && root in d && below <= d.Keys - {root}
    ensures Removed(d, children, {root} + below, (d - {root}) - below,
                    IndexAfter(d - {root}, Unlinked(children, d[root].link), below) - {root})
  {
    var stepwise := IndexAfter(d - {root}, Unlinked(children, d[root].link), below) - {root};
    var atOnce := IndexAfter(d, children, {root} + below);
    assert (d - {root}) - below == d - ({root} + below);
    forall p | p in stepwise ensures stepwise[p] == atOnce[p] {
    }
  }

  /** Removing an entry, then all that its row leads to, takes exactly what its rows lead to: the two maps
      afterwards, with the row of the entry dropped last. */
  lemma RowSubtreeThroughChildren(d: Data, children: Index, root: LinkId)
    requires Indexed(d, children) && root in d
    ensures var d1, rows := d - {root}, Unlinked(children, d[root].link);
            var below := RowReachingAny(d1, rows, ChildrenIn(rows, root));
            && {root} + below == RowSubtree(d, children, root)
            && Removed(d, children, RowSubtree(d, children, root), d1 - below, IndexAfter(d1, rows, below) - {root})
  {
    var d1, rows := d - {root}, Unlinked(children, d[root].link);
    var below := RowReachingAny(d1, rows, ChildrenIn(rows, root));
    assert RowReachesIn(d, children, root, root, 0);
    forall x | x in d1
      ensures x in below <==> x in RowSubtree(d, children, root)
    {
      if n: nat :| RowReachesIn(d, children, x, root, n) {
        var c := RowThroughChild(d, children, root, x, n);
      }
      if x in below {
        var c :| c in ChildrenIn(rows, root) && RowReaches(d1, rows, x, c);
        var n: nat :| RowReachesIn(d1, rows, x, c, n);
        forall p, y | RowStep(d1, rows, p, y) ensures RowStep(d, children, p, y) {
          UnlinkedRows(d, children, root, p, y);
        }
        RowMonotone(d, children, d1, rows, x, c, n);
        RowReachStep(d, children, root, c, root);
        RowTransitive(d, children, x, c, root, n);
      }
    }
    assert {root} + below == RowSubtree(d, children, root);
    DroppedLast(d, children, root, below);
  }

  lemma RowSetsAreCached(d: Data, children: Index, roots: set<LinkId>)
    ensures RowReachingAny(d, children, roots) <= d.Keys
  {
  }

  lemma ClosedRemoval(d: Data, children: Index, gone: set<LinkId>)
    requires Indexed(d, children) && gone <= d.Keys
    requires forall p, x | p in gone && RowStep(d, children, p, x) :: x in gone
    ensures Indexed(d - gone, IndexAfter(d, children, gone))
    ensures Exact(d, children) ==> Exact(d - gone, IndexAfter(d, children, gone))
  {
    forall x | x in d - gone ensures d[x].link.parentId !in gone {
      assert d[x].link.parentId in gone ==> RowStep(d, children, d[x].link.parentId, x);
    }
  }

  lemma RemovedIndexed(d: Data, children: Index, roots: set<LinkId>)
    requires Indexed(d, children)
    ensures var gone := RowReachingAny(d, children, roots);
            && Indexed(d - gone, IndexAfter(d, children, gone))
            && (Exact(d, children) ==> Exact(d - gone, IndexAfter(d, children, gone)))
  {
    hide *;
    RowsClosed(d, children, roots);
    RowSetsAreCached(d, children, roots);
    ClosedRemoval(d, children, RowReachingAny(d, children, roots));
  }

  // ---- rows and chains

  lemma {:induction false} ChainIsWalk(d: Data, children: Index, x: LinkId, root: LinkId, n: nat)
    requires Indexed(d, children) && ReachesIn(d, x, root, n)
    ensures RowReachesIn(d, children, x, root, n)
    decreases n
  {
    if x != root {
      ChainIsWalk(d, children, d[x].link.parentId, root, n - 1);
      assert RowStep(d, children, d[x].link.parentId, x);
    }
  }

  lemma {:induction false} WalkIsChain(d: Data, children: Index, x: LinkId, root: LinkId, n: nat)
    requires Exact(d, children) && RowReachesIn(d, children, x, root, n)
    ensures ReachesIn(d, x, root, n)
    decreases n
  {
    if x != root {
      var p :| RowStep(d, children, p, x) && RowReachesIn(d, children, p, root, n - 1);
      WalkIsChain(d, children, p, root, n - 1);
    }
  }

  /** Every chain of cached parents is a walk along the rows, so nothing whose chain leads to what is removed
      survives; and with an exact index there are no other walks. */
  lemma RowsCoverChains(d: Data, children: Index, root: LinkId)
    requires Indexed(d, children)
    ensures Subtree(d, root) <= RowSubtree(d, children, root)
    ensures Exact(d, children) ==> RowSubtree(d, children, root) == Subtree(d, root)
  {
    forall x | x in d
      ensures Reaches(d, x, root) ==> RowReaches(d, children, x, root)
      ensures Exact(d, children) && RowReaches(d, children, x, root) ==> Reaches(d, x, root)
    {
      if n: nat :| ReachesIn(d, x, root, n) {
        ChainIsWalk(d, children, x, root, n);
      }
      if Exact(d, children) {
        if n: nat :| RowReachesIn(d, children, x, root, n) {
          WalkIsChain(d, children, x, root, n);
        }
      }
    }
  }

  lemma RowsCoverAnyChain(d: Data, children: Index, roots: set<LinkId>)
    requires Indexed(d, children)
    ensures ReachingAny(d, roots) <= RowReachingAny(d, children, roots)
    ensures Exact(d, children) ==> RowReachingAny(d, children, roots) == ReachingAny(d, roots)
  {
    forall c ensures Subtree(d, c) <= RowSubtree(d, children, c)
      ensures Exact(d, children) ==> RowSubtree(d, children, c) == Subtree(d, c)
    {
      RowsCoverChains(d, children, c);
    }
    forall x | x in d
      ensures ReachesOne(d, x, roots) ==> RowReachesOne(d, children, x, roots)
      ensures Exact(d, children) && RowReachesOne(d, children, x, roots) ==> ReachesOne(d, x, roots)
    {
      if c :| c in roots && Reaches(d, x, c) {
        assert x in Subtree(d, c);
      }
      if c :| c in roots && RowReaches(d, children, x, c) {
        assert x in RowSubtree(d, children, c);
      }
    }
  }

  // ---- the steps of a removal

  lemma NothingRemoved(d: Data, children: Index)
    ensures Removed(d, children, RowReachingAny(d, children, {}), d, children)
    ensures forall root | root !in d :: RowSubtree(d, children, root) == {}
    ensures Removed(d, children, {}, d, children)
  {
    assert forall p | p in children :: IndexAfter(d, children, {})[p] == children[p];
    assert RowReachingAny(d, children, {}) == {};
  }

  lemma RemovedParts(d: Data, children: Index, gone: set<LinkId>, d': Data, children': Index)
    requires Removed(d, children, gone, d', children')
    ensures d' == d - gone && children' == IndexAfter(d, children, gone) && d'.Keys <= d.Keys
  {
  }

  lemma RemovedWhole(d: Data, children: Index, gone: set<LinkId>, d': Data, children': Index)
    requires d' == d - gone && children' == IndexAfter(d, children, gone)
    ensures Removed(d, children, gone, d', children')
  {
  }

  lemma RowSubtreeIsCached(d: Data, children: Index, root: LinkId)
    ensures RowSubtree(d, children, root) <= d.Keys
  {
  }

  /** One turn of the loop over the children: `done` are the IDs dealt with, `k` is the one removed now. */
  lemma RemovedOneMore(d: Data, children: Index, done: set<LinkId>, k: LinkId,
                       mid: Data, midRows: Index, now: Data, rows: Index)
    requires Removed(d, children, RowReachingAny(d, children, done), mid, midRows)
    requires Removed(mid, midRows, RowSubtree(mid, midRows, k), now, rows)
    ensures Removed(d, children, RowReachingAny(d, children, done + {k}), now, rows)
    ensures now.Keys <= mid.Keys
  {
    hide *;
    RemovedParts(d, children, RowReachingAny(d, children, done), mid, midRows);
    RemovedParts(mid, midRows, RowSubtree(mid, midRows, k), now, rows);
    RowSetsAreCached(d, children, done);
    RowSubtreeIsCached(mid, midRows, k);
    RowReachingOneMore(d, children, done, k);
    IndexAfterTwo(d, children, RowReachingAny(d, children, done), RowSubtree(mid, midRows, k));
    RemovedWhole(d, children, RowReachingAny(d, children, done + {k}), now, rows);
  }

  /** With all that a row lists removed, no entry left has its owner as parent, so the row may go. */
  lemma DropRow(d: Data, children: Index, root: LinkId)
    requires Indexed(d, children)
    ensures var gone := RowReachingAny(d, children, ChildrenIn(children, root));
            var rows := IndexAfter(d, children, gone) - {root};
            && Indexed(d - gone, rows)
            && (Exact(d, children) ==> Exact(d - gone, rows))
  {
    var kids := ChildrenIn(children, root);
    var gone := RowReachingAny(d, children, kids);
    RemovedIndexed(d, children, kids);
    forall x | x in d - gone ensures d[x].link.parentId != root {
      if d[x].link.parentId == root {
        assert x in kids && RowReachesIn(d, children, x, x, 0);
      }
    }
  }

  lemma UnlinkedIndexed(d: Data, children: Index, x: LinkId)
    requires Indexed(d, children) && x in d
    ensures Indexed(d - {x}, Unlinked(children, d[x].link))
    ensures Exact(d, children) ==> Exact(d - {x}, Unlinked(children, d[x].link))
  {
  }

  function Indexing(children: Index, link: Link): Index {
    children[link.parentId := ChildrenIn(children, link.parentId) + {link.linkId}]
  }

  /** An exact index stays exact under an insertion unless the ID was cached under another parent. */
  lemma InsertExact(data: Data, children: Index, linkId: LinkId, link: Link, kr: Option<KeyRing>)
    requires Exact(data, children) && link.linkId == linkId
    ensures Exact(data[linkId := Entry(link, kr)], Indexing(children, link)) <==>
            (linkId in data ==> data[linkId].link.parentId == link.parentId)
  {
    var data', children' := data[linkId := Entry(link, kr)], Indexing(children, link);
    if linkId in data && data[linkId].link.parentId != link.parentId {
      var p := data[linkId].link.parentId;
      assert p in children' && linkId in children'[p];
      assert data'[linkId].link.parentId != p;
    } else {
      assert Exact(data', children');
    }
  }

  /** `InsertOnMiss` is `getLink` run alone. `Insert` is its second half in a thread whose lookup missed
      earlier, so the ID may be present by now, under another parent. */
  datatype Operation =
    | InsertOnMiss(linkId: LinkId, link: Link)
    | Insert(linkId: LinkId, link: Link)
    | SetKeyRing(linkId: LinkId, kr: KeyRing)
    | Remove(linkId: LinkId, includingChildren: bool)
    | Clear

  class Cache {
    var data: Data
    var children: Index
    const enableCaching: bool

    ghost predicate Valid()
      reads this
    {
      Indexed(data, children)
    }

    ghost predicate ExactIndex()
      reads this
    {
      Exact(data, children)
    }

    constructor (enableCaching: bool)
      ensures ExactIndex() && data == map[] && children == map[]
      ensures this.enableCaching == enableCaching
    {
      data := map[];
      children := map[];
      this.enableCaching := enableCaching;
    }

    method Get(linkId: LinkId) returns (r: Option<Entry>)
      ensures r == if enableCaching && linkId in data then Some(data[linkId]) else None
    {
      if !enableCaching {
        return None;
      }
      if linkId in data {
        return Some(data[linkId]);
      }
      return None;
    }

    /** Two misses may insert one ID under two parents; the index then keeps the ID under both, and only
        the sequential use, where the ID is absent, stays exact. */
    method Insert(linkId: LinkId, link: Link, kr: Option<KeyRing>)
      requires Valid() && link.linkId == linkId
      modifies this
      ensures Valid()
      ensures data == if enableCaching then old(data)[linkId := Entry(link, kr)] else old(data)
      ensures old(ExactIndex()) ==>
                (ExactIndex() <==>
                 (enableCaching && linkId in old(data) ==> old(data)[linkId].link.parentId == link.parentId))
      ensures children == if enableCaching then Indexing(old(children), link) else old(children)
    {
      if !enableCaching {
        return;
      }
      data := data[linkId := Entry(link, kr)];
      if link.parentId in children {
        children := children[link.parentId := children[link.parentId] + {link.linkId}];
      } else {
        children := children[link.parentId := {link.linkId}];
      }
      assert ChildrenIn(children, link.parentId) == ChildrenIn(old(children), link.parentId) + {link.linkId};
      assert children == Indexing(old(children), link);
      if old(ExactIndex()) {
        InsertExact(old(data), old(children), linkId, link, kr);
      }
    }

    /** The keyring of a present entry, memoised in place. */
    method SetKeyRing(linkId: LinkId, kr: KeyRing)
      requires Valid() && linkId in data
      modifies this`data
      ensures Valid()
      ensures data == old(data)[linkId := old(data)[linkId].(kr := Some(kr))]
      ensures old(ExactIndex()) ==> ExactIndex()
    {
      data := data[linkId := data[linkId].(kr := Some(kr))];
    }

    /** Takes one entry out of both maps. Neither inconsistency branch is reachable: both are
        `assert false` here. */
    method Unlink(linkId: LinkId)
      requires Valid() && linkId in data
      modifies this
      ensures Valid() && (old(ExactIndex()) ==> ExactIndex())
      ensures data == old(data) - {linkId} && data.Keys < old(data).Keys
      ensures children == Unlinked(old(children), old(data)[linkId].link)
    {
      var link := data[linkId].link;
      assert linkId in data.Keys;
      UnlinkedIndexed(data, children, linkId);
      data := data - {linkId};
      if link.parentId in children {
        if link.linkId in children[link.parentId] {
          children := children[link.parentId := children[link.parentId] - {link.linkId}];
        } else {
          assert false;
        }
      } else {
        assert false;
      }
    }

    lemma CacheValid()
      requires Valid()
      ensures Indexed(data, children) && (ExactIndex() <==> Exact(data, children))
    {
    }

    /** The two maps afterwards, for every index in which each entry is listed under its own parent, whatever else
        the rows list. The measure is the set of entries, so the recursion ends even if cached parents or rows form
        a cycle. */
    method RemoveNoLock(linkId: LinkId, includingChildren: bool)
      requires Valid()
      modifies this
      ensures Valid() && (old(ExactIndex()) ==> ExactIndex())
      ensures linkId !in old(data) ==> data == old(data) && children == old(children)
      ensures linkId in old(data) && !includingChildren ==>
                data == old(data) - {linkId} && children == Unlinked(old(children), old(data)[linkId].link)
      ensures includingChildren ==>
                Removed(old(data), old(children), RowSubtree(old(data), old(children), linkId), data, children)
      decreases data.Keys, 0
    {
      hide *;
      ghost var d, rows := data, children;
      if linkId !in data {
        NothingRemoved(data, children);
        return;
      }
      CacheValid();
      Unlink(linkId);
      if includingChildren {
        RowSubtreeThroughChildren(d, rows, linkId);
        RemoveChildren(linkId);
      }
    }

    lemma ValidCache()
      requires Indexed(data, children)
      ensures Valid() && (ExactIndex() <==> Exact(data, children))
    {
    }

    lemma RowOf(rows: Index, linkId: LinkId)
      ensures ChildrenIn(rows, linkId) == if linkId in rows then rows[linkId] else {}
    {
    }

    /** The branch of the removal that descends, and drops the index row of the removed link. */
    method RemoveChildren(linkId: LinkId)
      requires Valid() && linkId !in data
      modifies this
      ensures Valid() && (old(ExactIndex()) ==> ExactIndex())
      ensures var gone := RowReachingAny(old(data), old(children), ChildrenIn(old(children), linkId));
              data == old(data) - gone && children == IndexAfter(old(data), old(children), gone) - {linkId}
      ensures linkId !in children
      decreases data.Keys, 2
    {
      hide *;
      ghost var d, rows := data, children;
      CacheValid();
      DropRow(d, rows, linkId);
      RowOf(children, linkId);
      if linkId in children {
        RemoveAll(children[linkId]);
      } else {
        NothingRemoved(data, children);
      }
      RemovedParts(d, rows, RowReachingAny(d, rows, ChildrenIn(rows, linkId)), data, children);
      children := children - {linkId};
      ValidCache();
    }

    /** The loop over the row of the removed link. Go's `for k := range data` walks the live row and skips the IDs that
        a deeper call has deleted from it; here the loop runs over the row as it was, and finds those IDs absent. */
    method RemoveAll(kids: set<LinkId>)
      requires Valid()
      modifies this
      ensures Valid() && (old(ExactIndex()) ==> ExactIndex())
      ensures Removed(old(data), old(children), RowReachingAny(old(data), old(children), kids), data, children)
      decreases data.Keys, 1
    {
      hide *;
      ghost var d, rows, exact := data, children, ExactIndex();
      var todo := kids;
      ghost var done: set<LinkId> := {};
      NothingRemoved(data, children);
      while todo != {}
        invariant todo + done == kids
        invariant Valid() && (exact ==> ExactIndex()) && data.Keys <= d.Keys
        invariant Removed(d, rows, RowReachingAny(d, rows, done), data, children)
        decreases |todo|
      {
        var k :| k in todo;
        ghost var mid, midRows := data, children;
        RemoveNoLock(k, true);
        RemovedOneMore(d, rows, done, k, mid, midRows, data, children);
        todo := todo - {k};
        done := done + {k};
      }
      assert done == kids;
    }

    /** The removal behind the caching switch, in terms of rows; with an exact index it takes the entries whose chain
        of cached parents leads to the named one, and in any case it leaves none of these. */
    method Remove(linkId: LinkId, includingChildren: bool)
      requires Valid()
      modifies this
      ensures Valid() && (old(ExactIndex()) ==> ExactIndex())
      ensures !enableCaching || linkId !in old(data) ==> data == old(data) && children == old(children)
      ensures enableCaching && linkId in old(data) && !includingChildren ==>
                data == old(data) - {linkId} && children == Unlinked(old(children), old(data)[linkId].link)
      ensures enableCaching && includingChildren ==>
                Removed(old(data), old(children), RowSubtree(old(data), old(children), linkId), data, children)
      ensures enableCaching && includingChildren ==> Subtree(old(data), linkId) !! data.Keys
      ensures enableCaching && includingChildren && old(ExactIndex())
              ==> data == old(data) - Subtree(old(data), linkId)
    {
      if !enableCaching {
        return;
      }
      RowsCoverChains(data, children, linkId);
      RemoveNoLock(linkId, includingChildren);
    }

    method Clear()
      requires Valid()
      modifies this
      ensures Valid() && (old(ExactIndex()) ==> ExactIndex())
      ensures data == if enableCaching then map[] else old(data)
      ensures children == if enableCaching then map[] else old(children)
    {
      if !enableCaching {
        return;
      }
      data := map[];
      children := map[];
    }

    /** The most general client: any sequence of atomic operations, in whatever order threads issue them. */
    method Run(ops: seq<Operation>)
      requires Valid()
      requires forall op | op in ops && (op.Insert? || op.InsertOnMiss?) :: op.link.linkId == op.linkId
      modifies this
      ensures Valid()
      ensures old(ExactIndex()) && (forall op | op in ops :: !op.Insert?) ==> ExactIndex()
      ensures !enableCaching && old(data) == map[] ==> data == map[]
    {
      for i := 0 to |ops|
        invariant Valid()
        invariant old(ExactIndex()) && (forall op | op in ops :: !op.Insert?) ==> ExactIndex()
        invariant !enableCaching && old(data) == map[] ==> data == map[]
      {
        assert ops[i] in ops;
        match ops[i] {
          case InsertOnMiss(linkId, link) =>
            var hit := Get(linkId);
            if hit.None? {
              Insert(linkId, link, None);
            }
          case Insert(linkId, link) => Insert(linkId, link, None);
          case SetKeyRing(linkId, kr) =>
            if linkId in data {
              SetKeyRing(linkId, kr);
            }
          case Remove(linkId, includingChildren) => Remove(linkId, includingChildren);
          case Clear => Clear();
        }
      }
    }
  }
}
