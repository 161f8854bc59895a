/** The recursive listing and the recursive search, against one enumeration of the whole tree. */
module Traversal {
  import opened Wrappers
  import opened Crypto
  import opened LinkTree

  /** The order in which the server lists the children of each link. */
  type Listing = map<LinkId, seq<LinkId>>

  ghost predicate ListingOf(t: Tree, l: Listing) {
    && t.Keys == l.Keys
    && forall id, k | id in l && k in l[id] :: k in t && t[k].parentId == id
  }

  /** No child is missing from the row of its parent. */
  ghost predicate Complete(t: Tree, l: Listing) {
    forall k | k in t && t[k].parentId in l :: k in l[t[k].parentId]
  }

  ghost predicate Distinct<T>(s: seq<T>) {
    forall i, j | 0 <= i < j < |s| :: s[i] != s[j]
  }

  /** No child is listed twice. */
  ghost predicate NoRepeats(l: Listing) {
    forall id | id in l :: Distinct(l[id])
  }

  // ---- going down ends

  ghost function Ranks(t: Tree): set<nat>
    requires Acyclic(t)
  {
    set id | id in t :: RankOf(t)[id]
  }

  /** Falls from parent to child. */
  ghost function Height(t: Tree, id: LinkId): nat
    requires Acyclic(t) && id in t
  {
    assert RankOf(t)[id] in Ranks(t);
    MaxOf(Ranks(t)) - RankOf(t)[id]
  }

  function Last(chain: seq<LinkId>): LinkId
    requires chain != []
  {
    chain[|chain| - 1]
  }

  /** `kids` are children of the node the chain leads to. */
  ghost predicate Listable(t: Tree, chain: seq<LinkId>, kids: seq<LinkId>) {
    chain != [] && Last(chain) in t && forall k | k in kids :: k in t && t[k].parentId == Last(chain)
  }

  // ---- every node below a start, without pruning

  /** A node is given by the chain of IDs that leads to it. Pre-order. */
  function PreOrder(t: Tree, l: Listing, chain: seq<LinkId>): (r: seq<seq<LinkId>>)
    requires Acyclic(t) && ListingOf(t, l)
    requires chain != [] && Last(chain) in t
    decreases Height(t, Last(chain)), 1, 0
  {
    [chain] + PreOrderBelow(t, l, chain, l[Last(chain)])
  }

  function PreOrderBelow(t: Tree, l: Listing, chain: seq<LinkId>, kids: seq<LinkId>): seq<seq<LinkId>>
    requires Acyclic(t) && ListingOf(t, l)
    requires chain != [] && Last(chain) in t
    requires forall k | k in kids :: k in t && t[k].parentId == Last(chain)
    decreases Height(t, Last(chain)), 0, |kids|
  {
    if kids == [] then []
    else
      assert kids[0] in kids;
      assert Last(chain + [kids[0]]) == kids[0];
      PreOrder(t, l, chain + [kids[0]]) + PreOrderBelow(t, l, chain, kids[1..])
  }

  // ---- the enumeration and the tree

  /** The chain of parents from `start` down to a node of its subtree. */
  ghost function ChainTo(t: Tree, start: LinkId, id: LinkId): (c: seq<LinkId>)
    requires Acyclic(t) && InSubtree(t, start, id)
    ensures c != [] && Last(c) == id
    decreases Depth(t, id)
  {
    if id == start then [start] else ChainTo(t, start, t[id].parentId) + [id]
  }

  /** Each ID of the chain is the parent of the next. */
  ghost predicate Descending(t: Tree, c: seq<LinkId>) {
    && c != []
    && (forall i | 0 <= i < |c| :: c[i] in t)
    && (forall i | 0 < i < |c| :: t[c[i]].parentId == c[i - 1])
  }

  lemma {:induction false} DeeperAlong(t: Tree, c: seq<LinkId>)
    requires Acyclic(t) && Descending(t, c)
    ensures |c| > 1 ==> Depth(t, c[0]) < Depth(t, Last(c))
    decreases |c|
  {
    if |c| > 1 {
      DeeperAlong(t, c[..|c| - 1]);
    }
  }

  /** There is one such chain to each node. */
  lemma {:induction false} DescendingIsChainTo(t: Tree, c: seq<LinkId>)
    requires Acyclic(t) && Descending(t, c)
    ensures InSubtree(t, c[0], Last(c)) && c == ChainTo(t, c[0], Last(c))
    decreases |c|
  {
    DeeperAlong(t, c);
    if |c| > 1 {
      DescendingIsChainTo(t, c[..|c| - 1]);
      assert c == c[..|c| - 1] + [Last(c)];
    }
  }

  /** What is enumerated extends the chain it is enumerated from, downwards. */
  lemma {:induction false} PreOrderExtends(t: Tree, l: Listing, chain: seq<LinkId>, c: seq<LinkId>)
    requires Acyclic(t) && ListingOf(t, l) && Descending(t, chain)
    requires c in PreOrder(t, l, chain)
    ensures chain <= c && Descending(t, c)
    decreases Height(t, Last(chain)), 1, 0
  {
    if c != chain {
      assert c in PreOrderBelow(t, l, chain, l[Last(chain)]);
      BelowExtends(t, l, chain, l[Last(chain)], c);
    }
  }

  lemma {:induction false} BelowExtends(t: Tree, l: Listing, chain: seq<LinkId>, kids: seq<LinkId>, c: seq<LinkId>)
    requires Acyclic(t) && ListingOf(t, l) && Descending(t, chain) && Listable(t, chain, kids)
    requires c in PreOrderBelow(t, l, chain, kids)
    ensures chain < c && c[|chain|] in kids && Descending(t, c)
    decreases Height(t, Last(chain)), 0, |kids|
  {
    assert kids[0] in kids;
    var longer := chain + [kids[0]];
    assert Last(longer) == kids[0];
    if c in PreOrder(t, l, longer) {
      PreOrderExtends(t, l, longer, c);
      assert c[|chain|] == longer[|chain|];
    } else {
      BelowExtends(t, l, chain, kids[1..], c);
    }
  }

  lemma {:induction false} OwnChild(t: Tree, l: Listing, chain: seq<LinkId>, kids: seq<LinkId>, k: LinkId)
    requires Acyclic(t) && ListingOf(t, l) && Listable(t, chain, kids) && k in kids
    ensures chain + [k] in PreOrderBelow(t, l, chain, kids)
    decreases |kids|
  {
    assert kids[0] in kids && Last(chain + [kids[0]]) == kids[0];
    if k == kids[0] {
      assert PreOrder(t, l, chain + [k])[0] == chain + [k];
    } else {
      OwnChild(t, l, chain, kids[1..], k);
    }
  }

  /** Below an enumerated node, its listed children are enumerated too. */
  lemma {:induction false} ChildEnumerated(t: Tree, l: Listing, chain: seq<LinkId>, c: seq<LinkId>, k: LinkId)
    requires Acyclic(t) && ListingOf(t, l) && Descending(t, chain)
    requires c in PreOrder(t, l, chain) && c != [] && Last(c) in t && k in l[Last(c)]
    ensures c + [k] in PreOrder(t, l, chain)
    decreases Height(t, Last(chain)), 1, 0
  {
    var kids := l[Last(chain)];
    if c == chain {
      OwnChild(t, l, chain, kids, k);
    } else {
      assert c in PreOrderBelow(t, l, chain, kids);
      ChildEnumeratedBelow(t, l, chain, kids, c, k);
    }
  }

  lemma {:induction false} ChildEnumeratedBelow(t: Tree, l: Listing, chain: seq<LinkId>, kids: seq<LinkId>,
                                                c: seq<LinkId>, k: LinkId)
    requires Acyclic(t) && ListingOf(t, l) && Descending(t, chain) && Listable(t, chain, kids)
    requires c in PreOrderBelow(t, l, chain, kids) && c != [] && Last(c) in t && k in l[Last(c)]
    ensures c + [k] in PreOrderBelow(t, l, chain, kids)
    decreases Height(t, Last(chain)), 0, |kids|
  {
    assert kids[0] in kids;
    var longer := chain + [kids[0]];
    assert Last(longer) == kids[0];
    if c in PreOrder(t, l, longer) {
      ChildEnumerated(t, l, longer, c, k);
    } else {
      ChildEnumeratedBelow(t, l, chain, kids[1..], c, k);
    }
  }

  lemma {:induction false} ChainEnumerated(t: Tree, l: Listing, start: LinkId, id: LinkId)
    requires Acyclic(t) && ListingOf(t, l) && Complete(t, l) && start in t && InSubtree(t, start, id)
    ensures ChainTo(t, start, id) in PreOrder(t, l, [start])
    decreases Depth(t, id)
  {
    if id == start {
      assert PreOrder(t, l, [start])[0] == [start];
    } else {
      var p := t[id].parentId;
      ChainEnumerated(t, l, start, p);
      assert p in t && id in l[p];
      ChildEnumerated(t, l, [start], ChainTo(t, start, p), id);
    }
  }

  /** From a complete listing, what is enumerated is the subtree of the start: one chain to each of its nodes. */
  lemma EnumeratesSubtree(t: Tree, l: Listing, start: LinkId, c: seq<LinkId>)
    requires Acyclic(t) && ListingOf(t, l) && Complete(t, l) && start in t
    ensures c in PreOrder(t, l, [start]) <==> c != [] && InSubtree(t, start, Last(c)) && c == ChainTo(t, start, Last(c))
  {
    if c in PreOrder(t, l, [start]) {
      PreOrderExtends(t, l, [start], c);
      assert c[0] == [start][0];
      DescendingIsChainTo(t, c);
    }
    if c != [] && InSubtree(t, start, Last(c)) && c == ChainTo(t, start, Last(c)) {
      ChainEnumerated(t, l, start, Last(c));
    }
  }

  lemma DistinctAppend<T>(a: seq<T>, b: seq<T>)
    requires Distinct(a) && Distinct(b) && forall x | x in a :: x !in b
    ensures Distinct(a + b)
  {
    forall i, j | 0 <= i < j < |a + b| ensures (a + b)[i] != (a + b)[j] {
      if i < |a| <= j {
        assert a[i] in a && b[j - |a|] in b;
      }
    }
  }

  /** If no row repeats an ID, no chain is enumerated twice. */
  lemma {:induction false} PreOrderDistinct(t: Tree, l: Listing, chain: seq<LinkId>)
    requires Acyclic(t) && ListingOf(t, l) && NoRepeats(l) && Descending(t, chain)
    ensures Distinct(PreOrder(t, l, chain))
    decreases Height(t, Last(chain)), 1, 0
  {
    var kids := l[Last(chain)];
    BelowDistinct(t, l, chain, kids);
    if chain in PreOrderBelow(t, l, chain, kids) {
      BelowExtends(t, l, chain, kids, chain);
      assert false;
    }
    DistinctAppend([chain], PreOrderBelow(t, l, chain, kids));
  }

  lemma {:induction false} BelowDistinct(t: Tree, l: Listing, chain: seq<LinkId>, kids: seq<LinkId>)
    requires Acyclic(t) && ListingOf(t, l) && NoRepeats(l)
    requires Descending(t, chain) && Listable(t, chain, kids) && Distinct(kids)
    ensures Distinct(PreOrderBelow(t, l, chain, kids))
    decreases Height(t, Last(chain)), 0, |kids|
  {
    if kids != [] {
      assert kids[0] in kids;
      var longer := chain + [kids[0]];
      assert Last(longer) == kids[0];
      PreOrderDistinct(t, l, longer);
      BelowDistinct(t, l, chain, kids[1..]);
      forall c | c in PreOrder(t, l, longer) ensures c !in PreOrderBelow(t, l, chain, kids[1..]) {
        PreOrderExtends(t, l, longer, c);
        assert c[|chain|] == longer[|chain|] == kids[0];
        if c in PreOrderBelow(t, l, chain, kids[1..]) {
          BelowExtends(t, l, chain, kids[1..], c);
        }
      }
      DistinctAppend(PreOrder(t, l, longer), PreOrderBelow(t, l, chain, kids[1..]));
    }
  }

  ghost predicate PartsAt(l: Listing, c: seq<LinkId>, d: seq<LinkId>, n: nat, a: nat, b: nat) {
    && 0 < n < |c| && n < |d| && c[..n] == d[..n] && c[n - 1] in l
    && a < b < |l[c[n - 1]]| && c[n] == l[c[n - 1]][a] && d[n] == l[c[n - 1]][b]
  }

  /** `c` comes before `d` in pre-order: above it, or below a sibling that is listed earlier. */
  ghost predicate Before(l: Listing, c: seq<LinkId>, d: seq<LinkId>) {
    c < d || exists n: nat, a: nat, b: nat :: PartsAt(l, c, d, n, a, b)
  }

  ghost predicate Ordered(l: Listing, chains: seq<seq<LinkId>>) {
    forall i, j | 0 <= i < j < |chains| :: Before(l, chains[i], chains[j])
  }

  /** If no row repeats an ID, no two chains come before each other. */
  lemma NeverBothBefore(l: Listing, c: seq<LinkId>, d: seq<LinkId>)
    requires NoRepeats(l) && Before(l, c, d)
    ensures !Before(l, d, c)
  {
  }

  lemma OrderedAppend(l: Listing, a: seq<seq<LinkId>>, b: seq<seq<LinkId>>)
    requires Ordered(l, a) && Ordered(l, b) && forall c, d | c in a && d in b :: Before(l, c, d)
    ensures Ordered(l, a + b)
  {
    forall i, j | 0 <= i < j < |a + b| ensures Before(l, (a + b)[i], (a + b)[j]) {
      if i < |a| <= j {
        assert a[i] in a && b[j - |a|] in b;
      }
    }
  }

  lemma NoneOrdered(l: Listing)
    ensures Ordered(l, [])
  {
  }

  lemma SiblingsBefore(t: Tree, l: Listing, chain: seq<LinkId>, kids: seq<LinkId>, m: nat,
                       c: seq<LinkId>, d: seq<LinkId>)
    requires Acyclic(t) && ListingOf(t, l) && Descending(t, chain) && Listable(t, chain, kids)
    requires m <= |l[Last(chain)]| && kids == l[Last(chain)][m..] && kids != []
    requires Last(chain + [kids[0]]) in t
    requires c in PreOrder(t, l, chain + [kids[0]]) && d in PreOrderBelow(t, l, chain, kids[1..])
    ensures Before(l, c, d)
  {
    hide PreOrder, PreOrderBelow;
    var longer := chain + [kids[0]];
    assert kids[0] in kids && Last(longer) == kids[0];
    PreOrderExtends(t, l, longer, c);
    BelowExtends(t, l, chain, kids[1..], d);
    var i :| 0 <= i < |kids[1..]| && kids[1..][i] == d[|chain|];
    assert c[|chain|] == longer[|chain|] && c[..|chain|] == chain == d[..|chain|];
    assert c[|chain| - 1] == chain[|chain| - 1];
    assert PartsAt(l, c, d, |chain|, m, m + 1 + i);
  }

  /** The enumeration is a pre-order. */
  lemma {:induction false} PreOrderOrdered(t: Tree, l: Listing, chain: seq<LinkId>)
    requires Acyclic(t) && ListingOf(t, l) && Descending(t, chain)
    ensures Ordered(l, PreOrder(t, l, chain))
    decreases Height(t, Last(chain)), 1, 0
  {
    var kids := l[Last(chain)];
    BelowOrdered(t, l, chain, kids, 0);
    forall c, d | c in [chain] && d in PreOrderBelow(t, l, chain, kids) ensures Before(l, c, d) {
      BelowExtends(t, l, chain, kids, d);
    }
    OrderedAppend(l, [chain], PreOrderBelow(t, l, chain, kids));
  }

  lemma {:induction false} BelowOrdered(t: Tree, l: Listing, chain: seq<LinkId>, kids: seq<LinkId>, m: nat)
    requires Acyclic(t) && ListingOf(t, l) && Descending(t, chain) && Listable(t, chain, kids)
    requires m <= |l[Last(chain)]| && kids == l[Last(chain)][m..]
    ensures Ordered(l, PreOrderBelow(t, l, chain, kids))
    decreases Height(t, Last(chain)), 0, |kids|
  {
    hide Ordered, Before;
    NoneOrdered(l);
    if kids != [] {
      assert kids[0] in kids;
      var longer := chain + [kids[0]];
      assert Last(longer) == kids[0];
      PreOrderOrdered(t, l, longer);
      BelowOrdered(t, l, chain, kids[1..], m + 1);
      forall c, d | c in PreOrder(t, l, longer) && d in PreOrderBelow(t, l, chain, kids[1..]) ensures Before(l, c, d) {
        SiblingsBefore(t, l, chain, kids, m, c, d);
      }
      OrderedAppend(l, PreOrder(t, l, longer), PreOrderBelow(t, l, chain, kids[1..]));
    }
  }

  predicate Passes(state: LinkState, orDraft: bool) {
    state == Active || (orDraft && state == Draft)
  }

  /** The depth bound; the start itself is always within it. */
  predicate WithinBound(depth: nat, maxDepth: int) {
    depth == 0 || maxDepth == -1 || depth <= maxDepth
  }

  /** Every link of the chain passes the state filter, all but the last are folders, and the bound is kept. */
  predicate Visible(t: Tree, chain: seq<LinkId>, orDraft: bool, maxDepth: int) {
    && chain != []
    && WithinBound(|chain| - 1, maxDepth)
    && (forall i | 0 <= i < |chain| :: chain[i] in t && Passes(t[chain[i]].state, orDraft))
    && (forall i | 0 <= i < |chain| - 1 :: t[chain[i]].kind == Folder)
  }

  function Shown(t: Tree, chains: seq<seq<LinkId>>, orDraft: bool, maxDepth: int): seq<seq<LinkId>> {
    if chains == [] then []
    else if Visible(t, chains[0], orDraft, maxDepth) then [chains[0]] + Shown(t, chains[1..], orDraft, maxDepth)
    else Shown(t, chains[1..], orDraft, maxDepth)
  }

  /** A node of the subtree of `start` all whose links down from there are visible. */
  ghost predicate VisibleNode(t: Tree, start: LinkId, id: LinkId, orDraft: bool, maxDepth: int)
    requires Acyclic(t)
  {
    InSubtree(t, start, id) && Visible(t, ChainTo(t, start, id), orDraft, maxDepth)
  }

  /** How many steps a node lies below `start`. */
  ghost function StepsDown(t: Tree, start: LinkId, id: LinkId): nat
    requires Acyclic(t) && InSubtree(t, start, id)
    decreases Depth(t, id)
  {
    if id == start then 0 else StepsDown(t, start, t[id].parentId) + 1
  }

  /** What is to be shown, in terms of the tree alone: the node and every link above it up to `start` are active, or a
      draft where drafts count too; those above it are folders; and it lies within the depth bound, if there is one. */
  ghost predicate Shows(t: Tree, start: LinkId, id: LinkId, orDraft: bool, maxDepth: int): (shows: bool)
    requires Acyclic(t)
    ensures shows ==> InSubtree(t, start, id) && id in t
  {
    && InSubtree(t, start, id)
    && (forall x | InSubtree(t, start, x) && InSubtree(t, x, id) ::
          && (t[x].state == Active || (t[x].state == Draft && orDraft))
          && (x != id ==> t[x].kind == Folder))
    && (maxDepth == -1 || id == start || StepsDown(t, start, id) <= maxDepth)
  }

  lemma {:induction false} DeeperInSubtree(t: Tree, a: LinkId, b: LinkId)
    requires Acyclic(t) && InSubtree(t, a, b)
    ensures a in t && b in t && Depth(t, a) <= Depth(t, b) && (Depth(t, a) == Depth(t, b) ==> a == b)
    decreases Depth(t, b)
  {
    if a != b {
      DeeperInSubtree(t, a, t[b].parentId);
    }
  }

  /** The chain holds exactly what lies between its ends, its length is the number of steps and one, and its last ID
      comes once. */
  lemma {:induction false} OnTheWay(t: Tree, start: LinkId, id: LinkId)
    requires Acyclic(t) && InSubtree(t, start, id)
    ensures var c := ChainTo(t, start, id);
            && Descending(t, c) && c[0] == start && |c| == StepsDown(t, start, id) + 1
            && (forall x :: x in c <==> InSubtree(t, start, x) && InSubtree(t, x, id))
            && (forall i | 0 <= i < |c| - 1 :: c[i] != id)
    decreases Depth(t, id)
  {
    if id == start {
      forall x ensures x in [start] <==> InSubtree(t, start, x) && InSubtree(t, x, start) {
        if InSubtree(t, start, x) && InSubtree(t, x, start) {
          DeeperInSubtree(t, start, x);
          DeeperInSubtree(t, x, start);
        }
      }
    } else {
      var p := t[id].parentId;
      OnTheWay(t, start, p);
      var shorter := ChainTo(t, start, p);
      forall i | 0 <= i < |shorter| ensures shorter[i] != id {
        assert shorter[i] in shorter;
        DeeperInSubtree(t, shorter[i], p);
      }
      forall x ensures x in shorter + [id] <==> InSubtree(t, start, x) && InSubtree(t, x, id) {
        assert x in shorter + [id] <==> x in shorter || x == id;
      }
    }
  }

  /** The filters of the traversals show exactly this. */
  lemma VisibleIff(t: Tree, start: LinkId, id: LinkId, orDraft: bool, maxDepth: int)
    requires Acyclic(t)
    ensures VisibleNode(t, start, id, orDraft, maxDepth) <==> Shows(t, start, id, orDraft, maxDepth)
  {
    if InSubtree(t, start, id) {
      OnTheWay(t, start, id);
      var c := ChainTo(t, start, id);
      assert id == start <==> |c| == 1;
      if VisibleNode(t, start, id, orDraft, maxDepth) {
        forall x | InSubtree(t, start, x) && InSubtree(t, x, id)
          ensures (t[x].state == Active || (t[x].state == Draft && orDraft)) && (x != id ==> t[x].kind == Folder)
        {
          var i :| 0 <= i < |c| && c[i] == x;
        }
      }
      if Shows(t, start, id, orDraft, maxDepth) {
        forall i | 0 <= i < |c|
          ensures c[i] in t && Passes(t[c[i]].state, orDraft) && (i < |c| - 1 ==> t[c[i]].kind == Folder)
        {
          assert c[i] in c;
        }
      }
    }
  }

  lemma {:induction false} ShownIff(t: Tree, chains: seq<seq<LinkId>>, orDraft: bool, maxDepth: int, c: seq<LinkId>)
    ensures c in Shown(t, chains, orDraft, maxDepth) <==> c in chains && Visible(t, c, orDraft, maxDepth)
  {
    if chains != [] {
      ShownIff(t, chains[1..], orDraft, maxDepth, c);
    }
  }

  lemma {:induction false} ShownDistinct(t: Tree, chains: seq<seq<LinkId>>, orDraft: bool, maxDepth: int)
    requires Distinct(chains)
    ensures Distinct(Shown(t, chains, orDraft, maxDepth))
  {
    if chains != [] {
      ShownDistinct(t, chains[1..], orDraft, maxDepth);
      ShownIff(t, chains[1..], orDraft, maxDepth, chains[0]);
      DistinctAppend([chains[0]], Shown(t, chains[1..], orDraft, maxDepth));
    }
  }

  lemma {:induction false} ShownOrdered(t: Tree, l: Listing, chains: seq<seq<LinkId>>, orDraft: bool, maxDepth: int)
    requires Ordered(l, chains)
    ensures Ordered(l, Shown(t, chains, orDraft, maxDepth))
  {
    if chains != [] {
      ShownOrdered(t, l, chains[1..], orDraft, maxDepth);
      var rest := Shown(t, chains[1..], orDraft, maxDepth);
      forall c, d | c in [chains[0]] && d in rest ensures Before(l, c, d) {
        ShownIff(t, chains[1..], orDraft, maxDepth, d);
        var j :| 0 <= j < |chains[1..]| && chains[1..][j] == d;
        assert chains[j + 1] == d;
      }
      OrderedAppend(l, [chains[0]], rest);
    }
  }

  /** The visible part of the enumeration, in terms of the tree. */
  lemma ShownIsVisibleNodes(t: Tree, l: Listing, start: LinkId, orDraft: bool, maxDepth: int, c: seq<LinkId>)
    requires Acyclic(t) && ListingOf(t, l) && Complete(t, l) && start in t
    ensures c in Shown(t, PreOrder(t, l, [start]), orDraft, maxDepth) <==>
            c != [] && VisibleNode(t, start, Last(c), orDraft, maxDepth) && c == ChainTo(t, start, Last(c))
  {
    ShownIff(t, PreOrder(t, l, [start]), orDraft, maxDepth, c);
    EnumeratesSubtree(t, l, start, c);
  }

  lemma {:induction false} ShownAppend(t: Tree, a: seq<seq<LinkId>>, b: seq<seq<LinkId>>, orDraft: bool, maxDepth: int)
    ensures Shown(t, a + b, orDraft, maxDepth) == Shown(t, a, orDraft, maxDepth) + Shown(t, b, orDraft, maxDepth)
  {
    if a == [] {
      assert a + b == b;
    } else {
      ShownAppend(t, a[1..], b, orDraft, maxDepth);
      assert (a + b)[0] == a[0] && (a + b)[1..] == a[1..] + b;
    }
  }

  lemma {:induction false} BelowAppend(t: Tree, l: Listing, chain: seq<LinkId>, a: seq<LinkId>, b: seq<LinkId>)
    requires Acyclic(t) && ListingOf(t, l)
    requires chain != [] && Last(chain) in t
    requires forall k | k in a + b :: k in t && t[k].parentId == Last(chain)
    ensures (forall k | k in a || k in b :: k in t && t[k].parentId == Last(chain)) &&
            PreOrderBelow(t, l, chain, a + b) == PreOrderBelow(t, l, chain, a) + PreOrderBelow(t, l, chain, b)
  {
    assert forall k | k in a || k in b :: k in a + b;
    if a == [] {
      assert a + b == b;
    } else {
      assert (a + b)[0] == a[0] && (a + b)[1..] == a[1..] + b;
      BelowAppend(t, l, chain, a[1..], b);
    }
  }

  /** Extending a chain that is not visible makes none that is. */
  lemma ExtensionHidden(t: Tree, chain: seq<LinkId>, k: LinkId, orDraft: bool, maxDepth: int)
    requires chain != []
    requires !Visible(t, chain, orDraft, maxDepth) || t[Last(chain)].kind == File || !WithinBound(|chain|, maxDepth)
    ensures !Visible(t, chain + [k], orDraft, maxDepth)
  {
    var longer := chain + [k];
    assert forall i | 0 <= i < |chain| :: longer[i] == chain[i];
    assert longer[|chain| - 1] == Last(chain);
  }

  /** What a pruned traversal skips holds nothing visible. */
  lemma {:induction false} HiddenBelow(t: Tree, l: Listing, chain: seq<LinkId>, kids: seq<LinkId>, orDraft: bool,
        maxDepth: int)
    requires Acyclic(t) && ListingOf(t, l)
    requires chain != [] && Last(chain) in t
    requires forall k | k in kids :: k in t && t[k].parentId == Last(chain)
    requires !Visible(t, chain, orDraft, maxDepth) || t[Last(chain)].kind == File || !WithinBound(|chain|, maxDepth)
    ensures Shown(t, PreOrderBelow(t, l, chain, kids), orDraft, maxDepth) == []
    decreases Height(t, Last(chain)), |kids|
  {
    hide Visible, WithinBound;
    if kids != [] {
      assert kids[0] in kids;
      var longer := chain + [kids[0]];
      assert Last(longer) == kids[0];
      ExtensionHidden(t, chain, kids[0], orDraft, maxDepth);
      HiddenBelow(t, l, longer, l[kids[0]], orDraft, maxDepth);
      HiddenBelow(t, l, chain, kids[1..], orDraft, maxDepth);
      ShownAppend(t, PreOrder(t, l, longer), PreOrderBelow(t, l, chain, kids[1..]), orDraft, maxDepth);
    }
  }

  // ---- the listing

  predicate Descends(link: Link, depth: nat, maxDepth: int) {
    (maxDepth == -1 || depth < maxDepth) && link.kind == Folder
  }

  function NameOr(acct: Account, t: Tree, id: LinkId): string
    requires Acyclic(t)
  {
    var name := NameOf(acct, t, id);
    if name.Ok? then name.value else ""
  }

  /** The path of a node: the names along its chain, the start's only if it is included. */
  function PathOf(acct: Account, t: Tree, chain: seq<LinkId>, excludeRoot: bool): string
    requires Acyclic(t) && chain != []
  {
    if |chain| == 1 then (if excludeRoot then "" else "/" + NameOr(acct, t, chain[0]))
    else PathOf(acct, t, chain[..|chain| - 1], excludeRoot) + "/" + NameOr(acct, t, Last(chain))
  }

  datatype Listed = Listed(paths: seq<string>, error: Option<Error>)

  /** What listing one visible node contributes: its path, unless its name does not read; and the keyring its
      children need, unless it does not open. Names and keyrings are those of the bottom-up resolver. */
  function ListNode(acct: Account, t: Tree, l: Listing, chain: seq<LinkId>, maxDepth: int, excludeRoot: bool): Listed
    requires Acyclic(t) && ListingOf(t, l) && chain != [] && Last(chain) in t
  {
    var id := Last(chain);
    var hidden := excludeRoot && |chain| == 1;
    var name := NameOf(acct, t, id);
    if !hidden && name.Err? then Listed([], Some(name.error))
    else
      var paths := if hidden then [] else [PathOf(acct, t, chain, excludeRoot)];
      var kr := ResolveById(acct, t, id);
      if Descends(t[id], |chain| - 1, maxDepth) && l[id] != [] && kr.Err? then Listed(paths, Some(kr.error))
      else Listed(paths, None)
  }

  ghost predicate InTree(t: Tree, chains: seq<seq<LinkId>>) {
    forall i | 0 <= i < |chains| :: chains[i] != [] && Last(chains[i]) in t
  }

  /** The second part is reached only if the first met no error. */
  function Then(x: Listed, y: Listed): Listed {
    if x.error.Some? then x else Listed(x.paths + y.paths, y.error)
  }

  lemma ThenAssociates(x: Listed, y: Listed, z: Listed)
    ensures Then(Then(x, y), z) == Then(x, Then(y, z))
  {
    assert (x.paths + y.paths) + z.paths == x.paths + (y.paths + z.paths);
  }

  /** A linear pass over nodes, up to the first error. */
  function ListScan(acct: Account, t: Tree, l: Listing, chains: seq<seq<LinkId>>, maxDepth: int,
        excludeRoot: bool): Listed
    requires Acyclic(t) && ListingOf(t, l) && InTree(t, chains)
  {
    if chains == [] then Listed([], None)
    else
      assert chains[0] in chains;
      Then(ListNode(acct, t, l, chains[0], maxDepth, excludeRoot),
           ListScan(acct, t, l, chains[1..], maxDepth, excludeRoot))
  }

  lemma InTreeTail(t: Tree, chains: seq<seq<LinkId>>)
    requires InTree(t, chains) && chains != []
    ensures chains[0] != [] && Last(chains[0]) in t && InTree(t, chains[1..])
  {
  }

  lemma ListScanNone(acct: Account, t: Tree, l: Listing, maxDepth: int, excludeRoot: bool)
    requires Acyclic(t) && ListingOf(t, l)
    ensures InTree(t, []) && ListScan(acct, t, l, [], maxDepth, excludeRoot) == Listed([], None)
  {
  }

  lemma ThenNothing(y: Listed)
    ensures Then(Listed([], None), y) == y
  {
    assert [] + y.paths == y.paths;
  }

  lemma ListScanCons(acct: Account, t: Tree, l: Listing, c: seq<LinkId>, rest: seq<seq<LinkId>>, maxDepth: int,
        excludeRoot: bool)
    requires Acyclic(t) && ListingOf(t, l) && c != [] && Last(c) in t && InTree(t, rest)
    ensures InTree(t, [c] + rest)
    ensures ListScan(acct, t, l, [c] + rest, maxDepth, excludeRoot)
            == Then(ListNode(acct, t, l, c, maxDepth, excludeRoot), ListScan(acct, t, l, rest, maxDepth, excludeRoot))
  {
    assert ([c] + rest)[0] == c && ([c] + rest)[1..] == rest;
  }

  lemma {:induction false} ListScanAppend(acct: Account, t: Tree, l: Listing, a: seq<seq<LinkId>>, b: seq<seq<LinkId>>,
                                          maxDepth: int, excludeRoot: bool)
    requires Acyclic(t) && ListingOf(t, l) && InTree(t, a) && InTree(t, b)
    ensures InTree(t, a + b)
    ensures ListScan(acct, t, l, a + b, maxDepth, excludeRoot)
            == Then(ListScan(acct, t, l, a, maxDepth, excludeRoot), ListScan(acct, t, l, b, maxDepth, excludeRoot))
  {
    hide *;
    if a == [] {
      assert a + b == b;
      ListScanNone(acct, t, l, maxDepth, excludeRoot);
      ThenNothing(ListScan(acct, t, l, b, maxDepth, excludeRoot));
    } else {
      InTreeTail(t, a);
      ListScanAppend(acct, t, l, a[1..], b, maxDepth, excludeRoot);
      ListScanCons(acct, t, l, a[0], a[1..], maxDepth, excludeRoot);
      ListScanCons(acct, t, l, a[0], a[1..] + b, maxDepth, excludeRoot);
      assert a == [a[0]] + a[1..] && a + b == [a[0]] + (a[1..] + b);
      ThenAssociates(ListNode(acct, t, l, a[0], maxDepth, excludeRoot),
                     ListScan(acct, t, l, a[1..], maxDepth, excludeRoot),
                     ListScan(acct, t, l, b, maxDepth, excludeRoot));
    }
  }

  lemma {:induction false} ShownInTree(t: Tree, chains: seq<seq<LinkId>>, orDraft: bool, maxDepth: int)
    ensures InTree(t, Shown(t, chains, orDraft, maxDepth))
    ensures forall c | c in Shown(t, chains, orDraft, maxDepth) :: c in chains && Visible(t, c, orDraft, maxDepth)
  {
    if chains != [] {
      ShownInTree(t, chains[1..], orDraft, maxDepth);
    }
  }

  lemma PreOrderInTree(t: Tree, l: Listing, chain: seq<LinkId>)
    requires Acyclic(t) && ListingOf(t, l) && chain != [] && Last(chain) in t
    ensures InTree(t, PreOrder(t, l, chain))
    decreases Height(t, Last(chain)), 1, 0
  {
    PreOrderBelowInTree(t, l, chain, l[Last(chain)]);
  }

  /** The listing from a start: the visible nodes of the full enumeration, in one linear pass. */
  function ListFrom(acct: Account, t: Tree, l: Listing, chain: seq<LinkId>, maxDepth: int, excludeRoot: bool): Listed
    requires Acyclic(t) && ListingOf(t, l) && chain != [] && Last(chain) in t
  {
    PreOrderInTree(t, l, chain);
    ShownInTree(t, PreOrder(t, l, chain), false, maxDepth);
    ListScan(acct, t, l, Shown(t, PreOrder(t, l, chain), false, maxDepth), maxDepth, excludeRoot)
  }

  lemma {:induction false} PreOrderBelowInTree(t: Tree, l: Listing, chain: seq<LinkId>, kids: seq<LinkId>)
    requires Acyclic(t) && ListingOf(t, l) && chain != [] && Last(chain) in t
    requires forall k | k in kids :: k in t && t[k].parentId == Last(chain)
    ensures InTree(t, PreOrderBelow(t, l, chain, kids))
    decreases Height(t, Last(chain)), 0, |kids|
  {
    if kids != [] {
      assert kids[0] in kids;
      assert Last(chain + [kids[0]]) == kids[0];
      PreOrderInTree(t, l, chain + [kids[0]]);
      PreOrderBelowInTree(t, l, chain, kids[1..]);
    }
  }

  function ListBelow(acct: Account, t: Tree, l: Listing, chain: seq<LinkId>, kids: seq<LinkId>,
                     maxDepth: int, excludeRoot: bool): Listed
    requires Acyclic(t) && ListingOf(t, l) && Listable(t, chain, kids)
  {
    PreOrderBelowInTree(t, l, chain, kids);
    ShownInTree(t, PreOrderBelow(t, l, chain, kids), false, maxDepth);
    ListScan(acct, t, l, Shown(t, PreOrderBelow(t, l, chain, kids), false, maxDepth), maxDepth, excludeRoot)
  }

  lemma ListUnfold(acct: Account, t: Tree, l: Listing, chain: seq<LinkId>, maxDepth: int, excludeRoot: bool)
    requires Acyclic(t) && ListingOf(t, l) && chain != [] && Last(chain) in t
    ensures !Visible(t, chain, false, maxDepth) ==>
              ListFrom(acct, t, l, chain, maxDepth, excludeRoot) == Listed([], None)
    ensures Visible(t, chain, false, maxDepth) ==>
              ListFrom(acct, t, l, chain, maxDepth, excludeRoot)
              == Then(ListNode(acct, t, l, chain, maxDepth, excludeRoot),
                      ListBelow(acct, t, l, chain, l[Last(chain)], maxDepth, excludeRoot))
    ensures !Descends(t[Last(chain)], |chain| - 1, maxDepth) || l[Last(chain)] == [] ==>
              ListBelow(acct, t, l, chain, l[Last(chain)], maxDepth, excludeRoot) == Listed([], None)
  {
    var kids := l[Last(chain)];
    if !Visible(t, chain, false, maxDepth) || !Descends(t[Last(chain)], |chain| - 1, maxDepth) {
      HiddenBelow(t, l, chain, kids, false, maxDepth);
    }
    var below := PreOrderBelow(t, l, chain, kids);
    assert PreOrder(t, l, chain)[0] == chain && PreOrder(t, l, chain)[1..] == below;
    var shown := Shown(t, below, false, maxDepth);
    assert ([chain] + shown)[0] == chain && ([chain] + shown)[1..] == shown;
  }

  lemma ListOneMore(acct: Account, t: Tree, l: Listing, chain: seq<LinkId>, a: seq<LinkId>, k: LinkId,
                    maxDepth: int, excludeRoot: bool)
    requires Acyclic(t) && ListingOf(t, l) && Listable(t, chain, a) && Listable(t, chain, [k])
    ensures Last(chain + [k]) == k && Listable(t, chain, a + [k])
    ensures ListBelow(acct, t, l, chain, a + [k], maxDepth, excludeRoot)
            == Then(ListBelow(acct, t, l, chain, a, maxDepth, excludeRoot),
                    ListFrom(acct, t, l, chain + [k], maxDepth, excludeRoot))
  {
    assert k in [k];
    BelowAppend(t, l, chain, a, [k]);
    var x, y := PreOrderBelow(t, l, chain, a), PreOrder(t, l, chain + [k]);
    assert PreOrderBelow(t, l, chain, [k]) == y + [];
    assert y + [] == y;
    PreOrderBelowInTree(t, l, chain, a);
    PreOrderInTree(t, l, chain + [k]);
    ShownAppend(t, x, y, false, maxDepth);
    ShownInTree(t, x, false, maxDepth);
    ShownInTree(t, y, false, maxDepth);
    ListScanAppend(acct, t, l, Shown(t, x, false, maxDepth), Shown(t, y, false, maxDepth), maxDepth, excludeRoot);
  }

  /** An error met among the first children is the error of the whole. */
  lemma ListStopsEarly(acct: Account, t: Tree, l: Listing, chain: seq<LinkId>, a: seq<LinkId>, b: seq<LinkId>,
                       maxDepth: int, excludeRoot: bool)
    requires Acyclic(t) && ListingOf(t, l) && Listable(t, chain, a) && Listable(t, chain, b)
    requires ListBelow(acct, t, l, chain, a, maxDepth, excludeRoot).error.Some?
    ensures Listable(t, chain, a + b)
    ensures ListBelow(acct, t, l, chain, a + b, maxDepth, excludeRoot)
            == ListBelow(acct, t, l, chain, a, maxDepth, excludeRoot)
  {
    BelowAppend(t, l, chain, a, b);
    var x, y := PreOrderBelow(t, l, chain, a), PreOrderBelow(t, l, chain, b);
    PreOrderBelowInTree(t, l, chain, a);
    PreOrderBelowInTree(t, l, chain, b);
    ShownAppend(t, x, y, false, maxDepth);
    ShownInTree(t, x, false, maxDepth);
    ShownInTree(t, y, false, maxDepth);
    ListScanAppend(acct, t, l, Shown(t, x, false, maxDepth), Shown(t, y, false, maxDepth), maxDepth, excludeRoot);
  }

  lemma ListNone(acct: Account, t: Tree, l: Listing, chain: seq<LinkId>, kids: seq<LinkId>, maxDepth: int,
        excludeRoot: bool)
    requires Acyclic(t) && ListingOf(t, l) && Listable(t, chain, kids)
    ensures Listable(t, chain, kids[..0])
    ensures ListBelow(acct, t, l, chain, kids[..0], maxDepth, excludeRoot) == Listed([], None)
  {
  }

  /** A child of a visible node that is descended into is visible exactly if it passes the filter itself. */
  lemma VisibleChild(t: Tree, chain: seq<LinkId>, k: LinkId, orDraft: bool, maxDepth: int)
    requires Visible(t, chain, orDraft, maxDepth) && Descends(t[Last(chain)], |chain| - 1, maxDepth) && k in t
    ensures Visible(t, chain + [k], orDraft, maxDepth) <==> Passes(t[k].state, orDraft)
  {
    var longer := chain + [k];
    assert forall i | 0 <= i < |chain| :: longer[i] == chain[i];
    assert longer[|chain|] == k;
  }

  /** The situation of a call: `chain` leads to `link`, and its parent is open and visible. */
  ghost predicate Calling(acct: Account, t: Tree, l: Listing, chain: seq<LinkId>, link: Link, parentNodeKR: KeyRing,
                          pathSoFar: string, maxDepth: int, excludeRoot: bool)
  {
    && WellKeyed(t) && Acyclic(t) && ListingOf(t, l)
    && chain != [] && Last(chain) == link.linkId && link.linkId in t && t[link.linkId] == link
    && ResolveById(acct, t, link.parentId) == Ok(parentNodeKR)
    && pathSoFar == (if |chain| == 1 then "" else PathOf(acct, t, chain[..|chain| - 1], excludeRoot))
    && (Visible(t, chain, false, maxDepth) <==> link.state == Active)
  }

  /** The step of one call, with path and keyring threaded from above, is that of the linear pass. */
  lemma NodeAsListed(acct: Account, t: Tree, l: Listing, chain: seq<LinkId>, link: Link, parentNodeKR: KeyRing,
                     pathSoFar: string, maxDepth: int, excludeRoot: bool)
    requires Calling(acct, t, l, chain, link, parentNodeKR, pathSoFar, maxDepth, excludeRoot)
    ensures ResolveById(acct, t, link.linkId) == OpenNode(acct, link, parentNodeKR)
    ensures
      var hidden := excludeRoot && |chain| == 1;
      var name, kr := GetName(acct, link, parentNodeKR), OpenNode(acct, link, parentNodeKR);
      var node := ListNode(acct, t, l, chain, maxDepth, excludeRoot);
      if !hidden && name.Err? then node == Listed([], Some(name.error))
      else
        var here := if hidden then "" else pathSoFar + "/" + name.value;
        && here == PathOf(acct, t, chain, excludeRoot)
        && node == Listed(if hidden then [] else [here],
                          if Descends(link, |chain| - 1, maxDepth) && l[link.linkId] != [] && kr.Err?
                          then Some(kr.error) else None)
  {
    ResolveThroughParent(acct, t, link);
    assert "" + "/" == "/";
  }

  /** What one call computes before its loop, in terms of the linear pass. */
  lemma NodeStep(acct: Account, t: Tree, l: Listing, chain: seq<LinkId>, link: Link, parentNodeKR: KeyRing,
                 pathSoFar: string, maxDepth: int, excludeRoot: bool)
    requires Calling(acct, t, l, chain, link, parentNodeKR, pathSoFar, maxDepth, excludeRoot)
    ensures WellKeyed(t) && Acyclic(t) && ListingOf(t, l) && link.linkId in l && Listable(t, chain, l[link.linkId])
    ensures Last(chain) == link.linkId && link.linkId in t && t[link.linkId] == link
    ensures Descends(link, |chain| - 1, maxDepth) <==> (maxDepth == -1 || |chain| - 1 < maxDepth) && link.kind == Folder
    ensures
      var all := ListFrom(acct, t, l, chain, maxDepth, excludeRoot);
      var hidden := excludeRoot && |chain| == 1;
      var name := GetName(acct, link, parentNodeKR);
      var kr := OpenNode(acct, link, parentNodeKR);
      var below := ListBelow(acct, t, l, chain, l[link.linkId], maxDepth, excludeRoot);
      if link.state != Active then all == Listed([], None)
      else if !hidden && name.Err? then all == Listed([], Some(name.error))
      else
        var here := if hidden then "" else pathSoFar + "/" + name.value;
        var own := if hidden then [] else [here];
        && here == PathOf(acct, t, chain, excludeRoot)
        && Visible(t, chain, false, maxDepth)
        && (if !Descends(link, |chain| - 1, maxDepth) || l[link.linkId] == [] then all == Listed(own, None)
            else if kr.Err? then all == Listed(own, Some(kr.error))
            else ResolveById(acct, t, link.linkId) == kr && all == Listed(own + below.paths, below.error))
  {
    hide OpenNode, GetName, PathOf, ResolveById, PreOrder, PreOrderBelow, ListNode;
    ListUnfold(acct, t, l, chain, maxDepth, excludeRoot);
    NodeAsListed(acct, t, l, chain, link, parentNodeKR, pathSoFar, maxDepth, excludeRoot);
  }

  class PathList {
    var paths: seq<string>
  }

  /** `listDirectoriesRecursively` without the downloads. It prunes, threads keyrings downwards and appends as it
      goes; what it appends, and the error it stops at, are those of the linear pass that resolves every keyring from
      the root. `chain` leads to `link`. */
  method ListDirectoriesRecursively(acct: Account, t: Tree, l: Listing, parentNodeKR: KeyRing, link: Link,
                                    maxDepth: int, curDepth: nat, excludeRoot: bool, pathSoFar: string,
                                    out: PathList, ghost chain: seq<LinkId>)
    returns (err: Option<Error>)
    requires Calling(acct, t, l, chain, link, parentNodeKR, pathSoFar, maxDepth, excludeRoot)
    requires |chain| == curDepth + 1
    modifies out
    ensures out.paths == old(out.paths) + ListFrom(acct, t, l, chain, maxDepth, excludeRoot).paths
    ensures err == ListFrom(acct, t, l, chain, maxDepth, excludeRoot).error
    decreases Height(t, link.linkId), 1
  {
    hide *;
    NodeStep(acct, t, l, chain, link, parentNodeKR, pathSoFar, maxDepth, excludeRoot);
    if link.state != Active {
      return None;
    }
    var currentPath := "";
    if !(excludeRoot && curDepth == 0) {
      var name := GetName(acct, link, parentNodeKR);
      if name.Err? {
        return Some(name.error);
      }
      currentPath := pathSoFar + "/" + name.value;
      out.paths := out.paths + [currentPath];
    }
    if maxDepth == -1 || curDepth < maxDepth {
      if link.kind == Folder {
        var childrenLinks := l[link.linkId];
        if childrenLinks != [] {
          var linkKR := OpenNode(acct, link, parentNodeKR);
          if linkKR.Err? {
            return Some(linkKR.error);
          }
          err := ListChildren(acct, t, l, linkKR.value, link, childrenLinks, maxDepth, curDepth, excludeRoot,
                              currentPath, out, chain);
          return;
        }
      }
    }
    return None;
  }

  /** One turn of the loop over the children: what the call for a child needs. */
  lemma ChildCalling(acct: Account, t: Tree, l: Listing, chain: seq<LinkId>, kids: seq<LinkId>, i: nat,
                     maxDepth: int, excludeRoot: bool)
    requires WellKeyed(t) && Acyclic(t) && ListingOf(t, l) && i < |kids| && Listable(t, chain, kids)
    requires Visible(t, chain, false, maxDepth) && Descends(t[Last(chain)], |chain| - 1, maxDepth)
    ensures kids[i] in t && t[kids[i]].linkId == kids[i] && Height(t, kids[i]) < Height(t, Last(chain))
    ensures ResolveById(acct, t, Last(chain)).Ok? ==>
              Calling(acct, t, l, chain + [kids[i]], t[kids[i]], ResolveById(acct, t, Last(chain)).value,
                      PathOf(acct, t, chain, excludeRoot), maxDepth, excludeRoot)
  {
    hide ResolveById, PathOf, Visible;
    assert kids[i] in kids;
    VisibleChild(t, chain, kids[i], false, maxDepth);
    assert (chain + [kids[i]])[..|chain|] == chain;
  }

  /** And what its outcome adds. */
  lemma ChildOutcome(acct: Account, t: Tree, l: Listing, chain: seq<LinkId>, kids: seq<LinkId>, i: nat,
                     maxDepth: int, excludeRoot: bool)
    requires Acyclic(t) && ListingOf(t, l) && i < |kids| && Listable(t, chain, kids)
    requires Visible(t, chain, false, maxDepth) && Descends(t[Last(chain)], |chain| - 1, maxDepth)
    ensures Listable(t, chain, kids[..i]) && Listable(t, chain, kids[..i + 1])
    ensures Last(chain + [kids[i]]) == kids[i] && kids[i] in t
    ensures var before, child := ListBelow(acct, t, l, chain, kids[..i], maxDepth, excludeRoot),
                                 ListFrom(acct, t, l, chain + [kids[i]], maxDepth, excludeRoot);
            before.error == None ==>
              && ListBelow(acct, t, l, chain, kids[..i + 1], maxDepth, excludeRoot)
                 == Listed(before.paths + child.paths, child.error)
              && (child.error.Some? ==>
                    ListBelow(acct, t, l, chain, kids, maxDepth, excludeRoot)
                    == Listed(before.paths + child.paths, child.error))
  {
    hide ListBelow, ListFrom, Visible;
    assert kids[i] in kids && forall x | x in kids[..i] || x in kids[i + 1..] :: x in kids;
    assert kids[..i] + [kids[i]] == kids[..i + 1];
    assert kids[..i + 1] + kids[i + 1..] == kids;
    ListOneMore(acct, t, l, chain, kids[..i], kids[i], maxDepth, excludeRoot);
    if ListBelow(acct, t, l, chain, kids[..i + 1], maxDepth, excludeRoot).error.Some? {
      ListStopsEarly(acct, t, l, chain, kids[..i + 1], kids[i + 1..], maxDepth, excludeRoot);
    }
  }

  /** The loop over the children. */
  method ListChildren(acct: Account, t: Tree, l: Listing, linkKR: KeyRing, link: Link, kids: seq<LinkId>,
                      maxDepth: int, curDepth: nat, excludeRoot: bool, currentPath: string,
                      out: PathList, ghost chain: seq<LinkId>)
    returns (err: Option<Error>)
    requires WellKeyed(t) && Acyclic(t) && ListingOf(t, l)
    requires |chain| == curDepth + 1 && Last(chain) == link.linkId && link.linkId in t && t[link.linkId] == link
    requires Listable(t, chain, kids)
    requires ResolveById(acct, t, link.linkId) == Ok(linkKR)
    requires currentPath == PathOf(acct, t, chain, excludeRoot)
    requires Visible(t, chain, false, maxDepth) && Descends(link, curDepth, maxDepth)
    modifies out
    ensures out.paths == old(out.paths) + ListBelow(acct, t, l, chain, kids, maxDepth, excludeRoot).paths
    ensures err == ListBelow(acct, t, l, chain, kids, maxDepth, excludeRoot).error
    decreases Height(t, link.linkId), 0
  {
    hide *;
    ghost var was := out.paths;
    ListNone(acct, t, l, chain, kids, maxDepth, excludeRoot);
    for i := 0 to |kids|
      invariant Listable(t, chain, kids[..i])
      invariant out.paths == was + ListBelow(acct, t, l, chain, kids[..i], maxDepth, excludeRoot).paths
      invariant ListBelow(acct, t, l, chain, kids[..i], maxDepth, excludeRoot).error == None
    {
      ChildCalling(acct, t, l, chain, kids, i, maxDepth, excludeRoot);
      ChildOutcome(acct, t, l, chain, kids, i, maxDepth, excludeRoot);
      err := ListDirectoriesRecursively(acct, t, l, linkKR, t[kids[i]], maxDepth, curDepth + 1, excludeRoot,
                                        currentPath, out, chain + [kids[i]]);
      if err.Some? {
        return;
      }
    }
    assert kids[..|kids|] == kids;
    return None;
  }

  /** The path a node contributes, if any. */
  function OwnPath(acct: Account, t: Tree, chain: seq<LinkId>, excludeRoot: bool): seq<string>
    requires Acyclic(t) && chain != []
  {
    if excludeRoot && |chain| == 1 then [] else [PathOf(acct, t, chain, excludeRoot)]
  }

  function Paths(acct: Account, t: Tree, chains: seq<seq<LinkId>>, excludeRoot: bool): seq<string>
    requires Acyclic(t) && InTree(t, chains)
  {
    if chains == [] then []
    else
      assert chains[0] in chains && forall c | c in chains[1..] :: c in chains;
      OwnPath(acct, t, chains[0], excludeRoot) + Paths(acct, t, chains[1..], excludeRoot)
  }

  lemma {:induction false} PathsHold(acct: Account, t: Tree, chains: seq<seq<LinkId>>, excludeRoot: bool, p: string)
    requires Acyclic(t) && InTree(t, chains)
    ensures p in Paths(acct, t, chains, excludeRoot) <==>
            exists c :: c in chains && c != [] && p in OwnPath(acct, t, c, excludeRoot)
  {
    if chains != [] {
      assert chains[0] in chains && forall c | c in chains[1..] :: c in chains;
      PathsHold(acct, t, chains[1..], excludeRoot, p);
      if c :| c in chains && c != [] && p in OwnPath(acct, t, c, excludeRoot) {
        assert c == chains[0] || c in chains[1..];
      }
    }
  }

  /** The path of a node from `start`: a slash and a name for each link on the way, but for an excluded start. */
  ghost function PathFrom(acct: Account, t: Tree, start: LinkId, id: LinkId, excludeRoot: bool): string
    requires Acyclic(t) && InSubtree(t, start, id)
    decreases Depth(t, id)
  {
    if id != start then PathFrom(acct, t, start, t[id].parentId, excludeRoot) + "/" + NameOr(acct, t, id)
    else if excludeRoot then "" else "/" + NameOr(acct, t, id)
  }

  lemma {:induction false} PathAlongChain(acct: Account, t: Tree, start: LinkId, id: LinkId, excludeRoot: bool)
    requires Acyclic(t) && InSubtree(t, start, id)
    ensures PathOf(acct, t, ChainTo(t, start, id), excludeRoot) == PathFrom(acct, t, start, id, excludeRoot)
    decreases Depth(t, id)
  {
    if id != start {
      var c := ChainTo(t, start, id);
      PathAlongChain(acct, t, start, t[id].parentId, excludeRoot);
      assert c[..|c| - 1] == ChainTo(t, start, t[id].parentId);
    }
  }

  /** A path that a listing is due to hold. */
  ghost predicate PathDue(acct: Account, t: Tree, start: LinkId, id: LinkId, maxDepth: int, excludeRoot: bool,
                          p: string)
    requires Acyclic(t)
  {
    && Shows(t, start, id, false, maxDepth) && !(excludeRoot && id == start)
    && p == PathFrom(acct, t, start, id, excludeRoot)
  }

  lemma HasChildren(t: Tree, l: Listing, id: LinkId)
    requires ListingOf(t, l) && Complete(t, l) && id in t
    ensures l[id] != [] <==> exists k :: k in t && t[k].parentId == id
  {
    if l[id] != [] {
      var k := l[id][0];
      assert k in l[id] && k in t && t[k].parentId == id;
    }
    if k :| k in t && t[k].parentId == id {
      assert k in l[t[k].parentId];
    }
  }

  lemma PathsDue(acct: Account, t: Tree, start: LinkId, maxDepth: int, excludeRoot: bool, chains: seq<seq<LinkId>>,
                 p: string)
    requires Acyclic(t) && InTree(t, chains)
    requires forall c :: c in chains <==>
               c != [] && Shows(t, start, Last(c), false, maxDepth) && c == ChainTo(t, start, Last(c))
    ensures p in Paths(acct, t, chains, excludeRoot) <==>
            exists id :: PathDue(acct, t, start, id, maxDepth, excludeRoot, p)
  {
    hide PathFrom, PathOf;
    PathsHold(acct, t, chains, excludeRoot, p);
    if c :| c in chains && c != [] && p in OwnPath(acct, t, c, excludeRoot) {
      OnTheWay(t, start, Last(c));
      PathAlongChain(acct, t, start, Last(c), excludeRoot);
      assert PathDue(acct, t, start, Last(c), maxDepth, excludeRoot, p);
    }
    if id :| PathDue(acct, t, start, id, maxDepth, excludeRoot, p) {
      OnTheWay(t, start, id);
      PathAlongChain(acct, t, start, id, excludeRoot);
      assert ChainTo(t, start, id) in chains;
    }
  }

  /** Nothing about a node stops a listing: its name reads, unless it is an excluded start; and if it is a folder that
      has children and is not at the depth bound, its keyring resolves. */
  ghost predicate Lists(acct: Account, t: Tree, start: LinkId, id: LinkId, maxDepth: int, excludeRoot: bool)
    requires Acyclic(t)
  {
    && InSubtree(t, start, id)
    && (NameOf(acct, t, id).Ok? || (excludeRoot && id == start))
    && (t[id].kind == Folder && (maxDepth == -1 || StepsDown(t, start, id) < maxDepth)
          && (exists k :: k in t && t[k].parentId == id)
        ==> ResolveById(acct, t, id).Ok?)
  }

  /** The error that a node which does not list stops a listing with. */
  ghost function Stopping(acct: Account, t: Tree, start: LinkId, id: LinkId, excludeRoot: bool): Option<Error>
    requires Acyclic(t)
  {
    if NameOf(acct, t, id).Err? && !(excludeRoot && id == start) then Some(NameOf(acct, t, id).error)
    else if ResolveById(acct, t, id).Err? then Some(ResolveById(acct, t, id).error)
    else None
  }

  lemma NodeLists(acct: Account, t: Tree, l: Listing, start: LinkId, id: LinkId, maxDepth: int, excludeRoot: bool)
    requires Acyclic(t) && ListingOf(t, l) && Complete(t, l) && InSubtree(t, start, id)
    ensures var node := ListNode(acct, t, l, ChainTo(t, start, id), maxDepth, excludeRoot);
            var own := OwnPath(acct, t, ChainTo(t, start, id), excludeRoot);
            && (node.error == None <==> Lists(acct, t, start, id, maxDepth, excludeRoot))
            && (node.error.Some? ==> node.error == Stopping(acct, t, start, id, excludeRoot))
            && node.paths == (if NameOf(acct, t, id).Ok? then own else [])
            && (node.error == None ==> node.paths == own)
  {
    hide NameOf, ResolveById, PathOf, Complete, Descending;
    OnTheWay(t, start, id);
    DeeperInSubtree(t, start, id);
    HasChildren(t, l, id);
    var c := ChainTo(t, start, id);
    if |c| == 1 {
      assert c[0] == id;
    } else {
      assert c[0] == start != id;
    }
  }

  /** The chains are those to nodes of the subtree of `start`. */
  ghost predicate ChainsFrom(t: Tree, start: LinkId, chains: seq<seq<LinkId>>)
    requires Acyclic(t)
  {
    forall i | 0 <= i < |chains| ::
      chains[i] != [] && InSubtree(t, start, Last(chains[i])) && chains[i] == ChainTo(t, start, Last(chains[i]))
  }

  /** The listing has the paths of all nodes up to number `i`, which stops it. */
  ghost predicate StopsAt(acct: Account, t: Tree, start: LinkId, chains: seq<seq<LinkId>>, i: nat, maxDepth: int,
                          excludeRoot: bool, r: Listed)
    requires Acyclic(t) && InTree(t, chains)
  {
    && i < |chains|
    && (forall j | 0 <= j < i :: Lists(acct, t, start, Last(chains[j]), maxDepth, excludeRoot))
    && !Lists(acct, t, start, Last(chains[i]), maxDepth, excludeRoot)
    && r.error.Some? && r.error == Stopping(acct, t, start, Last(chains[i]), excludeRoot)
    && r.paths == Paths(acct, t, chains[..i], excludeRoot)
                  + (if NameOf(acct, t, Last(chains[i])).Ok? then OwnPath(acct, t, chains[i], excludeRoot) else [])
  }

  lemma StopsLater(acct: Account, t: Tree, start: LinkId, chains: seq<seq<LinkId>>, i: nat, maxDepth: int,
                   excludeRoot: bool, x: Listed, y: Listed)
    requires Acyclic(t) && InTree(t, chains) && chains != [] && InTree(t, chains[1..])
    requires Lists(acct, t, start, Last(chains[0]), maxDepth, excludeRoot)
    requires x == Listed(OwnPath(acct, t, chains[0], excludeRoot), None)
    requires StopsAt(acct, t, start, chains[1..], i, maxDepth, excludeRoot, y)
    ensures StopsAt(acct, t, start, chains, i + 1, maxDepth, excludeRoot, Then(x, y))
  {
    hide Lists, Stopping, OwnPath, NameOf, InSubtree;
    var rest := chains[1..];
    assert forall j | 0 <= j < |rest| :: rest[j] == chains[j + 1];
    assert chains[..i + 1][1..] == rest[..i];
  }

  lemma {:induction false} ScanStops(acct: Account, t: Tree, l: Listing, start: LinkId, chains: seq<seq<LinkId>>,
                                     maxDepth: int, excludeRoot: bool)
    requires Acyclic(t) && ListingOf(t, l) && Complete(t, l) && InTree(t, chains) && ChainsFrom(t, start, chains)
    ensures var r := ListScan(acct, t, l, chains, maxDepth, excludeRoot);
            if r.error == None
            then
              && r.paths == Paths(acct, t, chains, excludeRoot)
              && forall i | 0 <= i < |chains| :: Lists(acct, t, start, Last(chains[i]), maxDepth, excludeRoot)
            else exists i :: StopsAt(acct, t, start, chains, i, maxDepth, excludeRoot, r)
  {
    hide ListNode, Lists, Stopping, OwnPath, NameOf, InSubtree, ChainTo, Complete, ListingOf;
    if chains != [] {
      var rest := chains[1..];
      assert chains[0] in chains && forall i | 0 <= i < |rest| :: rest[i] == chains[i + 1];
      ScanStops(acct, t, l, start, rest, maxDepth, excludeRoot);
      NodeLists(acct, t, l, start, Last(chains[0]), maxDepth, excludeRoot);
      var x, y := ListNode(acct, t, l, chains[0], maxDepth, excludeRoot),
                  ListScan(acct, t, l, rest, maxDepth, excludeRoot);
      if x.error.Some? {
        assert Paths(acct, t, chains[..0], excludeRoot) + x.paths == x.paths;
        assert StopsAt(acct, t, start, chains, 0, maxDepth, excludeRoot, x);
      } else if y.error.Some? {
        var i: nat :| StopsAt(acct, t, start, rest, i, maxDepth, excludeRoot, y);
        StopsLater(acct, t, start, chains, i, maxDepth, excludeRoot, x, y);
      }
    }
  }

  /** The listing of a start goes through the nodes to be shown, in pre-order, each once. It holds exactly their paths
      if nothing about any of them stops it; else it stops at the first that does, with its error and the paths up to
      there. */
  lemma ListingIsVisiblePaths(acct: Account, t: Tree, l: Listing, start: LinkId, maxDepth: int, excludeRoot: bool)
    requires Acyclic(t) && ListingOf(t, l) && Complete(t, l) && NoRepeats(l) && start in t
    ensures var chains, r := Shown(t, PreOrder(t, l, [start]), false, maxDepth),
                             ListFrom(acct, t, l, [start], maxDepth, excludeRoot);
            && InTree(t, chains) && Distinct(chains) && Ordered(l, chains)
            && (forall c :: c in chains <==>
                  c != [] && Shows(t, start, Last(c), false, maxDepth) && c == ChainTo(t, start, Last(c)))
            && (if r.error == None
                then
                  && r.paths == Paths(acct, t, chains, excludeRoot)
                  && (forall id | Shows(t, start, id, false, maxDepth) ::
                        Lists(acct, t, start, id, maxDepth, excludeRoot))
                  && forall p :: p in r.paths <==> exists id :: PathDue(acct, t, start, id, maxDepth, excludeRoot, p)
                else exists i :: StopsAt(acct, t, start, chains, i, maxDepth, excludeRoot, r))
  {
    hide Shows, Lists, StopsAt, ListScan, NameOf, ResolveById, PathFrom, Before, Visible, StepsDown, ChainTo;
    var chains := Shown(t, PreOrder(t, l, [start]), false, maxDepth);
    PreOrderInTree(t, l, [start]);
    ShownInTree(t, PreOrder(t, l, [start]), false, maxDepth);
    PreOrderDistinct(t, l, [start]);
    ShownDistinct(t, PreOrder(t, l, [start]), false, maxDepth);
    PreOrderOrdered(t, l, [start]);
    ShownOrdered(t, l, PreOrder(t, l, [start]), false, maxDepth);
    forall c
      ensures c in chains <==>
              c != [] && Shows(t, start, Last(c), false, maxDepth) && c == ChainTo(t, start, Last(c))
    {
      ShownIsVisibleNodes(t, l, start, false, maxDepth, c);
      if c != [] {
        VisibleIff(t, start, Last(c), false, maxDepth);
      }
    }
    assert forall i | 0 <= i < |chains| :: chains[i] in chains;
    ScanStops(acct, t, l, start, chains, maxDepth, excludeRoot);
    forall id | Shows(t, start, id, false, maxDepth)
      ensures exists i :: 0 <= i < |chains| && chains[i] == ChainTo(t, start, id)
    {
      assert ChainTo(t, start, id) in chains;
    }
    forall p
      ensures p in Paths(acct, t, chains, excludeRoot) <==>
              exists id :: PathDue(acct, t, start, id, maxDepth, excludeRoot, p)
    {
      PathsDue(acct, t, start, maxDepth, excludeRoot, chains, p);
    }
  }

  // ---- with and without the root

  function Prefixed(root: string, paths: seq<string>): seq<string> {
    seq(|paths|, i requires 0 <= i < |paths| => root + paths[i])
  }

  lemma PrefixedAppend(root: string, a: seq<string>, b: seq<string>)
    ensures Prefixed(root, a + b) == Prefixed(root, a) + Prefixed(root, b)
  {
  }

  ghost predicate AllBelow(id: LinkId, chains: seq<seq<LinkId>>) {
    forall i | 0 <= i < |chains| :: |chains[i]| > 1 && chains[i][0] == id
  }

  lemma JoinAssociates(root: string, path: string, name: string)
    ensures (root + path) + "/" + name == root + (path + "/" + name)
  {
  }

  lemma {:induction false} PathWithRoot(acct: Account, t: Tree, chain: seq<LinkId>)
    requires Acyclic(t) && chain != []
    ensures PathOf(acct, t, chain, false) == "/" + NameOr(acct, t, chain[0]) + PathOf(acct, t, chain, true)
    decreases |chain|
  {
    if |chain| > 1 {
      var init := chain[..|chain| - 1];
      PathWithRoot(acct, t, init);
      JoinAssociates("/" + NameOr(acct, t, chain[0]), PathOf(acct, t, init, true), NameOr(acct, t, Last(chain)));
    } else {
      assert "/" + NameOr(acct, t, chain[0]) + "" == "/" + NameOr(acct, t, chain[0]);
    }
  }

  lemma NodeWithRoot(acct: Account, t: Tree, l: Listing, chain: seq<LinkId>, maxDepth: int)
    requires Acyclic(t) && ListingOf(t, l) && |chain| > 1 && Last(chain) in t
    ensures var x := ListNode(acct, t, l, chain, maxDepth, true);
            ListNode(acct, t, l, chain, maxDepth, false)
            == Listed(Prefixed("/" + NameOr(acct, t, chain[0]), x.paths), x.error)
  {
    PathWithRoot(acct, t, chain);
  }

  lemma ThenPrefixed(root: string, x: Listed, y: Listed)
    ensures Then(Listed(Prefixed(root, x.paths), x.error), Listed(Prefixed(root, y.paths), y.error))
            == Listed(Prefixed(root, Then(x, y).paths), Then(x, y).error)
  {
    PrefixedAppend(root, x.paths, y.paths);
  }

  lemma PrefixedNone(root: string)
    ensures Prefixed(root, []) == []
  {
  }

  lemma AllBelowTail(id: LinkId, chains: seq<seq<LinkId>>)
    requires AllBelow(id, chains) && chains != []
    ensures |chains[0]| > 1 && chains[0][0] == id && AllBelow(id, chains[1..])
  {
  }

  lemma {:induction false} ScanWithRoot(acct: Account, t: Tree, l: Listing, id: LinkId, chains: seq<seq<LinkId>>,
        maxDepth: int)
    requires Acyclic(t) && ListingOf(t, l) && InTree(t, chains) && AllBelow(id, chains)
    ensures var x := ListScan(acct, t, l, chains, maxDepth, true);
            ListScan(acct, t, l, chains, maxDepth, false)
            == Listed(Prefixed("/" + NameOr(acct, t, id), x.paths), x.error)
  {
    hide *;
    if chains == [] {
      ListScanNone(acct, t, l, maxDepth, true);
      ListScanNone(acct, t, l, maxDepth, false);
      PrefixedNone("/" + NameOr(acct, t, id));
    } else {
      InTreeTail(t, chains);
      AllBelowTail(id, chains);
      ScanWithRoot(acct, t, l, id, chains[1..], maxDepth);
      NodeWithRoot(acct, t, l, chains[0], maxDepth);
      assert chains == [chains[0]] + chains[1..];
      ListScanCons(acct, t, l, chains[0], chains[1..], maxDepth, true);
      ListScanCons(acct, t, l, chains[0], chains[1..], maxDepth, false);
      ThenPrefixed("/" + NameOr(acct, t, id), ListNode(acct, t, l, chains[0], maxDepth, true),
                   ListScan(acct, t, l, chains[1..], maxDepth, true));
    }
  }

  lemma PreOrderStartsAt(t: Tree, l: Listing, chain: seq<LinkId>)
    requires Acyclic(t) && ListingOf(t, l) && chain != [] && Last(chain) in t
    ensures forall c | c in PreOrder(t, l, chain) :: |c| >= |chain| && c[0] == chain[0]
    decreases Height(t, Last(chain)), 1, 0
  {
    BelowStartsAt(t, l, chain, l[Last(chain)]);
  }

  lemma {:induction false} BelowStartsAt(t: Tree, l: Listing, chain: seq<LinkId>, kids: seq<LinkId>)
    requires Acyclic(t) && ListingOf(t, l) && chain != [] && Last(chain) in t
    requires forall k | k in kids :: k in t && t[k].parentId == Last(chain)
    ensures forall c | c in PreOrderBelow(t, l, chain, kids) :: |c| > |chain| && c[0] == chain[0]
    decreases Height(t, Last(chain)), 0, |kids|
  {
    if kids != [] {
      assert kids[0] in kids;
      assert Last(chain + [kids[0]]) == kids[0];
      PreOrderStartsAt(t, l, chain + [kids[0]]);
      BelowStartsAt(t, l, chain, kids[1..]);
    }
  }

  lemma RootNode(acct: Account, t: Tree, l: Listing, id: LinkId, maxDepth: int)
    requires Acyclic(t) && ListingOf(t, l) && id in t && t[id].state == Active
    ensures [id] != [] && Last([id]) == id && id in l && Listable(t, [id], l[id])
    ensures Visible(t, [id], false, maxDepth)
    ensures ListNode(acct, t, l, [id], maxDepth, true).paths == []
    ensures ListNode(acct, t, l, [id], maxDepth, false) ==
            if NameOf(acct, t, id).Ok?
            then Listed(["/" + NameOf(acct, t, id).value], ListNode(acct, t, l, [id], maxDepth, true).error)
            else Listed([], Some(NameOf(acct, t, id).error))
    ensures NameOf(acct, t, id).Ok? ==> NameOr(acct, t, id) == NameOf(acct, t, id).value
  {
  }

  lemma BelowWithRoot(acct: Account, t: Tree, l: Listing, id: LinkId, maxDepth: int)
    requires Acyclic(t) && ListingOf(t, l) && id in t
    ensures id in l && Listable(t, [id], l[id])
    ensures var x := ListBelow(acct, t, l, [id], l[id], maxDepth, true);
            ListBelow(acct, t, l, [id], l[id], maxDepth, false)
            == Listed(Prefixed("/" + NameOr(acct, t, id), x.paths), x.error)
  {
    var below := PreOrderBelow(t, l, [id], l[id]);
    BelowStartsAt(t, l, [id], l[id]);
    PreOrderBelowInTree(t, l, [id], l[id]);
    ShownInTree(t, below, false, maxDepth);
    ScanWithRoot(acct, t, l, id, Shown(t, below, false, maxDepth), maxDepth);
  }

  lemma ThenRoot(root: string, e: Option<Error>, y: Listed)
    ensures Then(Listed([root], e), Listed(Prefixed(root, y.paths), y.error))
            == Listed([root] + Prefixed(root, Then(Listed([], e), y).paths), Then(Listed([], e), y).error)
  {
    ThenNothing(y);
    assert Prefixed(root, []) == [] && [root] + [] == [root];
  }

  lemma ThenStops(e: Error, y: Listed)
    ensures Then(Listed([], Some(e)), y) == Listed([], Some(e))
  {
  }

  /** Listing with the root included is the root's path, then the listing without it, each path behind the root's. */
  lemma RootIncluded(acct: Account, t: Tree, l: Listing, id: LinkId, maxDepth: int)
    requires Acyclic(t) && ListingOf(t, l) && id in t && t[id].state == Active
    ensures var with := ListFrom(acct, t, l, [id], maxDepth, false);
            var without := ListFrom(acct, t, l, [id], maxDepth, true);
            if NameOf(acct, t, id).Err? then with == Listed([], Some(NameOf(acct, t, id).error))
            else
              var root := "/" + NameOf(acct, t, id).value;
              with == Listed([root] + Prefixed(root, without.paths), without.error)
  {
    hide *;
    RootNode(acct, t, l, id, maxDepth);
    BelowWithRoot(acct, t, l, id, maxDepth);
    ListUnfold(acct, t, l, [id], maxDepth, false);
    ListUnfold(acct, t, l, [id], maxDepth, true);
    var node, below := ListNode(acct, t, l, [id], maxDepth, true), ListBelow(acct, t, l, [id], l[id], maxDepth, true);
    if NameOf(acct, t, id).Ok? {
      ThenRoot("/" + NameOf(acct, t, id).value, node.error, below);
    } else {
      ThenStops(NameOf(acct, t, id).error, ListBelow(acct, t, l, [id], l[id], maxDepth, false));
    }
  }

  // ---- the search

  function PerformSearch(acct: Account, t: Tree, l: Listing, parentNodeKR: KeyRing, link: Link,
                         targetName: string, kind: LinkType, orDraft: bool): Result<Option<Link>>
    requires WellKeyed(t) && Acyclic(t) && ListingOf(t, l) && link.linkId in t && t[link.linkId] == link
    decreases Height(t, link.linkId), 1, 0
  {
    if !Passes(link.state, orDraft) then Ok(None)
    else
      match GetName(acct, link, parentNodeKR)
      case Err(e) => Err(e)
      case Ok(name) =>
        if link.kind == kind && name == targetName then Ok(Some(link))
        else if link.kind == Folder then
          var kids := l[link.linkId];
          match OpenNode(acct, link, parentNodeKR)
          case Err(e) => Err(e)
          case Ok(linkKR) => SearchChildren(acct, t, l, linkKR, link, kids, targetName, kind, orDraft)
        else Ok(None)
  }

  /** The second is taken only if the first neither failed nor found anything. */
  function OrElse(x: Result<Option<Link>>, y: Result<Option<Link>>): Result<Option<Link>> {
    if x == Ok(None) then y else x
  }

  function SearchChildren(acct: Account, t: Tree, l: Listing, linkKR: KeyRing, link: Link, kids: seq<LinkId>,
                          targetName: string, kind: LinkType, orDraft: bool): Result<Option<Link>>
    requires WellKeyed(t) && Acyclic(t) && ListingOf(t, l) && link.linkId in t && t[link.linkId] == link
    requires forall k | k in kids :: k in t && t[k].parentId == link.linkId
    decreases Height(t, link.linkId), 0, |kids|
  {
    if kids == [] then Ok(None)
    else
      assert kids[0] in kids;
      OrElse(PerformSearch(acct, t, l, linkKR, t[kids[0]], targetName, kind, orDraft),
             SearchChildren(acct, t, l, linkKR, link, kids[1..], targetName, kind, orDraft))
  }

  /** What the search makes of one visible node, with the keyrings of the bottom-up resolver. */
  function SearchNode(acct: Account, t: Tree, id: LinkId, targetName: string, kind: LinkType): Result<Option<Link>>
    requires Acyclic(t) && id in t
  {
    match NameOf(acct, t, id)
    case Err(e) => Err(e)
    case Ok(name) =>
      if t[id].kind == kind && name == targetName then Ok(Some(t[id]))
      else if t[id].kind == Folder && ResolveById(acct, t, id).Err? then Err(ResolveById(acct, t, id).error)
      else Ok(None)
  }

  function SearchScan(acct: Account, t: Tree, chains: seq<seq<LinkId>>, targetName: string,
        kind: LinkType): Result<Option<Link>>
    requires Acyclic(t) && InTree(t, chains)
  {
    if chains == [] then Ok(None)
    else
      assert chains[0] in chains && forall c | c in chains[1..] :: c in chains;
      OrElse(SearchNode(acct, t, Last(chains[0]), targetName, kind),
             SearchScan(acct, t, chains[1..], targetName, kind))
  }

  lemma {:induction false} SearchScanAppend(acct: Account, t: Tree, a: seq<seq<LinkId>>, b: seq<seq<LinkId>>,
                                            targetName: string, kind: LinkType)
    requires Acyclic(t) && InTree(t, a) && InTree(t, b)
    ensures InTree(t, a + b)
    ensures SearchScan(acct, t, a + b, targetName, kind)
            == OrElse(SearchScan(acct, t, a, targetName, kind), SearchScan(acct, t, b, targetName, kind))
  {
    if a == [] {
      assert a + b == b;
    } else {
      assert a[0] in a && forall c | c in a[1..] :: c in a;
      SearchScanAppend(acct, t, a[1..], b, targetName, kind);
      assert (a + b)[0] == a[0] && (a + b)[1..] == a[1..] + b;
    }
  }

  ghost function VisibleFrom(t: Tree, l: Listing, chain: seq<LinkId>, orDraft: bool): (r: seq<seq<LinkId>>)
    requires Acyclic(t) && ListingOf(t, l) && chain != [] && Last(chain) in t
    ensures InTree(t, r)
  {
    ShownInTree(t, PreOrder(t, l, chain), orDraft, -1);
    Shown(t, PreOrder(t, l, chain), orDraft, -1)
  }

  ghost function VisibleBelow(t: Tree, l: Listing, chain: seq<LinkId>, kids: seq<LinkId>,
        orDraft: bool): (r: seq<seq<LinkId>>)
    requires Acyclic(t) && ListingOf(t, l) && Listable(t, chain, kids)
    ensures InTree(t, r)
  {
    ShownInTree(t, PreOrderBelow(t, l, chain, kids), orDraft, -1);
    Shown(t, PreOrderBelow(t, l, chain, kids), orDraft, -1)
  }

  /** The step of one call, with the keyring threaded from above, is that of the resolver. */
  lemma NodeAsSearched(acct: Account, t: Tree, link: Link, parentNodeKR: KeyRing, targetName: string, kind: LinkType)
    requires Acyclic(t) && WellKeyed(t) && link.linkId in t && t[link.linkId] == link
    requires ResolveById(acct, t, link.parentId) == Ok(parentNodeKR)
    ensures ResolveById(acct, t, link.linkId) == OpenNode(acct, link, parentNodeKR)
    ensures SearchNode(acct, t, link.linkId, targetName, kind) ==
            var name, kr := GetName(acct, link, parentNodeKR), OpenNode(acct, link, parentNodeKR);
            if name.Err? then Err(name.error)
            else if link.kind == kind && name.value == targetName then Ok(Some(link))
            else if link.kind == Folder && kr.Err? then Err(kr.error)
            else Ok(None)
  {
    ResolveThroughParent(acct, t, link);
  }

  lemma VisibleUnfold(t: Tree, l: Listing, chain: seq<LinkId>, orDraft: bool)
    requires Acyclic(t) && ListingOf(t, l) && chain != [] && Last(chain) in t
    ensures VisibleFrom(t, l, chain, orDraft) ==
            if Visible(t, chain, orDraft, -1) then [chain] + VisibleBelow(t, l, chain, l[Last(chain)], orDraft) else []
    ensures t[Last(chain)].kind == File ==> VisibleBelow(t, l, chain, l[Last(chain)], orDraft) == []
  {
    var below := PreOrderBelow(t, l, chain, l[Last(chain)]);
    assert PreOrder(t, l, chain)[0] == chain && PreOrder(t, l, chain)[1..] == below;
    if !Visible(t, chain, orDraft, -1) || t[Last(chain)].kind == File {
      HiddenBelow(t, l, chain, l[Last(chain)], orDraft, -1);
    }
  }

  lemma ScanUnfold(acct: Account, t: Tree, l: Listing, chain: seq<LinkId>, targetName: string, kind: LinkType,
        orDraft: bool)
    requires Acyclic(t) && ListingOf(t, l) && chain != [] && Last(chain) in t
    ensures SearchScan(acct, t, VisibleFrom(t, l, chain, orDraft), targetName, kind) ==
            if Visible(t, chain, orDraft, -1)
            then OrElse(SearchNode(acct, t, Last(chain), targetName, kind),
                        SearchScan(acct, t, VisibleBelow(t, l, chain, l[Last(chain)], orDraft), targetName, kind))
            else Ok(None)
    ensures t[Last(chain)].kind == File ==>
              SearchScan(acct, t, VisibleBelow(t, l, chain, l[Last(chain)], orDraft), targetName, kind) == Ok(None)
  {
    VisibleUnfold(t, l, chain, orDraft);
    var shown := VisibleBelow(t, l, chain, l[Last(chain)], orDraft);
    assert ([chain] + shown)[0] == chain && ([chain] + shown)[1..] == shown;
  }

  /** The search, pruning and threading keyrings downwards, is the linear pass over the visible nodes. */
  lemma SearchIsScan(acct: Account, t: Tree, l: Listing, parentNodeKR: KeyRing, link: Link, chain: seq<LinkId>,
                     targetName: string, kind: LinkType, orDraft: bool)
    requires WellKeyed(t) && Acyclic(t) && ListingOf(t, l)
    requires chain != [] && Last(chain) == link.linkId && link.linkId in t && t[link.linkId] == link
    requires ResolveById(acct, t, link.parentId) == Ok(parentNodeKR)
    requires Visible(t, chain, orDraft, -1) <==> Passes(link.state, orDraft)
    ensures PerformSearch(acct, t, l, parentNodeKR, link, targetName, kind, orDraft)
            == SearchScan(acct, t, VisibleFrom(t, l, chain, orDraft), targetName, kind)
    decreases Height(t, link.linkId), 1, 0
  {
    hide OpenNode, GetName, ResolveById, ResolveLink, SearchNode, VisibleFrom, VisibleBelow, Visible, SearchScan;
    ScanUnfold(acct, t, l, chain, targetName, kind, orDraft);
    NodeAsSearched(acct, t, link, parentNodeKR, targetName, kind);
    if Passes(link.state, orDraft) && link.kind == Folder && OpenNode(acct, link, parentNodeKR).Ok? {
      ChildrenSearchIsScan(acct, t, l, OpenNode(acct, link, parentNodeKR).value, link, chain, l[link.linkId],
                           targetName, kind, orDraft);
    }
  }

  lemma {:induction false} ChildrenSearchIsScan(
      acct: Account, t: Tree, l: Listing, linkKR: KeyRing, link: Link, chain: seq<LinkId>, kids: seq<LinkId>,
      targetName: string, kind: LinkType, orDraft: bool)
    requires WellKeyed(t) && Acyclic(t) && ListingOf(t, l)
    requires chain != [] && Last(chain) == link.linkId && link.linkId in t && t[link.linkId] == link
    requires Listable(t, chain, kids)
    requires ResolveById(acct, t, link.linkId) == Ok(linkKR)
    requires Visible(t, chain, orDraft, -1) && link.kind == Folder
    ensures SearchChildren(acct, t, l, linkKR, link, kids, targetName, kind, orDraft)
            == SearchScan(acct, t, VisibleBelow(t, l, chain, kids, orDraft), targetName, kind)
    decreases Height(t, link.linkId), 0, |kids|
  {
    if kids != [] {
      assert kids[0] in kids;
      var longer := chain + [kids[0]];
      assert Last(longer) == kids[0];
      VisibleChild(t, chain, kids[0], orDraft, -1);
      SearchIsScan(acct, t, l, linkKR, t[kids[0]], longer, targetName, kind, orDraft);
      ChildrenSearchIsScan(acct, t, l, linkKR, link, chain, kids[1..], targetName, kind, orDraft);
      ShownAppend(t, PreOrder(t, l, longer), PreOrderBelow(t, l, chain, kids[1..]), orDraft, -1);
      SearchScanAppend(acct, t, VisibleFrom(t, l, longer, orDraft), VisibleBelow(t, l, chain, kids[1..], orDraft),
                       targetName, kind);
    }
  }

  /** `SearchByNameRecursively`, resolving the start with the plain resolver, which the cached one refines. */
  function SearchByNameRecursively(acct: Account, t: Tree, l: Listing, folderLink: Link, targetName: string,
                                   isFolder: bool, orDraft: bool): Result<Option<Link>>
    requires WellKeyed(t) && Acyclic(t) && ListingOf(t, l)
    requires folderLink.linkId in t && t[folderLink.linkId] == folderLink
  {
    if folderLink.kind != Folder then Err(LinkMustBeFolder)
    else
      match ResolveById(acct, t, folderLink.parentId)
      case Err(e) => Err(e)
      case Ok(parentKR) =>
        PerformSearch(acct, t, l, parentKR, folderLink, targetName, if isFolder then Folder else File, orDraft)
  }

  lemma VisibleFromIs(t: Tree, l: Listing, start: LinkId, orDraft: bool)
    requires Acyclic(t) && ListingOf(t, l) && start in t
    ensures VisibleFrom(t, l, [start], orDraft) == Shown(t, PreOrder(t, l, [start]), orDraft, -1)
  {
  }

  lemma ShownChain(t: Tree, l: Listing, start: LinkId, orDraft: bool, c: seq<LinkId>)
    requires Acyclic(t) && ListingOf(t, l) && Complete(t, l) && start in t
    ensures c in VisibleFrom(t, l, [start], orDraft) <==>
            c != [] && Shows(t, start, Last(c), orDraft, -1) && c == ChainTo(t, start, Last(c))
  {
    hide Visible, Shows, InSubtree, PreOrder, Shown;
    VisibleFromIs(t, l, start, orDraft);
    ShownIsVisibleNodes(t, l, start, orDraft, -1, c);
    if c != [] {
      VisibleIff(t, start, Last(c), orDraft, -1);
    }
  }

  lemma VisibleOrdered(t: Tree, l: Listing, start: LinkId, orDraft: bool)
    requires Acyclic(t) && ListingOf(t, l) && start in t
    ensures Ordered(l, VisibleFrom(t, l, [start], orDraft))
  {
    hide Ordered, PreOrder, Shown;
    PreOrderOrdered(t, l, [start]);
    ShownOrdered(t, l, PreOrder(t, l, [start]), orDraft, -1);
    VisibleFromIs(t, l, start, orDraft);
  }

  /** A link of the name and kind sought. */
  ghost predicate Sought(acct: Account, t: Tree, id: LinkId, targetName: string, kind: LinkType)
    requires Acyclic(t) && id in t
  {
    t[id].kind == kind && NameOf(acct, t, id) == Ok(targetName)
  }

  /** A node that is not sought and does not stop the search: its name reads, and if it is a folder, it opens. */
  ghost predicate PassedOver(acct: Account, t: Tree, id: LinkId, targetName: string, kind: LinkType)
    requires Acyclic(t) && id in t
  {
    && NameOf(acct, t, id).Ok? && !Sought(acct, t, id, targetName, kind)
    && (t[id].kind == Folder ==> ResolveById(acct, t, id).Ok?)
  }

  /** A node that stops the search with an error: its name does not read, or it is a folder that is not sought and does
      not open. */
  ghost predicate StopsWith(acct: Account, t: Tree, id: LinkId, targetName: string, kind: LinkType, e: Error)
    requires Acyclic(t) && id in t
  {
    || NameOf(acct, t, id) == Err(e)
    || (&& NameOf(acct, t, id).Ok? && !Sought(acct, t, id, targetName, kind)
        && t[id].kind == Folder && ResolveById(acct, t, id) == Err(e))
  }

  lemma SearchNodeCases(acct: Account, t: Tree, id: LinkId, targetName: string, kind: LinkType)
    requires Acyclic(t) && id in t
    ensures var r := SearchNode(acct, t, id, targetName, kind);
            && (r == Ok(None) <==> PassedOver(acct, t, id, targetName, kind))
            && (r.Ok? && r.value.Some? ==> Sought(acct, t, id, targetName, kind) && r.value.value == t[id])
            && (r.Err? ==> StopsWith(acct, t, id, targetName, kind, r.error))
  {
  }

  /** The first node of the pass that has an outcome gives the result. */
  ghost predicate Decides(acct: Account, t: Tree, chains: seq<seq<LinkId>>, i: nat, targetName: string, kind: LinkType,
                          r: Result<Option<Link>>)
    requires Acyclic(t) && InTree(t, chains)
  {
    && i < |chains| && SearchNode(acct, t, Last(chains[i]), targetName, kind) == r
    && forall j | 0 <= j < i :: SearchNode(acct, t, Last(chains[j]), targetName, kind) == Ok(None)
  }

  lemma {:induction false} ScanDecided(acct: Account, t: Tree, chains: seq<seq<LinkId>>, targetName: string,
                                       kind: LinkType)
    requires Acyclic(t) && InTree(t, chains)
    ensures var r := SearchScan(acct, t, chains, targetName, kind);
            if r == Ok(None)
            then forall i | 0 <= i < |chains| :: SearchNode(acct, t, Last(chains[i]), targetName, kind) == Ok(None)
            else exists i :: Decides(acct, t, chains, i, targetName, kind, r)
  {
    hide SearchNode;
    if chains != [] {
      assert chains[0] in chains && forall c | c in chains[1..] :: c in chains;
      ScanDecided(acct, t, chains[1..], targetName, kind);
      assert forall i | 0 <= i < |chains| - 1 :: chains[1..][i] == chains[i + 1];
      var r := SearchScan(acct, t, chains, targetName, kind);
      if r != Ok(None) {
        if SearchNode(acct, t, Last(chains[0]), targetName, kind) == Ok(None) {
          var i: nat :| Decides(acct, t, chains[1..], i, targetName, kind, r);
          assert Decides(acct, t, chains, i + 1, targetName, kind, r);
        } else {
          assert Decides(acct, t, chains, 0, targetName, kind, r);
        }
      }
    }
  }

  lemma ShownAt(t: Tree, l: Listing, start: LinkId, orDraft: bool, id: LinkId) returns (i: nat)
    requires Acyclic(t) && ListingOf(t, l) && Complete(t, l) && start in t && Shows(t, start, id, orDraft, -1)
    ensures i < |VisibleFrom(t, l, [start], orDraft)| && VisibleFrom(t, l, [start], orDraft)[i] == ChainTo(t, start, id)
  {
    hide VisibleFrom, Shows;
    var chains := VisibleFrom(t, l, [start], orDraft);
    ShownChain(t, l, start, orDraft, ChainTo(t, start, id));
    i :| 0 <= i < |chains| && chains[i] == ChainTo(t, start, id);
  }

  /** A pass without an outcome has passed over every node. */
  lemma NothingSought(acct: Account, t: Tree, l: Listing, start: LinkId, targetName: string, kind: LinkType,
                      orDraft: bool)
    requires Acyclic(t) && ListingOf(t, l) && Complete(t, l) && start in t
    requires var chains := VisibleFrom(t, l, [start], orDraft);
             forall i | 0 <= i < |chains| :: SearchNode(acct, t, Last(chains[i]), targetName, kind) == Ok(None)
    ensures forall id | Shows(t, start, id, orDraft, -1) :: PassedOver(acct, t, id, targetName, kind)
  {
    hide VisibleFrom, Shows, SearchNode, PassedOver, InSubtree;
    forall id | Shows(t, start, id, orDraft, -1) ensures PassedOver(acct, t, id, targetName, kind) {
      var i := ShownAt(t, l, start, orDraft, id);
      SearchNodeCases(acct, t, id, targetName, kind);
    }
  }

  /** The node that decides is to be shown, and every other one to be shown is passed over or comes later. */
  lemma DecidingNode(acct: Account, t: Tree, l: Listing, start: LinkId, targetName: string, kind: LinkType,
                     orDraft: bool, i: nat, r: Result<Option<Link>>) returns (id: LinkId)
    requires Acyclic(t) && ListingOf(t, l) && Complete(t, l) && start in t
    requires Decides(acct, t, VisibleFrom(t, l, [start], orDraft), i, targetName, kind, r)
    ensures Shows(t, start, id, orDraft, -1) && SearchNode(acct, t, id, targetName, kind) == r
    ensures forall x | Shows(t, start, x, orDraft, -1) && x != id ::
              PassedOver(acct, t, x, targetName, kind) || Before(l, ChainTo(t, start, id), ChainTo(t, start, x))
  {
    hide VisibleFrom, Shows, SearchNode, PassedOver, InSubtree, Before, ChainTo;
    var chains := VisibleFrom(t, l, [start], orDraft);
    assert chains[i] in chains;
    ShownChain(t, l, start, orDraft, chains[i]);
    VisibleOrdered(t, l, start, orDraft);
    id := Last(chains[i]);
    forall x | Shows(t, start, x, orDraft, -1) && x != id
      ensures PassedOver(acct, t, x, targetName, kind) || Before(l, ChainTo(t, start, id), ChainTo(t, start, x))
    {
      var j := ShownAt(t, l, start, orDraft, x);
      SearchNodeCases(acct, t, x, targetName, kind);
    }
  }

  lemma StartVisible(t: Tree, start: LinkId, orDraft: bool)
    requires start in t
    ensures Visible(t, [start], orDraft, -1) <==> Passes(t[start].state, orDraft)
  {
    if Visible(t, [start], orDraft, -1) {
      assert [start][0] == start;
    }
  }

  /** Every node to be shown is passed over, but for `id` and those that come after it. */
  ghost predicate FirstNotPassed(acct: Account, t: Tree, l: Listing, start: LinkId, id: LinkId, targetName: string,
                                 kind: LinkType, orDraft: bool)
    requires Acyclic(t)
  {
    && Shows(t, start, id, orDraft, -1)
    && forall x | Shows(t, start, x, orDraft, -1) && x != id ::
         PassedOver(acct, t, x, targetName, kind) || Before(l, ChainTo(t, start, id), ChainTo(t, start, x))
  }

  /** The search goes through the nodes to be shown, in pre-order. If it can pass over all of them it returns nothing.
      Else the first one that it cannot decides: it is returned if it is the one sought, and otherwise it stops the
      search. Before it begins, a start that is no folder, or whose parent does not resolve, is an error. */
  lemma SearchFindsFirst(acct: Account, t: Tree, l: Listing, folderLink: Link, targetName: string, isFolder: bool,
                         orDraft: bool)
    requires WellKeyed(t) && Acyclic(t) && ListingOf(t, l) && Complete(t, l)
    requires folderLink.linkId in t && t[folderLink.linkId] == folderLink
    ensures var r := SearchByNameRecursively(acct, t, l, folderLink, targetName, isFolder, orDraft);
            var start, kind := folderLink.linkId, if isFolder then Folder else File;
            var parentKR := ResolveById(acct, t, folderLink.parentId);
            if folderLink.kind == File then r == Err(LinkMustBeFolder)
            else if parentKR.Err? then r == Err(parentKR.error)
            else if r == Ok(None)
            then forall id | Shows(t, start, id, orDraft, -1) :: PassedOver(acct, t, id, targetName, kind)
            else if r.Ok?
            then
              && var found := r.value.value;
              && FirstNotPassed(acct, t, l, start, found.linkId, targetName, kind, orDraft)
              && found == t[found.linkId] && Sought(acct, t, found.linkId, targetName, kind)
            else
              exists id ::
                && FirstNotPassed(acct, t, l, start, id, targetName, kind, orDraft)
                && StopsWith(acct, t, id, targetName, kind, r.error)
  {
    hide Shows, Visible, Passes, VisibleFrom, PassedOver, Sought, StopsWith, NameOf, ResolveById, PerformSearch,
      PreOrder, Shown, SearchScan, SearchNode, InSubtree, ChainTo, Before, Decides;
    var r := SearchByNameRecursively(acct, t, l, folderLink, targetName, isFolder, orDraft);
    var start, kind := folderLink.linkId, if isFolder then Folder else File;
    var parentKR := ResolveById(acct, t, folderLink.parentId);
    if folderLink.kind == Folder && parentKR.Ok? {
      StartVisible(t, start, orDraft);
      SearchIsScan(acct, t, l, parentKR.value, folderLink, [start], targetName, kind, orDraft);
      ScanDecided(acct, t, VisibleFrom(t, l, [start], orDraft), targetName, kind);
      if r == Ok(None) {
        NothingSought(acct, t, l, start, targetName, kind, orDraft);
      } else {
        var i: nat :| Decides(acct, t, VisibleFrom(t, l, [start], orDraft), i, targetName, kind, r);
        var id := DecidingNode(acct, t, l, start, targetName, kind, orDraft, i, r);
        SearchNodeCases(acct, t, id, targetName, kind);
      }
    }
  }
}
