/** What the memoising resolver finds through a cache, up to date or not: its recursion as a function, when it ends,
    and how it relates to the plain resolver. */
module CachedResolver {
  import opened Wrappers
  import opened Crypto
  import opened LinkTree
  import opened LinkCache

  /** The record the resolver reads for an ID: the cached one, else the server's. */
  function Record(t: Tree, data: Data, id: LinkId): Option<Link> {
    if id in data then Some(data[id].link) else if id in t then Some(t[id]) else None
  }

  predicate Memoised(data: Data, id: LinkId) {
    id in data && data[id].kr.Some?
  }

  /** The recursion from an ID up to a memoised keyring, the root or an ID that nobody knows, cut off after `levels`
      levels. */
  function Climb(acct: Account, t: Tree, data: Data, id: LinkId, levels: nat): Run<Result<KeyRing>>
    decreases levels
  {
    if levels == 0 then Running
    else if id == "" then Returned(Ok(acct.mainShareKR))
    else if Memoised(data, id) then Returned(Ok(data[id].kr.value))
    else if Record(t, data, id) == None then Returned(Err(NotFound))
    else
      var link := Record(t, data, id).value;
      match Climb(acct, t, data, link.parentId, levels - 1)
      case Running => Running
      case Returned(parentKR) => Returned(OpenUnder(acct, link, parentKR))
  }

  /** What the recursion returns, or that it never does. */
  ghost function Answer(acct: Account, t: Tree, data: Data, id: LinkId): Run<Result<KeyRing>> {
    if levels: nat :| Climb(acct, t, data, id, levels).Returned? then Climb(acct, t, data, id, levels) else Running
  }

  lemma {:induction false} ClimbStable(acct: Account, t: Tree, data: Data, id: LinkId, n: nat, m: nat)
    requires Climb(acct, t, data, id, n).Returned? && n <= m
    ensures Climb(acct, t, data, id, m) == Climb(acct, t, data, id, n)
    decreases n
  {
    if id != "" && !Memoised(data, id) && Record(t, data, id).Some? {
      ClimbStable(acct, t, data, Record(t, data, id).value.parentId, n - 1, m - 1);
    }
  }

  /** More levels change nothing once the recursion has returned. */
  lemma AnswerIs(acct: Account, t: Tree, data: Data, id: LinkId, n: nat)
    requires Climb(acct, t, data, id, n).Returned?
    ensures Answer(acct, t, data, id) == Climb(acct, t, data, id, n)
  {
    var m: nat :| Climb(acct, t, data, id, m).Returned? && Answer(acct, t, data, id) == Climb(acct, t, data, id, m);
    if n <= m {
      ClimbStable(acct, t, data, id, n, m);
    } else {
      ClimbStable(acct, t, data, id, m, n);
    }
  }

  // ---- when the recursion ends

  /** IDs at which the recursion goes on by at least one level and returns within `n`. */
  ghost function EndingWithin(acct: Account, t: Tree, data: Data, n: nat): set<LinkId> {
    set x | x in t.Keys + data.Keys && Climb(acct, t, data, x, n).Returned? && Climb(acct, t, data, x, 1).Running?
  }

  lemma SubsetCardinality<T>(a: set<T>, b: set<T>)
    requires a <= b
    ensures |a| <= |b|
  {
    assert b == a + (b - a);
  }

  /** An ID that needs exactly `n` levels has below it one for each smaller number. */
  lemma {:induction false} ManyEnd(acct: Account, t: Tree, data: Data, id: LinkId, n: nat)
    requires n > 0 && Climb(acct, t, data, id, n).Returned? && Climb(acct, t, data, id, n - 1).Running?
    ensures |EndingWithin(acct, t, data, n)| >= n - 1
    decreases n
  {
    if n > 1 {
      if Climb(acct, t, data, id, 1).Returned? {
        ClimbStable(acct, t, data, id, 1, n - 1);
      }
      var p := Record(t, data, id).value.parentId;
      ManyEnd(acct, t, data, p, n - 1);
      var fewer, more := EndingWithin(acct, t, data, n - 1), EndingWithin(acct, t, data, n);
      forall x | x in fewer ensures x in more {
        ClimbStable(acct, t, data, x, n - 1, n);
      }
      assert id in more && id !in fewer;
      assert fewer + {id} <= more;
      SubsetCardinality(fewer + {id}, more);
    }
  }

  lemma {:induction false} LeastLevels(acct: Account, t: Tree, data: Data, id: LinkId, n: nat) returns (m: nat)
    requires Climb(acct, t, data, id, n).Returned?
    ensures 0 < m <= n && Climb(acct, t, data, id, m).Returned? && Climb(acct, t, data, id, m - 1).Running?
    decreases n
  {
    m := n;
    if Climb(acct, t, data, id, n - 1).Returned? {
      m := LeastLevels(acct, t, data, id, n - 1);
    }
  }

  /** For every cache, whatever is out of date in it: the recursion ends exactly if it does so within as many levels as
      there are IDs that are cached or on the server, and one more. */
  lemma EndsSoonOrNever(acct: Account, t: Tree, data: Data, id: LinkId)
    ensures Answer(acct, t, data, id) == Climb(acct, t, data, id, |t.Keys + data.Keys| + 1)
  {
    var ids := t.Keys + data.Keys;
    if n: nat :| Climb(acct, t, data, id, n).Returned? {
      var m := LeastLevels(acct, t, data, id, n);
      ManyEnd(acct, t, data, id, m);
      SubsetCardinality(EndingWithin(acct, t, data, m), ids);
      ClimbStable(acct, t, data, id, m, |ids| + 1);
      AnswerIs(acct, t, data, id, m);
    }
  }

  // ---- what running the resolver does to a cache

  /** Some entries came, none left, links stayed and keyrings were only filled in. */
  ghost predicate Grown(was: Data, now: Data) {
    forall id | id in was ::
      id in now && now[id].link == was[id].link && (was[id].kr.Some? ==> now[id] == was[id])
  }

  /** What came is the server's, and what was filled in is what the recursion answers. */
  ghost predicate Advanced(acct: Account, t: Tree, was: Data, now: Data) {
    && Grown(was, now)
    && (forall id | id in now && id !in was :: id in t && now[id].link == t[id])
    && forall id | Memoised(now, id) && !Memoised(was, id) ::
         Answer(acct, t, was, id) == Returned(Ok(now[id].kr.value))
  }

  lemma AdvancedRecord(acct: Account, t: Tree, was: Data, now: Data, id: LinkId)
    requires Advanced(acct, t, was, now)
    ensures Record(t, now, id) == Record(t, was, id)
    ensures Memoised(was, id) ==> Memoised(now, id) && now[id] == was[id]
  {
  }

  /** What returned before returns alike, in no more levels. */
  lemma {:induction false} ClimbAdvanced(acct: Account, t: Tree, was: Data, now: Data, id: LinkId, n: nat)
    requires "" !in t && Advanced(acct, t, was, now) && Climb(acct, t, was, id, n).Returned?
    ensures Climb(acct, t, now, id, n) == Climb(acct, t, was, id, n)
    decreases n
  {
    AdvancedRecord(acct, t, was, now, id);
    if id != "" && Memoised(now, id) && !Memoised(was, id) {
      AnswerIs(acct, t, was, id, n);
    } else if id != "" && !Memoised(was, id) && Record(t, was, id).Some? {
      ClimbAdvanced(acct, t, was, now, Record(t, was, id).value.parentId, n - 1);
    }
  }

  /** And what returns now would have returned before, given time. */
  lemma {:induction false} ClimbBefore(acct: Account, t: Tree, was: Data, now: Data, id: LinkId, n: nat)
    requires Advanced(acct, t, was, now) && Climb(acct, t, now, id, n).Returned?
    ensures Answer(acct, t, was, id) == Climb(acct, t, now, id, n)
    decreases n
  {
    AdvancedRecord(acct, t, was, now, id);
    if id == "" || Memoised(was, id) || Record(t, was, id) == None {
      AnswerIs(acct, t, was, id, 1);
    } else if !Memoised(now, id) {
      var p := Record(t, was, id).value.parentId;
      ClimbBefore(acct, t, was, now, p, n - 1);
      var m: nat :| Climb(acct, t, was, p, m).Returned? && Climb(acct, t, was, p, m) == Answer(acct, t, was, p);
      AnswerIs(acct, t, was, id, m + 1);
    }
  }

  /** Running the resolver changes no answer. */
  lemma AdvancedAnswer(acct: Account, t: Tree, was: Data, now: Data, id: LinkId)
    requires "" !in t && Advanced(acct, t, was, now)
    ensures Answer(acct, t, now, id) == Answer(acct, t, was, id)
  {
    if n: nat :| Climb(acct, t, was, id, n).Returned? {
      ClimbAdvanced(acct, t, was, now, id, n);
      AnswerIs(acct, t, was, id, n);
      AnswerIs(acct, t, now, id, n);
    }
    if n: nat :| Climb(acct, t, now, id, n).Returned? {
      ClimbBefore(acct, t, was, now, id, n);
      AnswerIs(acct, t, now, id, n);
    }
  }

  lemma AdvancedNothing(acct: Account, t: Tree, data: Data)
    ensures Advanced(acct, t, data, data)
  {
  }

  lemma AdvancedTwice(acct: Account, t: Tree, was: Data, mid: Data, now: Data)
    requires "" !in t && Advanced(acct, t, was, mid) && Advanced(acct, t, mid, now)
    ensures Advanced(acct, t, was, now)
  {
    forall id | Memoised(now, id) && !Memoised(was, id)
      ensures Answer(acct, t, was, id) == Returned(Ok(now[id].kr.value))
    {
      AdvancedAnswer(acct, t, was, mid, id);
    }
  }

  /** A miss fetches the server's record. */
  lemma AdvancedFetch(acct: Account, t: Tree, data: Data, id: LinkId)
    requires id in t && id !in data
    ensures Advanced(acct, t, data, data[id := Entry(t[id], None)])
  {
  }

  lemma {:induction false} ClimbFetched(acct: Account, t: Tree, data: Data, x: LinkId, id: LinkId, n: nat)
    requires x in t && x !in data
    ensures Climb(acct, t, data[x := Entry(t[x], None)], id, n) == Climb(acct, t, data, id, n)
    decreases n
  {
    var now := data[x := Entry(t[x], None)];
    assert Record(t, now, id) == Record(t, data, id) && (Memoised(now, id) <==> Memoised(data, id));
    if n > 0 && Record(t, data, id).Some? {
      ClimbFetched(acct, t, data, x, Record(t, data, id).value.parentId, n - 1);
    }
  }

  /** One keyring filled in with what the recursion answered. */
  lemma AdvancedMemo(acct: Account, t: Tree, was: Data, mid: Data, id: LinkId, kr: KeyRing)
    requires Advanced(acct, t, was, mid) && id in was && was[id].kr.None?
    requires Answer(acct, t, was, id) == Returned(Ok(kr))
    ensures id in mid && Advanced(acct, t, was, mid[id := mid[id].(kr := Some(kr))])
  {
  }

  // ---- caches that are up to date

  /** Every entry repeats the server's record, and a memoised keyring is the one the plain resolver finds. */
  ghost predicate CoherentData(acct: Account, t: Tree, data: Data)
    requires Acyclic(t)
  {
    forall id | id in data ::
      && id in t
      && data[id].link == t[id]
      && (data[id].kr.Some? ==> ResolveById(acct, t, id) == Ok(data[id].kr.value))
  }

  /** Through a coherent cache the recursion returns what the plain resolver does, within the depth of the node. */
  lemma {:induction false} CoherentClimb(acct: Account, t: Tree, data: Data, id: LinkId, n: nat)
    requires WellKeyed(t) && Acyclic(t) && CoherentData(acct, t, data)
    ensures n > Depth(t, id) ==> Climb(acct, t, data, id, n).Returned?
    ensures Climb(acct, t, data, id, n).Returned? ==>
              Climb(acct, t, data, id, n) == Returned(ResolveById(acct, t, id))
    decreases n
  {
    if n > 0 && id in t {
      CoherentClimb(acct, t, data, t[id].parentId, n - 1);
      ResolveThroughParent(acct, t, t[id]);
    }
  }

  lemma CoherentAnswer(acct: Account, t: Tree, data: Data, id: LinkId)
    requires WellKeyed(t) && Acyclic(t) && CoherentData(acct, t, data)
    ensures Answer(acct, t, data, id) == Returned(ResolveById(acct, t, id))
  {
    CoherentClimb(acct, t, data, id, Depth(t, id) + 1);
    AnswerIs(acct, t, data, id, Depth(t, id) + 1);
  }

  lemma CoherentAdvanced(acct: Account, t: Tree, was: Data, now: Data)
    requires WellKeyed(t) && Acyclic(t) && CoherentData(acct, t, was) && Advanced(acct, t, was, now)
    ensures CoherentData(acct, t, now)
  {
    forall id | Memoised(now, id) ensures ResolveById(acct, t, id) == Ok(now[id].kr.value) {
      CoherentAnswer(acct, t, was, id);
    }
  }

  // ---- one record out of date

  /** The cache once the resolver has been handed a link: one that is not cached is inserted as it is. */
  function With(data: Data, link: Link): Data {
    if link.linkId in data then data else data[link.linkId := Entry(link, None)]
  }

  /** An insertion keeps the cache coherent exactly when the link inserted is the server's current record. */
  lemma InsertCoherent(acct: Account, t: Tree, data: Data, link: Link)
    requires WellKeyed(t) && Acyclic(t) && CoherentData(acct, t, data) && link.linkId !in data
    ensures CoherentData(acct, t, With(data, link)) <==> GetLink(t, link.linkId) == Ok(link)
  {
    if CoherentData(acct, t, With(data, link)) {
      assert With(data, link)[link.linkId].link == t[link.linkId];
    }
  }

  /** Climbing from `id` by the server's parents, `x` is not met before a memoised keyring ends the climb. */
  ghost predicate ClimbMisses(t: Tree, data: Data, x: LinkId, id: LinkId)
    requires Acyclic(t)
    decreases Depth(t, id)
  {
    id != x && (id in t ==> Memoised(data, id) || ClimbMisses(t, data, x, t[id].parentId))
  }

  /** If it is not met, the insertion makes no difference. */
  lemma {:induction false} MissedClimb(acct: Account, t: Tree, data: Data, link: Link, id: LinkId, n: nat)
    requires WellKeyed(t) && Acyclic(t) && CoherentData(acct, t, data) && link.linkId !in data
    requires ClimbMisses(t, data, link.linkId, id)
    ensures Climb(acct, t, With(data, link), id, n) == Climb(acct, t, data, id, n)
    decreases n
  {
    if n > 0 && id in t && !Memoised(data, id) {
      MissedClimb(acct, t, data, link, t[id].parentId, n - 1);
    }
  }

  /** If it is met, what the climb returns within `n` levels the link itself returns within `n`. */
  lemma {:induction false} MetClimb(acct: Account, t: Tree, data: Data, link: Link, id: LinkId, n: nat)
    requires WellKeyed(t) && Acyclic(t) && CoherentData(acct, t, data)
    requires link.linkId !in data && link.linkId != ""
    requires !ClimbMisses(t, data, link.linkId, id)
    requires Climb(acct, t, With(data, link), id, n).Returned?
    ensures Climb(acct, t, With(data, link), link.linkId, n).Returned?
    decreases n
  {
    if id != link.linkId {
      MetClimb(acct, t, data, link, t[id].parentId, n - 1);
      ClimbStable(acct, t, With(data, link), link.linkId, n - 1, n);
    }
  }

  /** So a link that lies above its own parent never returns. */
  lemma {:induction false} NeverReturns(acct: Account, t: Tree, data: Data, link: Link, n: nat)
    requires WellKeyed(t) && Acyclic(t) && CoherentData(acct, t, data)
    requires link.linkId !in data && link.linkId != ""
    requires !ClimbMisses(t, data, link.linkId, link.parentId)
    ensures Climb(acct, t, With(data, link), link.linkId, n).Running?
    decreases n
  {
    if n > 0 && Climb(acct, t, With(data, link), link.parentId, n - 1).Returned? {
      MetClimb(acct, t, data, link, link.parentId, n - 1);
      NeverReturns(acct, t, data, link, n - 1);
    }
  }

  /** The resolver on a link that a coherent cache does not hold, current or not: it returns exactly if climbing from
      the parent that the link names does not come back to the link, and then it opens the link as given, with the
      keyring that the plain resolver finds for that parent. */
  lemma UncachedAnswer(acct: Account, t: Tree, data: Data, link: Link)
    requires WellKeyed(t) && Acyclic(t) && CoherentData(acct, t, data)
    requires link.linkId !in data && link.linkId != ""
    ensures Answer(acct, t, With(data, link), link.linkId) ==
            if ClimbMisses(t, data, link.linkId, link.parentId)
            then Returned(OpenUnder(acct, link, ResolveById(acct, t, link.parentId))) else Running
  {
    var now := With(data, link);
    if ClimbMisses(t, data, link.linkId, link.parentId) {
      var n := Depth(t, link.parentId) + 1;
      CoherentClimb(acct, t, data, link.parentId, n);
      MissedClimb(acct, t, data, link, link.parentId, n);
      AnswerIs(acct, t, now, link.linkId, n + 1);
    } else if n: nat :| Climb(acct, t, now, link.linkId, n).Returned? {
      NeverReturns(acct, t, data, link, n);
    }
  }

  /** With nothing memoised, that is: the link is not an ancestor of the parent it names, nor that parent itself. */
  lemma {:induction false} MissesOutside(t: Tree, data: Data, x: LinkId, id: LinkId)
    requires Acyclic(t) && x in t && forall y :: !Memoised(data, y)
    ensures ClimbMisses(t, data, x, id) <==> !InSubtree(t, x, id)
    decreases Depth(t, id)
  {
    if id in t {
      MissesOutside(t, data, x, t[id].parentId);
    }
  }

  /** The server's own records always return. */
  lemma CurrentReturns(acct: Account, t: Tree, data: Data, link: Link)
    requires WellKeyed(t) && Acyclic(t) && CoherentData(acct, t, data) && GetLink(t, link.linkId) == Ok(link)
    ensures CoherentData(acct, t, With(data, link))
    ensures Answer(acct, t, With(data, link), link.linkId) == Returned(ResolveById(acct, t, link.linkId))
  {
    if link.linkId !in data {
      InsertCoherent(acct, t, data, link);
    }
    CoherentAnswer(acct, t, With(data, link), link.linkId);
  }

  /** What a coherent cache makes the resolver open for a link, in terms of the plain one. */
  function OpensTo(acct: Account, t: Tree, data: Data, link: Link): Result<KeyRing>
    requires Acyclic(t)
  {
    if link.linkId in data then ResolveById(acct, t, link.linkId)
    else OpenUnder(acct, link, ResolveById(acct, t, link.parentId))
  }

  /** Under any bound: the value if it returns, and when it does. */
  lemma BoundedAnswer(acct: Account, t: Tree, data: Data, link: Link, levels: nat)
    requires WellKeyed(t) && Acyclic(t) && CoherentData(acct, t, data) && link.linkId != ""
    ensures var r := Climb(acct, t, With(data, link), link.linkId, levels);
            var ends := link.linkId in data || ClimbMisses(t, data, link.linkId, link.parentId);
            && (r.Returned? ==> ends && r.value == OpensTo(acct, t, data, link))
            && (ends && levels > Depth(t, link.linkId) && levels > Depth(t, link.parentId) + 1 ==> r.Returned?)
  {
    if link.linkId in data {
      CoherentClimb(acct, t, data, link.linkId, levels);
    } else {
      UncachedAnswer(acct, t, data, link);
      if Climb(acct, t, With(data, link), link.linkId, levels).Returned? {
        AnswerIs(acct, t, With(data, link), link.linkId, levels);
      }
      if ClimbMisses(t, data, link.linkId, link.parentId) && levels > Depth(t, link.parentId) + 1 {
        CoherentClimb(acct, t, data, link.parentId, levels - 1);
        MissedClimb(acct, t, data, link, link.parentId, levels - 1);
      }
    }
  }
}
