/** The block loop of an upload: it reads a stream in blocks, seals them, and sends them in batches. */
module BlockUpload {
  import opened Wrappers
  import opened Crypto
  import opened Blocks

  /** What becomes of one batch. `LinksReturned` is the answer to the request, then the outcome of the
      concurrent uploads: the positions in the batch that were stored, and the error the collector reports. */
  datatype BatchFate =
    | RequestFailed(reason: Error)
    | LinksReturned(count: nat, stored: set<nat>, failure: Option<Error>)

  predicate Uneventful(fate: BatchFate, n: nat) {
    fate.LinksReturned? && fate.count == n && fate.failure == None
  }

  /** The concurrent part reports success only if every block was stored; proved in module UploadWorkers. */
  ghost predicate Possible(fate: BatchFate, n: nat) {
    Uneventful(fate, n) ==> forall k | 0 <= k < n :: k in fate.stored
  }

  datatype ReadEnd = Full | AtEOF | Unexpected | Other(error: Error)

  /** The two errors that the loop takes for the end of the content. */
  predicate EndsCleanly(ending: Error) {
    ending == EndOfFile || ending == UnexpectedEndOfFile
  }

  /** A stream under `io.ReadFull`. `ending` is what its reader reports once the content is used up: the end of file,
      or any other error if the stream breaks off there. */
  class Source {
    const content: seq<Byte>
    const ending: Error
    var pos: nat

    ghost predicate Valid()
      reads this
    {
      pos <= |content|
    }

    constructor (content: seq<Byte>, ending: Error)
      ensures Valid() && pos == 0 && this.content == content && this.ending == ending
    {
      this.content := content;
      this.ending := ending;
      pos := 0;
    }

    /** A short piece turns an end of file into an unexpected one; any other error passes through as it is. */
    method ReadFull(n: nat) returns (data: seq<Byte>, end: ReadEnd)
      requires Valid()
      modifies this
      ensures Valid() && pos == old(pos) + |data|
      ensures data == content[old(pos)..pos]
      ensures |data| == if |content| - old(pos) < n then |content| - old(pos) else n
      ensures end.Full? <==> |data| == n
      ensures end.AtEOF? <==> data == [] && n > 0 && ending == EndOfFile
      ensures end.Unexpected? <==>
                |data| < n && (ending == UnexpectedEndOfFile || (ending == EndOfFile && data != []))
      ensures end.Other? ==> end.error == ending && !EndsCleanly(ending)
    {
      var k := if |content| - pos < n then |content| - pos else n;
      data := content[pos..pos + k];
      pos := pos + k;
      if k == n {
        end := Full;
      } else if ending == EndOfFile {
        end := if k == 0 then AtEOF else Unexpected;
      } else if ending == UnexpectedEndOfFile {
        end := Unexpected;
      } else {
        end := Other(ending);
      }
    }
  }

  function Infos(blocks: seq<Block>): seq<BlockUploadInfo> {
    seq(|blocks|, k requires 0 <= k < |blocks| => blocks[k].info)
  }

  function Requests(batches: seq<seq<Block>>): seq<seq<BlockUploadInfo>> {
    seq(|batches|, k requires 0 <= k < |batches| => Infos(batches[k]))
  }

  function ToSet<T>(s: seq<T>): set<T> {
    set x | x in s
  }

  /** The server's side of one draft revision: the requests it answered and the blocks it holds. */
  class RevisionStore {
    const fateOf: nat -> BatchFate
    var requests: seq<seq<BlockUploadInfo>>
    var stored: set<Block>

    ghost predicate Valid() {
      forall k, n :: Possible(fateOf(k), n)
    }

    constructor (fateOf: nat -> BatchFate)
      requires forall k, n :: Possible(fateOf(k), n)
      ensures Valid() && requests == [] && stored == {} && this.fateOf == fateOf
    {
      this.fateOf := fateOf;
      requests := [];
      stored := {};
    }

    /** `uploadPendingBlocks`, the caller clearing `pending`. */
    method UploadPendingBlocks(pending: seq<Block>) returns (r: Option<Error>)
      requires Valid()
      modifies this
      ensures pending == [] ==> r == None && requests == old(requests)
      ensures pending != [] ==> requests == old(requests) + [Infos(pending)]
      ensures pending != [] ==> (r == None <==> Uneventful(fateOf(|old(requests)|), |pending|))
      ensures r == None ==> stored == old(stored) + ToSet(pending)
      ensures old(stored) <= stored <= old(stored) + ToSet(pending)
    {
      if pending == [] {
        return None;
      }
      var fate := fateOf(|requests|);
      requests := requests + [Infos(pending)];
      if fate.RequestFailed? {
        return Some(fate.reason);
      }
      if fate.count != |pending| {
        return Some(BatchCardinality);
      }
      var arrived := set k | k in fate.stored && k < |pending| :: pending[k];
      assert Possible(fate, |pending|);
      assert fate.failure == None ==> arrived == ToSet(pending);
      stored := stored + arrived;
      return fate.failure;
    }
  }

  datatype BlockData = BlockData(manifest: seq<Digest>, totalFileSize: int, blockSizes: seq<int>, hashed: seq<Byte>)

  function Manifest(blocks: seq<Block>): seq<Digest> {
    seq(|blocks|, k requires 0 <= k < |blocks| => blocks[k].info.hash)
  }

  // ---- where the loop stands

  /** `read` are the pieces taken so far and the stream stands at `pos`. */
  ghost predicate Reading(content: seq<Byte>, size: nat, pos: nat, read: seq<seq<Byte>>) {
    && size > 0
    && pos <= |content|
    && Split(content, size) == read + Split(content[pos..], size)
    && Flatten(read) == content[..pos]
  }

  /** Of the blocks made so far, `flushed` went in full batches and `pending` waits. */
  ghost predicate Batched(made: seq<Block>, flushed: seq<seq<Block>>, pending: seq<Block>, batch: nat) {
    && made == Flatten(flushed) + pending
    && |pending| <= batch
    && (forall k | 0 <= k < |flushed| :: |flushed[k]| == batch)
  }

  /** The server holds exactly the flushed blocks, after exactly the requests for them. */
  ghost predicate Flushed(requests: seq<seq<BlockUploadInfo>>, stored: set<Block>, flushed: seq<seq<Block>>) {
    && requests == Requests(flushed)
    && stored == ToSet(Flatten(flushed))
  }

  lemma ReadStep(content: seq<Byte>, size: nat, pos: nat, read: seq<seq<Byte>>, data: seq<Byte>)
    requires Reading(content, size, pos, read) && pos < |content|
    requires pos + |data| <= |content| && data == content[pos..pos + |data|]
    requires |data| == if |content| - pos < size then |content| - pos else size
    ensures Reading(content, size, pos + |data|, read + [data])
  {
    SplitStep(content[pos..], size);
    assert content[pos..][..|data|] == data && content[pos..][|data|..] == content[pos + |data|..];
    var rest := Split(content[pos + |data|..], size);
    assert read + ([data] + rest) == (read + [data]) + rest;
    FlattenAppend(read, [data]);
    assert Flatten([data]) == data;
    assert content[..pos] + data == content[..pos + |data|];
  }

  lemma SealStep(keys: RevisionKeys, read: seq<seq<Byte>>, data: seq<Byte>)
    ensures Lengths(read + [data]) == Lengths(read) + [|data|]
    ensures var block := Seal(keys, |read| + 1, data);
            && SealAll(keys, read + [data]) == SealAll(keys, read) + [block]
            && Manifest(SealAll(keys, read + [data])) == Manifest(SealAll(keys, read)) + [block.info.hash]
  {
  }

  lemma {:induction false} FlattenFull<T>(full: seq<seq<T>>, n: nat)
    requires forall k | 0 <= k < |full| :: |full[k]| == n
    ensures |Flatten(full)| == |full| * n
  {
    if full != [] {
      FlattenFull(full[1..], n);
    }
  }

  /** The loop's test on the block counter fires exactly when the pending batch is full. */
  lemma FlushTest(made: seq<Block>, flushed: seq<seq<Block>>, pending: seq<Block>, batch: nat)
    requires Batched(made, flushed, pending, batch) && batch > 0 && pending != []
    ensures |made| % batch == 0 <==> |pending| == batch
  {
    FlattenFull(flushed, batch);
    if |pending| == batch {
      DivUnique(|made|, batch, |flushed| + 1, 0);
    } else {
      DivUnique(|made|, batch, |flushed|, |pending|);
    }
  }

  lemma FlushStep(made: seq<Block>, flushed: seq<seq<Block>>, pending: seq<Block>, batch: nat)
    requires Batched(made, flushed, pending, batch)
    ensures made == Flatten(flushed + [pending])
    ensures Requests(flushed + [pending]) == Requests(flushed) + [Infos(pending)]
    ensures ToSet(Flatten(flushed + [pending])) == ToSet(Flatten(flushed)) + ToSet(pending)
  {
    FlattenAppend(flushed, [pending]);
    assert Flatten([pending]) == pending;
  }

  lemma BatchesInOrder(made: seq<Block>, flushed: seq<seq<Block>>, pending: seq<Block>, batch: nat, rest: seq<Block>)
    requires Batched(made, flushed, pending, batch) && batch > 0 && pending != []
    requires |pending| == batch || rest == []
    ensures flushed + [pending] <= Split(made + rest, batch)
    ensures rest == [] ==> flushed + [pending] == Split(made + rest, batch)
  {
    assert made + rest == Flatten(flushed) + (pending + rest);
    SplitAfterFull(flushed, pending + rest, batch);
    SplitStep(pending + rest, batch);
    if rest == [] {
      assert pending + rest == pending && pending[|pending|..] == [];
    } else {
      assert (pending + rest)[..batch] == pending;
    }
  }

  /** The blocks still to be read go behind the ones already made. */
  lemma SealRest(keys: RevisionKeys, read: seq<seq<Byte>>, tail: seq<seq<Byte>>) returns (rest: seq<Block>)
    ensures SealAll(keys, read + tail) == SealAll(keys, read) + rest && |rest| == |tail|
  {
    rest := SealAll(keys, read + tail)[|read|..];
    assert forall k | 0 <= k < |read| :: (read + tail)[k] == read[k];
  }

  // ---- the loop

  /** One upload: what to seal with, what to send, and the two sizes. */
  datatype Job = Job(keys: RevisionKeys, content: seq<Byte>, size: nat, batch: nat) {
    ghost predicate Valid() {
      size > 0 && batch > 0
    }

    function Pieces(): seq<seq<Byte>>
      requires Valid()
    {
      Split(content, size)
    }

    /** All blocks, numbered from 1. */
    function Blocks(): seq<Block>
      requires Valid()
    {
      SealAll(keys, Pieces())
    }

    /** The batches the job is due to send. */
    function Batches(): seq<seq<Block>>
      requires Valid()
    {
      Split(Blocks(), batch)
    }
  }

  /** How far the loop has come: the stream stands at `pos`, `read` are the pieces taken, and of the blocks made
      of them `flushed` went out and `pending` waits. */
  datatype Progress = Progress(pos: nat, read: seq<seq<Byte>>, flushed: seq<seq<Block>>, pending: seq<Block>)

  ghost predicate AllUneventful<T>(fateOf: nat -> BatchFate, batches: seq<seq<T>>) {
    forall k | 0 <= k < |batches| :: Uneventful(fateOf(k), |batches[k]|)
  }

  ghost predicate Along(job: Job, p: Progress) {
    && job.Valid()
    && Reading(job.content, job.size, p.pos, p.read)
    && Batched(SealAll(job.keys, p.read), p.flushed, p.pending, job.batch)
    && (p.read != [] ==> CanSeal(job.keys))
  }

  /** The server's view: it has answered and stored the flushed batches, and nothing else. */
  ghost predicate Sent(store: RevisionStore, flushed: seq<seq<Block>>)
    reads store
  {
    && store.Valid()
    && Flushed(store.requests, store.stored, flushed)
    && AllUneventful(store.fateOf, flushed)
  }

  /** Whatever has been sent is a beginning of what is due. */
  ghost predicate OnCourse(store: RevisionStore, job: Job)
    requires job.Valid()
    reads store
  {
    store.requests <= Requests(job.Batches()) && store.stored <= ToSet(job.Blocks())
  }

  /** The values the loop accumulates. */
  ghost predicate Tallied(job: Job, p: Progress, data: BlockData) {
    && p.pos <= |job.content|
    && data == BlockData(Manifest(SealAll(job.keys, p.read)), p.pos, Lengths(p.read), job.content[..p.pos])
  }

  lemma DueFrom(job: Job, p: Progress)
    requires Along(job, p)
    ensures p.flushed <= job.Batches()
    ensures p.pending != [] && (|p.pending| == job.batch || p.pos == |job.content|)
            ==> p.flushed + [p.pending] <= job.Batches()
    ensures p.pos == |job.content| ==> job.Batches() == p.flushed + (if p.pending == [] then [] else [p.pending])
    ensures p.pos == |job.content| ==> p.read == job.Pieces()
    ensures ToSet(Flatten(p.flushed)) + ToSet(p.pending) <= ToSet(job.Blocks())
  {
    var tail := Split(job.content[p.pos..], job.size);
    var rest := SealRest(job.keys, p.read, tail);
    var made := SealAll(job.keys, p.read);
    assert made + rest == Flatten(p.flushed) + (p.pending + rest);
    SplitAfterFull(p.flushed, p.pending + rest, job.batch);
    if p.pending != [] && (|p.pending| == job.batch || p.pos == |job.content|) {
      BatchesInOrder(made, p.flushed, p.pending, job.batch, rest);
    }
  }

  lemma {:induction false} FlattenRequests(batches: seq<seq<Block>>)
    ensures Flatten(Requests(batches)) == Infos(Flatten(batches))
  {
    if batches != [] {
      FlattenRequests(batches[1..]);
      assert Requests(batches)[1..] == Requests(batches[1..]);
      assert Infos(Flatten(batches)) == Infos(batches[0]) + Infos(Flatten(batches[1..]));
    }
  }

  /** What went out on success: every block exactly once, in order, numbered from 1, in full requests but for the
      last, none of them empty, under the hashes the manifest lists. */
  lemma RequestsCoverBlocksOnce(job: Job)
    requires job.Valid()
    ensures var sent := Flatten(Requests(job.Batches()));
            |sent| == |job.Blocks()| && forall k | 0 <= k < |sent| :: sent[k] == job.Blocks()[k].info
    ensures |Manifest(job.Blocks())| == |job.Blocks()| == (|job.content| + job.size - 1) / job.size
    ensures forall k | 0 <= k < |job.Blocks()| ::
              && job.Blocks()[k].info.index == k + 1
              && job.Blocks()[k].info.hash == Manifest(job.Blocks())[k]
              && job.Blocks()[k].info.hash == Digest(Cipher(job.keys.session, job.Pieces()[k]))
              && 0 < |job.Pieces()[k]| <= job.size
              && (k < |job.Blocks()| - 1 ==> |job.Pieces()[k]| == job.size)
    ensures forall k | 0 <= k < |job.Batches()| ::
              && 0 < |Requests(job.Batches())[k]| <= job.batch
              && (k < |job.Batches()| - 1 ==> |Requests(job.Batches())[k]| == job.batch)
    ensures Flatten(job.Pieces()) == job.content && Sum(Lengths(job.Pieces())) == |job.content|
  {
    SplitShape(job.content, job.size);
    SplitJoins(job.content, job.size);
    SumLengths(job.Pieces());
    SplitShape(job.Blocks(), job.batch);
    SplitJoins(job.Blocks(), job.batch);
    FlattenRequests(job.Batches());
  }

  lemma ValidJob(job: Job)
    requires job.size > 0 && job.batch > 0
    ensures job.Valid()
  {
  }

  lemma {:induction false} SplitLengths<S, T>(a: seq<S>, b: seq<T>, n: nat)
    requires n > 0 && |a| == |b|
    ensures |Split(a, n)| == |Split(b, n)|
    ensures forall k | 0 <= k < |Split(a, n)| :: |Split(a, n)[k]| == |Split(b, n)[k]|
  {
    if |a| > n {
      SplitLengths(a[n..], b[n..], n);
    }
  }

  /** How the blocks fall into batches does not depend on what they are sealed with. */
  lemma SameBatching(job: Job, fateOf: nat -> BatchFate)
    requires job.Valid()
    ensures AllUneventful(fateOf, job.Batches()) <==> AllUneventful(fateOf, Split(job.Pieces(), job.batch))
    ensures job.Pieces() == Split(job.content, job.size)
  {
    SplitLengths(job.Blocks(), job.Pieces(), job.batch);
  }

  lemma EndsCleanlyMeans(ending: Error)
    ensures EndsCleanly(ending) <==> ending == EndOfFile || ending == UnexpectedEndOfFile
  {
  }

  lemma AtStart(job: Job, store: RevisionStore)
    requires job.Valid() && store.Valid() && store.requests == [] && store.stored == {}
    ensures Along(job, Progress(0, [], [], [])) && Sent(store, [])
    ensures Tallied(job, Progress(0, [], [], []), BlockData([], 0, [], []))
    ensures OnCourse(store, job)
  {
    assert job.content[0..] == job.content;
  }

  /** With the stream at its end and everything flushed, the job is done. */
  lemma AtEnd(job: Job, p: Progress, totals: BlockData, store: RevisionStore)
    requires Along(job, p) && p.pos == |job.content| && Tallied(job, p, totals)
    requires Sent(store, if p.pending == [] then p.flushed else p.flushed + [p.pending])
    ensures totals == BlockData(Manifest(job.Blocks()), |job.content|, Lengths(job.Pieces()), job.content)
    ensures store.requests == Requests(job.Batches()) && store.stored == ToSet(job.Blocks())
    ensures AllUneventful(store.fateOf, job.Batches())
    ensures job.content == [] || CanSeal(job.keys)
  {
    DueFrom(job, p);
    FlushStep(job.Blocks(), p.flushed, p.pending, job.batch);
    if p.read == [] {
      SplitJoins(job.content, job.size);
    }
    assert p.pending == [] ==> Flatten(p.flushed) + p.pending == Flatten(p.flushed);
  }

  /** The test that opens a turn of the loop asks for a flush exactly when the pending batch is full. */
  lemma FlushDue(job: Job, p: Progress)
    requires Along(job, p) && (p.pending == [] ==> p.read == [])
    ensures |p.read| > 0 && |p.read| % job.batch == 0 <==> |p.pending| == job.batch
    ensures |p.pending| <= job.batch
  {
    if p.pending != [] {
      FlushTest(SealAll(job.keys, p.read), p.flushed, p.pending, job.batch);
      assert |p.read| == |SealAll(job.keys, p.read)| >= |p.pending|;
    }
  }

  lemma Flushing(job: Job, p: Progress)
    requires Along(job, p) && |p.pending| == job.batch
    ensures var p' := p.(flushed := p.flushed + [p.pending], pending := []);
            && Along(job, p')
            && forall totals :: Tallied(job, p, totals) ==> Tallied(job, p', totals)
  {
    FlushStep(SealAll(job.keys, p.read), p.flushed, p.pending, job.batch);
  }

  lemma OnCourseSoFar(store: RevisionStore, job: Job, p: Progress)
    requires Along(job, p) && Sent(store, p.flushed)
    ensures OnCourse(store, job)
  {
    DueFrom(job, p);
  }

  /** One piece is read, sealed and put behind the pending blocks. */
  lemma TakeBlock(job: Job, p: Progress, data: seq<Byte>, totals: BlockData)
    requires Along(job, p) && CanSeal(job.keys) && |p.pending| < job.batch
    requires Tallied(job, p, totals)
    requires p.pos < |job.content|
    requires |data| == if |job.content| - p.pos < job.size then |job.content| - p.pos else job.size
    requires data == job.content[p.pos..p.pos + |data|]
    ensures var block := Seal(job.keys, |p.read| + 1, data);
            var p' := Progress(p.pos + |data|, p.read + [data], p.flushed, p.pending + [block]);
            var totals' := BlockData(totals.manifest + [block.info.hash], totals.totalFileSize + |data|,
                                     totals.blockSizes + [|data|], totals.hashed + data);
            Along(job, p') && Tallied(job, p', totals')
  {
    ReadStep(job.content, job.size, p.pos, p.read, data);
    SealStep(job.keys, p.read, data);
    assert job.content[..p.pos] + data == job.content[..p.pos + |data|];
    var block := Seal(job.keys, |p.read| + 1, data);
    assert Flatten(p.flushed) + (p.pending + [block]) == (Flatten(p.flushed) + p.pending) + [block];
  }

  lemma FlushOutcome(job: Job, p: Progress, store: RevisionStore,
                     requests: seq<seq<BlockUploadInfo>>, stored: set<Block>, r: Option<Error>)
    requires Along(job, p) && (|p.pending| == job.batch || p.pos == |job.content|)
    requires store.Valid() && Flushed(requests, stored, p.flushed) && AllUneventful(store.fateOf, p.flushed)
    requires p.pending == [] ==> r == None && store.requests == requests
    requires p.pending != [] ==> store.requests == requests + [Infos(p.pending)]
    requires p.pending != [] ==> (r == None <==> Uneventful(store.fateOf(|requests|), |p.pending|))
    requires r == None ==> store.stored == stored + ToSet(p.pending)
    requires stored <= store.stored <= stored + ToSet(p.pending)
    ensures OnCourse(store, job)
    ensures r == None ==> Sent(store, if p.pending == [] then p.flushed else p.flushed + [p.pending])
    ensures r.Some? ==> !AllUneventful(store.fateOf, job.Batches())
  {
    DueFrom(job, p);
    FlushStep(SealAll(job.keys, p.read), p.flushed, p.pending, job.batch);
    if p.pending != [] {
      assert job.Batches()[|p.flushed|] == p.pending;
      assert store.requests == Requests(p.flushed + [p.pending]);
    }
  }

  /** A flush at one of the two places where the loop makes one: with a full batch or at the end of the stream. */
  method Flush(ghost job: Job, ghost p: Progress, store: RevisionStore, pending: seq<Block>) returns (r: Option<Error>)
    requires Along(job, p) && pending == p.pending && Sent(store, p.flushed)
    requires |pending| == job.batch || p.pos == |job.content|
    modifies store
    ensures OnCourse(store, job)
    ensures r == None ==> Sent(store, if pending == [] then p.flushed else p.flushed + [pending])
    ensures r.Some? ==> !AllUneventful(store.fateOf, job.Batches())
  {
    ghost var requests, stored := store.requests, store.stored;
    r := store.UploadPendingBlocks(pending);
    FlushOutcome(job, p, store, requests, stored, r);
  }

  /** `uploadAndCollectBlockData`. On success the blocks of the content went out, each in exactly one request, in
      consecutive full batches but for the last, and all of them are stored. It succeeds exactly when the revision
      is verified, every block can be sealed, no batch meets with an event, and the stream ends with the end of file
      or with an unexpected one: a stream cut short with the latter counts as complete. Until something goes wrong,
      only what is due was sent. */
  method UploadAndCollectBlockData(keys: Option<RevisionKeys>, verification: Option<Error>,
                                   source: Source, store: RevisionStore, size: nat, batch: nat)
    returns (r: Result<BlockData>)
    requires size > 0 && batch > 0
    requires source.Valid() && source.pos == 0
    requires store.Valid() && store.requests == [] && store.stored == {}
    modifies source, store
    ensures r.Ok? <==>
              && keys.Some? && verification == None && EndsCleanly(source.ending)
              && (source.content == [] || CanSeal(keys.value))
              && AllUneventful(store.fateOf, Split(Split(source.content, size), batch))
    ensures r.Ok? ==>
              var job := Job(keys.value, source.content, size, batch);
              && r.value == BlockData(Manifest(job.Blocks()), |source.content|, Lengths(job.Pieces()), source.content)
              && store.requests == Requests(job.Batches())
              && store.stored == ToSet(job.Blocks())
    ensures keys.Some? ==> OnCourse(store, Job(keys.value, source.content, size, batch))
    ensures keys.None? ==> store.requests == [] && store.stored == {}
  {
    hide *;
    if keys.None? {
      return Err(MissingUploadInput);
    }
    ghost var job := Job(keys.value, source.content, size, batch);
    ghost var p := Progress(0, [], [], []);
    assert job.Valid() by { ValidJob(job); }
    AtStart(job, store);
    SameBatching(job, store.fateOf);
    EndsCleanlyMeans(source.ending);
    if verification.Some? {
      return Err(verification.value);
    }
    var pending: seq<Block> := [];
    var totals := BlockData([], 0, [], []);
    var shouldContinue := true;
    var i: nat := 1;
    while shouldContinue
      invariant source.Valid() && source.pos == p.pos && pending == p.pending && i == |p.read| + 1
      invariant Along(job, p) && Sent(store, p.flushed) && (pending == [] ==> p.read == [])
      invariant Tallied(job, p, totals)
      invariant !shouldContinue ==> p.pos == |job.content| && EndsCleanly(source.ending)
      decreases |job.content| - source.pos, shouldContinue
    {
      OnCourseSoFar(store, job, p);
      FlushDue(job, p);
      if i - 1 > 0 && (i - 1) % batch == 0 {
        var err := Flush(job, p, store, pending);
        if err.Some? {
          return Err(err.value);
        }
        Flushing(job, p);
        p := p.(flushed := p.flushed + [pending], pending := []);
        pending := [];
      }

      var data, end := source.ReadFull(size);
      if end.Other? {
        return Err(end.error);
      }
      if end.AtEOF? || end.Unexpected? {
        if data == [] {
          break;
        }
        shouldContinue := false;
      }
      if !CanSeal(keys.value) {
        return Err(EmptyKeyring);
      }
      TakeBlock(job, p, data, totals);
      var block := Seal(keys.value, i, data);
      totals := BlockData(totals.manifest + [block.info.hash], totals.totalFileSize + |data|,
                          totals.blockSizes + [|data|], totals.hashed + data);
      p := Progress(source.pos, p.read + [data], p.flushed, pending + [block]);
      pending := pending + [block];
      i := i + 1;
    }
    var err := Flush(job, p, store, pending);
    if err.Some? {
      return Err(err.value);
    }
    AtEnd(job, p, totals, store);
    return Ok(totals);
  }
}
