/** The concurrent part of an upload: one goroutine per block, a semaphore shared by all uploads, a channel with
    room for every result of a batch, and the collector that drains it. */
module UploadWorkers {
  import opened Wrappers
  import opened BlockUpload

  /** A worker sends its result before its deferred release, so `Releasing` still holds a permit. */
  datatype Phase =
    | Waiting
    | Uploading
    | Releasing(result: Option<Error>)
    | Finished(result: Option<Error>)

  /** `log` is what the collector has received, `channel` what it has yet to receive, `stored` the blocks of the
      batch that reached the server. */
  datatype Batch = Batch(
    workers: seq<Phase>,
    channel: seq<Option<Error>>,
    log: seq<Option<Error>>,
    firstErr: Option<Error>,
    cancelled: bool,
    returned: bool,
    stored: set<nat>)

  datatype System = System(capacity: nat, free: nat, batches: seq<Batch>)

  function NewBatch(n: nat): Batch {
    Batch(seq(n, _ => Waiting), [], [], None, false, false, {})
  }

  /** `landed` says whether a block whose upload reports an error reached the server all the same. */
  datatype Event =
    | Start(n: nat)
    | Cancel(b: nat)
    | Acquire(b: nat, w: nat)
    | AcquireFails(b: nat, w: nat, reason: Error)
    | Upload(b: nat, w: nat, result: Option<Error>, landed: bool)
    | Release(b: nat, w: nat)
    | Receive(b: nat)
    | Return(b: nat)

  predicate HasWorker(s: System, b: nat, w: nat) {
    b < |s.batches| && w < |s.batches[b].workers|
  }

  predicate Enabled(s: System, e: Event) {
    match e
    case Start(_) => true
    case Cancel(b) => b < |s.batches| && !s.batches[b].cancelled
    case Acquire(b, w) => HasWorker(s, b, w) && s.batches[b].workers[w].Waiting? && s.free > 0
    case AcquireFails(b, w, _) => HasWorker(s, b, w) && s.batches[b].workers[w].Waiting? && s.batches[b].cancelled
    case Upload(b, w, result, landed) =>
      HasWorker(s, b, w) && s.batches[b].workers[w].Uploading? && (result == None ==> landed)
    case Release(b, w) => HasWorker(s, b, w) && s.batches[b].workers[w].Releasing?
    case Receive(b) =>
      b < |s.batches| && s.batches[b].channel != [] && |s.batches[b].log| < |s.batches[b].workers|
    case Return(b) =>
      b < |s.batches| && !s.batches[b].returned && |s.batches[b].log| == |s.batches[b].workers|
  }

  function ApplyBatch(batch: Batch, e: Event): Batch
    requires e.Acquire? || e.AcquireFails? || e.Upload? || e.Release? ==> e.w < |batch.workers|
    requires e.Release? ==> batch.workers[e.w].Releasing?
    requires e.Receive? ==> batch.channel != []
  {
    match e
    case Start(_) => batch
    case Cancel(_) => batch.(cancelled := true)
    case Acquire(_, w) => batch.(workers := batch.workers[w := Uploading])
    case AcquireFails(_, w, reason) =>
      batch.(workers := batch.workers[w := Finished(Some(reason))], channel := batch.channel + [Some(reason)])
    case Upload(_, w, result, landed) =>
      batch.(workers := batch.workers[w := Releasing(result)], channel := batch.channel + [result],
             stored := if landed then batch.stored + {w} else batch.stored)
    case Release(_, w) => batch.(workers := batch.workers[w := Finished(batch.workers[w].result)])
    case Receive(_) =>
      var err := batch.channel[0];
      var next := batch.(channel := batch.channel[1..], log := batch.log + [err]);
      if err.Some? && batch.firstErr == None then next.(firstErr := err, cancelled := true) else next
    case Return(_) => batch.(returned := true, cancelled := true)
  }

  function Apply(s: System, e: Event): System
    requires Enabled(s, e)
  {
    if e.Start? then s.(batches := s.batches + [NewBatch(e.n)])
    else
      var batches := s.batches[e.b := ApplyBatch(s.batches[e.b], e)];
      var free := if e.Acquire? then s.free - 1 else if e.Release? then s.free + 1 else s.free;
      s.(free := free, batches := batches)
  }

  // ---- counting

  function Total<T>(s: seq<T>, f: T -> nat): nat {
    if s == [] then 0 else f(s[0]) + Total(s[1..], f)
  }

  lemma {:induction false} TotalUpdate<T>(s: seq<T>, i: nat, x: T, f: T -> nat)
    requires i < |s|
    ensures Total(s[i := x], f) + f(s[i]) == Total(s, f) + f(x)
    ensures Total(s, f) >= f(s[i])
  {
    if i == 0 {
      assert s[0 := x][1..] == s[1..];
    } else {
      TotalUpdate(s[1..], i - 1, x, f);
      assert s[i := x][1..] == s[1..][i - 1 := x];
    }
  }

  lemma {:induction false} TotalAppend<T>(s: seq<T>, x: T, f: T -> nat)
    ensures Total(s + [x], f) == Total(s, f) + f(x)
  {
    if s == [] {
      assert (s + [x])[1..] == [];
    } else {
      TotalAppend(s[1..], x, f);
      assert (s + [x])[1..] == s[1..] + [x];
    }
  }

  /** A sum is zero exactly when each term is. */
  lemma {:induction false} TotalZero<T>(s: seq<T>, f: T -> nat)
    ensures Total(s, f) == 0 <==> forall i | 0 <= i < |s| :: f(s[i]) == 0
  {
    if s != [] {
      TotalZero(s[1..], f);
      assert forall i | 0 <= i < |s| - 1 :: s[1..][i] == s[i + 1];
      if forall i | 0 <= i < |s| :: f(s[i]) == 0 {
        assert forall i | 0 <= i < |s[1..]| :: f(s[1..][i]) == f(s[i + 1]);
      } else {
        var i :| 0 <= i < |s| && f(s[i]) != 0;
        assert i > 0 ==> s[1..][i - 1] == s[i];
      }
    }
  }

  function HoldsPermit(p: Phase): nat { if p.Uploading? || p.Releasing? then 1 else 0 }
  function Unsent(p: Phase): nat { if p.Waiting? || p.Uploading? then 1 else 0 }
  function FailedResult(p: Phase): nat { if (p.Releasing? || p.Finished?) && p.result.Some? then 1 else 0 }
  function StepsLeft(p: Phase): nat {
    if p.Waiting? then 3 else if p.Uploading? then 2 else if p.Releasing? then 1 else 0
  }

  function IsError(r: Option<Error>): nat { if r.Some? then 1 else 0 }
  function Held(b: Batch): nat { Total(b.workers, HoldsPermit) }

  // ---- collectUploadErrors

  function FirstError(results: seq<Option<Error>>): Option<Error> {
    if results == [] then None else if results[0].Some? then results[0] else FirstError(results[1..])
  }

  lemma {:induction false} FirstErrorAppend(results: seq<Option<Error>>, r: Option<Error>)
    ensures FirstError(results + [r]) == if FirstError(results).Some? then FirstError(results) else r
  {
    if results == [] {
      assert (results + [r])[1..] == [];
    } else {
      FirstErrorAppend(results[1..], r);
      assert (results + [r])[1..] == results[1..] + [r];
    }
  }

  /** It drains `count` results whatever they are, reports the first error and cancels at most once. */
  method CollectUploadErrors(errChan: seq<Option<Error>>, count: nat) returns (firstErr: Option<Error>, cancels: nat)
    requires count <= |errChan|
    ensures firstErr == FirstError(errChan[..count])
    ensures firstErr.Some? ==>
              exists k :: 0 <= k < count && errChan[k] == firstErr && forall j | 0 <= j < k :: errChan[j] == None
    ensures cancels == if firstErr.Some? then 1 else 0
    ensures firstErr == None <==> forall k | 0 <= k < count :: errChan[k] == None
  {
    firstErr, cancels := None, 0;
    for i := 0 to count
      invariant firstErr == FirstError(errChan[..i])
      invariant firstErr.Some? ==>
                  exists k :: 0 <= k < i && errChan[k] == firstErr && forall j | 0 <= j < k :: errChan[j] == None
      invariant cancels == if firstErr.Some? then 1 else 0
      invariant firstErr == None <==> forall k | 0 <= k < i :: errChan[k] == None
    {
      FirstErrorAppend(errChan[..i], errChan[i]);
      assert errChan[..i] + [errChan[i]] == errChan[..i + 1];
      var err := errChan[i];
      if err.Some? && firstErr.None? {
        firstErr := err;
        cancels := cancels + 1;
      }
    }
  }

  // ---- the invariant

  ghost predicate BatchInv(b: Batch) {
    // every worker that has sent has exactly one result, in the channel or with the collector
    && |b.log| + |b.channel| + Total(b.workers, Unsent) == |b.workers|
    && Total(b.workers, FailedResult) == Total(b.log, IsError) + Total(b.channel, IsError)
    && b.firstErr == FirstError(b.log)
    && (b.firstErr.Some? ==> b.cancelled && Total(b.log, IsError) > 0)
    && (b.firstErr == None ==> Total(b.log, IsError) == 0)
    && (b.returned ==> |b.log| == |b.workers|)
    && (forall w | 0 <= w < |b.workers| ::
          (b.workers[w].Releasing? || b.workers[w].Finished?) && b.workers[w].result == None ==> w in b.stored)
  }

  /** Permits are conserved, and each batch accounts for its results. */
  ghost predicate Inv(s: System) {
    && s.free + Total(s.batches, Held) == s.capacity
    && forall b | 0 <= b < |s.batches| :: BatchInv(s.batches[b])
  }

  lemma {:induction false} AllWaiting(n: nat)
    ensures var ws := seq<Phase>(n, _ => Waiting);
            && Total(ws, HoldsPermit) == 0 && Total(ws, Unsent) == n && Total(ws, FailedResult) == 0
            && Total(ws, StepsLeft) == 3 * n
  {
    if n > 0 {
      AllWaiting(n - 1);
      assert seq<Phase>(n, _ => Waiting)[1..] == seq<Phase>(n - 1, _ => Waiting);
    }
  }

  lemma NewBatchInv(n: nat)
    ensures BatchInv(NewBatch(n)) && Held(NewBatch(n)) == 0
    ensures Total(NewBatch(n).workers, StepsLeft) == 3 * n
  {
    AllWaiting(n);
  }

  /** One worker changes phase: what that does to the four counts over all workers. */
  lemma WorkerMoves(ws: seq<Phase>, w: nat, p: Phase)
    requires w < |ws|
    ensures Total(ws[w := p], HoldsPermit) + HoldsPermit(ws[w]) == Total(ws, HoldsPermit) + HoldsPermit(p)
    ensures Total(ws[w := p], Unsent) + Unsent(ws[w]) == Total(ws, Unsent) + Unsent(p)
    ensures Total(ws[w := p], FailedResult) + FailedResult(ws[w]) == Total(ws, FailedResult) + FailedResult(p)
    ensures Total(ws[w := p], StepsLeft) + StepsLeft(ws[w]) == Total(ws, StepsLeft) + StepsLeft(p)
  {
    TotalUpdate(ws, w, p, HoldsPermit);
    TotalUpdate(ws, w, p, Unsent);
    TotalUpdate(ws, w, p, FailedResult);
    TotalUpdate(ws, w, p, StepsLeft);
  }

  lemma AcquireStep(b: Batch, w: nat)
    requires BatchInv(b) && w < |b.workers| && b.workers[w].Waiting?
    ensures var b' := b.(workers := b.workers[w := Uploading]);
            BatchInv(b') && Held(b') == Held(b) + 1
  {
    WorkerMoves(b.workers, w, Uploading);
  }

  lemma ReleaseStep(b: Batch, w: nat)
    requires BatchInv(b) && w < |b.workers| && b.workers[w].Releasing?
    ensures var b' := b.(workers := b.workers[w := Finished(b.workers[w].result)]);
            BatchInv(b') && Held(b') == Held(b) - 1
  {
    WorkerMoves(b.workers, w, Finished(b.workers[w].result));
  }

  lemma FailStep(b: Batch, w: nat, reason: Error)
    requires BatchInv(b) && w < |b.workers| && b.workers[w].Waiting?
    ensures var b' := b.(workers := b.workers[w := Finished(Some(reason))], channel := b.channel + [Some(reason)]);
            BatchInv(b') && Held(b') == Held(b)
  {
    WorkerMoves(b.workers, w, Finished(Some(reason)));
    TotalAppend(b.channel, Some(reason), IsError);
  }

  lemma UploadStep(b: Batch, w: nat, result: Option<Error>, landed: bool)
    requires BatchInv(b) && w < |b.workers| && b.workers[w].Uploading? && (result == None ==> landed)
    ensures var b' := b.(workers := b.workers[w := Releasing(result)], channel := b.channel + [result],
                         stored := if landed then b.stored + {w} else b.stored);
            BatchInv(b') && Held(b') == Held(b)
  {
    WorkerMoves(b.workers, w, Releasing(result));
    TotalAppend(b.channel, result, IsError);
  }

  lemma ReceiveStep(b: Batch, e: Event)
    requires BatchInv(b) && e.Receive? && b.channel != [] && |b.log| < |b.workers|
    ensures BatchInv(ApplyBatch(b, e)) && Held(ApplyBatch(b, e)) == Held(b)
  {
    TotalAppend(b.log, b.channel[0], IsError);
    FirstErrorAppend(b.log, b.channel[0]);
  }

  /** One event moves one batch on: it keeps the batch's invariant, and the permits it holds change exactly as the
      semaphore's count does. */
  lemma BatchStep(s: System, e: Event)
    requires Enabled(s, e) && !e.Start? && BatchInv(s.batches[e.b])
    ensures BatchInv(ApplyBatch(s.batches[e.b], e))
    ensures Held(ApplyBatch(s.batches[e.b], e)) + Apply(s, e).free == Held(s.batches[e.b]) + s.free
  {
    match e {
      case Acquire(b, w) => AcquireStep(s.batches[b], w);
      case AcquireFails(b, w, reason) => FailStep(s.batches[b], w, reason);
      case Upload(b, w, result, landed) => UploadStep(s.batches[b], w, result, landed);
      case Release(b, w) => ReleaseStep(s.batches[b], w);
      case Receive(b) => ReceiveStep(s.batches[b], e);
      case Cancel(b) =>
      case Return(b) =>
    }
  }

  lemma ReplacedBatch(s: System, b: nat, batch: Batch, free: nat)
    requires Inv(s) && b < |s.batches| && BatchInv(batch)
    requires Held(batch) + free == Held(s.batches[b]) + s.free
    ensures Inv(s.(free := free, batches := s.batches[b := batch]))
  {
    TotalUpdate(s.batches, b, batch, Held);
  }

  lemma AddedBatch(s: System, batch: Batch)
    requires Inv(s) && BatchInv(batch) && Held(batch) == 0
    ensures Inv(s.(batches := s.batches + [batch]))
  {
    TotalAppend(s.batches, batch, Held);
  }

  /** What an event does to the system, in terms of what it does to one batch. */
  lemma ApplyCases(s: System, e: Event)
    requires Enabled(s, e)
    ensures if e.Start? then Apply(s, e) == s.(batches := s.batches + [NewBatch(e.n)])
            else
              && e.b < |s.batches| == |Apply(s, e).batches|
              && Apply(s, e).batches[e.b] == ApplyBatch(s.batches[e.b], e)
              && Apply(s, e)
                 == s.(free := Apply(s, e).free, batches := s.batches[e.b := Apply(s, e).batches[e.b]])
  {
  }

  lemma EachBatchInv(s: System, b: nat)
    requires Inv(s) && b < |s.batches|
    ensures BatchInv(s.batches[b])
  {
  }

  lemma InvStep(s: System, e: Event)
    requires Inv(s) && Enabled(s, e)
    ensures Inv(Apply(s, e))
  {
    hide *;
    ApplyCases(s, e);
    if e.Start? {
      NewBatchInv(e.n);
      AddedBatch(s, NewBatch(e.n));
    } else {
      EachBatchInv(s, e.b);
      BatchStep(s, e);
      ReplacedBatch(s, e.b, Apply(s, e).batches[e.b], Apply(s, e).free);
    }
  }

  // ---- runs

  ghost predicate IsRun(s: System, events: seq<Event>)
    decreases |events|
  {
    events == [] || (Enabled(s, events[0]) && IsRun(Apply(s, events[0]), events[1..]))
  }

  ghost function After(s: System, events: seq<Event>): System
    requires IsRun(s, events)
    decreases |events|
  {
    if events == [] then s else After(Apply(s, events[0]), events[1..])
  }

  lemma {:induction false} RunKeepsInv(s: System, events: seq<Event>)
    requires Inv(s) && IsRun(s, events)
    ensures Inv(After(s, events)) && After(s, events).capacity == s.capacity
    decreases |events|
  {
    if events != [] {
      InvStep(s, events[0]);
      RunKeepsInv(Apply(s, events[0]), events[1..]);
    }
  }

  // ---- what holds in every reachable state

  function InFlight(p: Phase): nat { if p.Uploading? then 1 else 0 }
  function Uploads(b: Batch): nat { Total(b.workers, InFlight) }

  lemma {:induction false} TotalAtMost<T>(s: seq<T>, f: T -> nat, g: T -> nat)
    requires forall x | x in s :: f(x) <= g(x)
    ensures Total(s, f) <= Total(s, g)
  {
    if s != [] {
      assert s[0] in s;
      TotalAtMost(s[1..], f, g);
    }
  }

  /** At most `capacity` blocks are being uploaded at any time, over all batches together. */
  lemma AtMostCapacityUploads(s: System)
    requires Inv(s)
    ensures Total(s.batches, Uploads) <= s.capacity
  {
    forall b | b in s.batches ensures Uploads(b) <= Held(b) {
      TotalAtMost(b.workers, InFlight, HoldsPermit);
    }
    TotalAtMost(s.batches, Uploads, Held);
  }

  /** The channel has room whenever a worker may still send. */
  lemma NoSendBlocks(s: System, b: nat, w: nat)
    requires Inv(s) && HasWorker(s, b, w)
    requires s.batches[b].workers[w].Waiting? || s.batches[b].workers[w].Uploading?
    ensures |s.batches[b].channel| < |s.batches[b].workers|
  {
    TotalUpdate(s.batches[b].workers, w, Waiting, Unsent);
  }

  /** When the collector has returned, no worker of the batch waits or uploads any more, and if it reports no error
      every block of the batch is on the server. */
  lemma ReturnedBatch(b: Batch)
    requires BatchInv(b) && b.returned
    ensures b.channel == [] && forall p | p in b.workers :: p.Releasing? || p.Finished?
    ensures b.firstErr == None <==> forall p | p in b.workers :: (p.Releasing? || p.Finished?) && p.result == None
    ensures Possible(LinksReturned(|b.workers|, b.stored, b.firstErr), |b.workers|)
  {
    TotalZero(b.workers, Unsent);
    forall p | p in b.workers ensures p.Releasing? || p.Finished? {
      var w :| 0 <= w < |b.workers| && b.workers[w] == p;
      assert Unsent(b.workers[w]) == 0;
    }
    TotalZero(b.workers, FailedResult);
    if b.firstErr == None {
      forall p | p in b.workers ensures p.result == None {
        var w :| 0 <= w < |b.workers| && b.workers[w] == p;
        assert FailedResult(b.workers[w]) == 0;
      }
      forall w | 0 <= w < |b.workers| ensures w in b.stored {
        assert b.workers[w] in b.workers;
      }
    } else {
      var w :| 0 <= w < |b.workers| && FailedResult(b.workers[w]) != 0;
      assert b.workers[w] in b.workers;
    }
  }

  /** On every run from the start, every batch whose collector has returned has such a fate. */
  lemma EveryFateIsPossible(capacity: nat, events: seq<Event>, b: nat)
    requires IsRun(System(capacity, capacity, []), events)
    requires b < |After(System(capacity, capacity, []), events).batches|
    ensures var batch := After(System(capacity, capacity, []), events).batches[b];
            batch.returned ==> Possible(LinksReturned(|batch.workers|, batch.stored, batch.firstErr), |batch.workers|)
  {
    RunKeepsInv(System(capacity, capacity, []), events);
    var batch := After(System(capacity, capacity, []), events).batches[b];
    if batch.returned {
      ReturnedBatch(batch);
    }
  }

  /** The event makes batch `b` fail of itself: an upload of it that reports an error, or a cancellation. */
  predicate Disturbs(e: Event, b: nat) {
    (e.Upload? && e.b == b && e.result.Some?) || (e.Cancel? && e.b == b)
  }

  /** Nothing has gone wrong in a batch, and it is not cancelled before its collector has returned. */
  ghost predicate Undisturbed(b: Batch) {
    && (forall k | 0 <= k < |b.channel| :: b.channel[k] == None)
    && b.firstErr == None
    && (b.cancelled ==> b.returned)
  }

  /** When the collector has returned no worker is waiting, so none can find the batch cancelled. */
  lemma NoneWaits(b: Batch, w: nat)
    requires BatchInv(b) && b.returned && w < |b.workers|
    ensures !b.workers[w].Waiting?
  {
    ReturnedBatch(b);
    assert b.workers[w] in b.workers;
  }

  lemma UndisturbedStep(s: System, e: Event, b: nat)
    requires Inv(s) && Enabled(s, e) && !Disturbs(e, b)
    requires b < |s.batches| ==> Undisturbed(s.batches[b])
    ensures b < |Apply(s, e).batches| ==> Undisturbed(Apply(s, e).batches[b])
  {
    hide Inv, BatchInv, Held;
    if e.AcquireFails? && e.b == b && s.batches[b].returned {
      EachBatchInv(s, b);
      NoneWaits(s.batches[b], e.w);
    }
  }

  /** A batch does not fail for nothing: on every run in which none of its uploads reports an error and nobody cancels
      it, its collector has no error to report. */
  lemma {:induction false} NoErrorWithoutCause(s: System, events: seq<Event>, b: nat)
    requires Inv(s) && IsRun(s, events)
    requires b < |s.batches| ==> Undisturbed(s.batches[b])
    requires forall e | e in events :: !Disturbs(e, b)
    ensures b < |After(s, events).batches| ==> After(s, events).batches[b].firstErr == None
    decreases |events|
  {
    if events != [] {
      InvStep(s, events[0]);
      UndisturbedStep(s, events[0], b);
      NoErrorWithoutCause(Apply(s, events[0]), events[1..], b);
    }
  }

  /** Returning does not mean that all permits are back: the last worker may not have got to its release. */
  lemma PermitsMayLinger()
    ensures var events := [Start(1), Acquire(0, 0), Upload(0, 0, None, true), Receive(0), Return(0)];
            var s := System(1, 1, []);
            IsRun(s, events) && After(s, events).batches[0].returned && After(s, events).free == 0
  {
  }

  // ---- every run ends, and only where everything is done

  function BatchMeasure(b: Batch): nat {
    Total(b.workers, StepsLeft)
    + (if |b.log| < |b.workers| then |b.workers| - |b.log| else 0)
    + (if b.cancelled then 0 else 1) + (if b.returned then 0 else 1)
  }

  function Measure(s: System): nat {
    Total(s.batches, BatchMeasure)
  }

  /** The steps that starting a batch may cause, with the start itself. */
  function StartCost(e: Event): nat { if e.Start? then 4 * e.n + 3 else 0 }

  /** Every event but a start takes its batch nearer to its end. */
  lemma BatchMeasureFalls(s: System, e: Event)
    requires Enabled(s, e) && !e.Start?
    ensures BatchMeasure(ApplyBatch(s.batches[e.b], e)) < BatchMeasure(s.batches[e.b])
  {
    match e {
      case Acquire(b, w) => WorkerMoves(s.batches[b].workers, w, Uploading);
      case AcquireFails(b, w, reason) => WorkerMoves(s.batches[b].workers, w, Finished(Some(reason)));
      case Upload(b, w, result, _) => WorkerMoves(s.batches[b].workers, w, Releasing(result));
      case Release(b, w) =>
        WorkerMoves(s.batches[b].workers, w, Finished(s.batches[b].workers[w].result));
      case Receive(b) =>
      case Cancel(b) =>
      case Return(b) =>
    }
  }

  lemma ReplacedMeasure(s: System, b: nat, batch: Batch, free: nat)
    requires b < |s.batches|
    ensures Measure(s.(free := free, batches := s.batches[b := batch])) + BatchMeasure(s.batches[b])
            == Measure(s) + BatchMeasure(batch)
  {
    TotalUpdate(s.batches, b, batch, BatchMeasure);
  }

  lemma MeasureStep(s: System, e: Event)
    requires Enabled(s, e)
    ensures Measure(Apply(s, e)) + 1 <= Measure(s) + StartCost(e)
  {
    if e.Start? {
      NewBatchInv(e.n);
      TotalAppend(s.batches, NewBatch(e.n), BatchMeasure);
    } else {
      hide *;
      ApplyCases(s, e);
      BatchMeasureFalls(s, e);
      ReplacedMeasure(s, e.b, Apply(s, e).batches[e.b], Apply(s, e).free);
    }
  }

  /** A run is no longer than what it starts with and what it starts: without new batches every run ends. */
  lemma {:induction false} RunsEnd(s: System, events: seq<Event>)
    requires IsRun(s, events)
    ensures |events| + Measure(After(s, events)) <= Measure(s) + Total(events, StartCost)
    decreases |events|
  {
    if events != [] {
      MeasureStep(s, events[0]);
      RunsEnd(Apply(s, events[0]), events[1..]);
    }
  }

  predicate Quiet(b: Batch) {
    b.returned && forall p | p in b.workers :: p.Finished?
  }

  /** Where no worker uploads or is about to release, no permit is held. */
  lemma NoneHeld(s: System)
    requires Inv(s)
    requires forall b: nat, w: nat | HasWorker(s, b, w) :: HoldsPermit(s.batches[b].workers[w]) == 0
    ensures s.free == s.capacity
  {
    forall i | 0 <= i < |s.batches| ensures Held(s.batches[i]) == 0 {
      forall j | 0 <= j < |s.batches[i].workers| ensures HoldsPermit(s.batches[i].workers[j]) == 0 {
        assert HasWorker(s, i, j);
      }
      TotalZero(s.batches[i].workers, HoldsPermit);
    }
    TotalZero(s.batches, Held);
  }

  /** A batch whose workers are done has all its results with the collector or in the channel. */
  lemma AllSent(b: Batch)
    requires BatchInv(b) && forall w | 0 <= w < |b.workers| :: b.workers[w].Finished?
    ensures |b.log| + |b.channel| == |b.workers|
  {
    TotalZero(b.workers, Unsent);
  }

  /** With at least one permit nothing gets stuck: unless every collector has returned and every worker finished,
      some event other than a new batch or a cancellation can happen. */
  lemma NeverStuck(s: System) returns (e: Event)
    requires Inv(s) && s.capacity >= 1
    requires exists b :: b in s.batches && !Quiet(b)
    ensures Enabled(s, e) && !e.Start? && !e.Cancel?
  {
    if b: nat, w: nat :| HasWorker(s, b, w) && s.batches[b].workers[w].Uploading? {
      return Upload(b, w, None, true);
    }
    if b: nat, w: nat :| HasWorker(s, b, w) && s.batches[b].workers[w].Releasing? {
      return Release(b, w);
    }
    if b: nat, w: nat :| HasWorker(s, b, w) && s.batches[b].workers[w].Waiting? {
      NoneHeld(s);
      return Acquire(b, w);
    }
    var batch :| batch in s.batches && !Quiet(batch);
    var b :| 0 <= b < |s.batches| && s.batches[b] == batch;
    forall j | 0 <= j < |batch.workers| ensures batch.workers[j].Finished? {
      assert HasWorker(s, b, j);
    }
    AllSent(batch);
    return if |batch.log| == |batch.workers| then Return(b) else Receive(b);
  }

  /** Where every batch is quiet all permits are back. */
  lemma QuietFreesPermits(s: System)
    requires Inv(s) && forall b | b in s.batches :: Quiet(b)
    ensures s.free == s.capacity
  {
    forall b: nat, w: nat | HasWorker(s, b, w) ensures HoldsPermit(s.batches[b].workers[w]) == 0 {
      assert Quiet(s.batches[b]);
      assert s.batches[b].workers[w] in s.batches[b].workers;
    }
    NoneHeld(s);
  }
}
