/**
  The state machine of one `BatchQueue` (batching/batchqueue.py): a FIFO of
  pending `(request, request_id)` pairs, a registry from request id to the
  caller's handler, a completion counter and a fixed quota.

  Every operation is a pure function from the old state to the new one.
  Requests (`R`) and handlers (`H`) are opaque: the model never looks inside
  them, it only moves them around. The HTTP transport is replaced by the batch
  the operation returns, and the random id generator by a parameter.
*/
module Batching {
  import opened Wrappers

  /** A request id, as the text the caller or the id generator supplies. */
  type RequestId = string

  /** The quota a queue gets when the caller gives none. */
  const DefaultQuota: int := 10

  /** One queued element: the request and the id its response is routed by. */
  datatype Item<R> = Item(request: R, id: RequestId)

  /**
    The object state. `quota` is whatever the caller passed (the source does
    not check it); `count` is the number of responses since the last reset.
  */
  datatype BatchQueue<R, H> = BatchQueue(
    queue: seq<Item<R>>,
    callBacks: map<RequestId, H>,
    count: nat,
    quota: int)

  /** What one `execute` produces: the state after dequeuing and the batch it submits. */
  datatype Flush<R, H> = Flush(next: BatchQueue<R, H>, batch: seq<Item<R>>)

  /** The handler call a response ends in, or the failed registry lookup. */
  datatype Invocation<H> = Invoked(handler: H, id: RequestId) | UnknownId(id: RequestId)

  /**
    What one `call_back` produces, in the order it happens: the new state,
    the batch submitted by the automatic `execute` if the counter reached the
    quota, and then the handler invocation (or the failed lookup).
  */
  datatype Delivery<R, H> = Delivery(
    next: BatchQueue<R, H>,
    triggered: Option<seq<Item<R>>>,
    invocation: Invocation<H>)

  /** The counter invariant: a positive quota and a counter below it. */
  predicate Valid<R, H>(s: BatchQueue<R, H>) {
    1 <= s.quota && s.count < s.quota
  }

  /** Every queued request has a handler registered under its id. */
  predicate Registered<R, H>(s: BatchQueue<R, H>) {
    forall i :: 0 <= i < |s.queue| ==> s.queue[i].id in s.callBacks
  }

  /** The number of items one `execute` may dequeue: the quota, or none when it is not positive. */
  function Capacity(quota: int): nat {
    if quota <= 0 then 0 else quota
  }

  /** A new queue: nothing queued, nothing registered, the counter at zero. */
  function Init<R, H>(quota: int := DefaultQuota): (s: BatchQueue<R, H>)
    ensures s.queue == [] && s.callBacks == map[]
    ensures s.count == 0 && s.quota == quota
    ensures Registered(s)
    ensures 1 <= quota <==> Valid(s)
  {
    BatchQueue([], map[], 0, quota)
  }

  /** True when the caller's id is falsy (missing or empty), so a generated one is used. */
  predicate IsAbsent(requestId: Option<string>) {
    requestId.None? || requestId.value == ""
  }

  /** The id `add` files the request under; `generated` is the id generator's output. */
  function ResolveId(requestId: Option<string>, generated: RequestId): (id: RequestId)
    ensures IsAbsent(requestId) ==> id == generated
    ensures !IsAbsent(requestId) ==> id == requestId.value && id != ""
  {
    if IsAbsent(requestId) then generated else requestId.value
  }

  /**
    `add`: register the handler under the resolved id (silently replacing an
    earlier handler with the same id) and append the request to the tail.
  */
  function Add<R, H>(s: BatchQueue<R, H>, request: R, handler: H, requestId: Option<string>, generated: RequestId)
    : (r: BatchQueue<R, H>)
    ensures var id := ResolveId(requestId, generated);
      && |r.queue| == |s.queue| + 1
      && r.queue[..|s.queue|] == s.queue
      && r.queue[|s.queue|] == Item(request, id)
      && r.callBacks.Keys == s.callBacks.Keys + {id}
      && r.callBacks[id] == handler
      && (forall k :: k in s.callBacks && k != id ==> r.callBacks[k] == s.callBacks[k])
    ensures r.count == s.count && r.quota == s.quota
    ensures Valid(s) ==> Valid(r)
    ensures Registered(s) ==> Registered(r)
  {
    var id := ResolveId(requestId, generated);
    s.(callBacks := s.callBacks[id := handler], queue := s.queue + [Item(request, id)])
  }

  /**
    With a missing or empty id, `add` files the request under the generated
    id; when that id is new, one entry is added and no earlier handler is
    replaced, and the queued pair and the registry entry carry the same id.
  */
  lemma AddGeneratedId<R, H>(s: BatchQueue<R, H>, request: R, handler: H, requestId: Option<string>, generated: RequestId)
    requires IsAbsent(requestId) && generated !in s.callBacks
    ensures var r := Add(s, request, handler, requestId, generated);
      && r.queue[|r.queue| - 1] == Item(request, generated)
      && r.callBacks[generated] == handler
      && |r.callBacks| == |s.callBacks| + 1
      && (forall k :: k in s.callBacks ==> k in r.callBacks && r.callBacks[k] == s.callBacks[k])
  {
    var r := Add(s, request, handler, requestId, generated);
    assert r.callBacks.Keys == s.callBacks.Keys + {generated};
    assert |r.callBacks.Keys| == |s.callBacks.Keys| + 1;
  }

  /**
    Adding twice under the same explicit id raises no error: both requests are
    queued, in order, and the second handler replaces the first, so the
    registry routes a response for that id to the second handler.
  */
  lemma DuplicateIdOverwrites<R, H>(s: BatchQueue<R, H>, r1: R, h1: H, r2: R, h2: H, id: RequestId, g1: RequestId, g2: RequestId)
    requires id != ""
    ensures var r := Add(Add(s, r1, h1, Some(id), g1), r2, h2, Some(id), g2);
      && r.queue == s.queue + [Item(r1, id), Item(r2, id)]
      && r.callBacks == s.callBacks[id := h2]
      && |r.callBacks| == |s.callBacks[id := h1]|
  {
    var r := Add(Add(s, r1, h1, Some(id), g1), r2, h2, Some(id), g2);
    assert r.callBacks.Keys == s.callBacks[id := h1].Keys;
  }

  /**
    `execute`: take up to `quota` items from the head of the queue, in order,
    and submit them as one batch. The batch is submitted even when empty.
  */
  function Execute<R, H>(s: BatchQueue<R, H>): (f: Flush<R, H>)
    ensures f.batch + f.next.queue == s.queue
    ensures |f.batch| <= Capacity(s.quota)
    ensures |f.batch| < Capacity(s.quota) ==> f.next.queue == []
    ensures f.next == s.(queue := f.next.queue)
    ensures s.queue == [] ==> f.batch == [] && f.next == s
    ensures Valid(s) ==> Valid(f.next)
    ensures Registered(s) ==> Registered(f.next)
  {
    var n := if |s.queue| < Capacity(s.quota) then |s.queue| else Capacity(s.quota);
    assert s.queue[..n] + s.queue[n..] == s.queue;
    Flush(s.(queue := s.queue[n..]), s.queue[..n])
  }

  /** The batch `execute` builds has exactly `min(|queue|, quota)` items (none for a non-positive quota). */
  lemma BatchSize<R, H>(s: BatchQueue<R, H>)
    ensures |Execute(s).batch| == if |s.queue| < Capacity(s.quota) then |s.queue| else Capacity(s.quota)
    ensures |Execute(s).next.queue| == |s.queue| - |Execute(s).batch|
  {
    var f := Execute(s);
    assert |f.batch| + |f.next.queue| == |s.queue| by {
      assert |f.batch + f.next.queue| == |s.queue|;
    }
  }

  /**
    `execute` as the source writes it: a bounded loop that stops early when
    the queue runs dry, moving one head item into the batch per round.
  */
  method ExecuteLoop<R, H>(s: BatchQueue<R, H>) returns (next: BatchQueue<R, H>, batch: seq<Item<R>>)
    ensures Flush(next, batch) == Execute(s)
  {
    var queue := s.queue;
    batch := [];
    var i := 0;
    while i < s.quota
      invariant i <= |s.queue| && i <= Capacity(s.quota)
      invariant batch == s.queue[..i] && queue == s.queue[i..]
    {
      if |queue| == 0 {
        break;
      }
      var item := queue[0];
      queue := queue[1..];
      batch := batch + [item];
      i := i + 1;
    }
    next := s.(queue := queue);
  }

  /**
    `call_back`: count the response; when the counter reaches the quota,
    reset it and run `execute`; only then look up the handler for `id` and
    invoke it. A missing id fails the lookup after the counter and queue have
    already changed.
  */
  function CallBack<R, H>(s: BatchQueue<R, H>, id: RequestId): (d: Delivery<R, H>)
    ensures d.next.callBacks == s.callBacks && d.next.quota == s.quota
    ensures d.triggered.Some? <==> s.count + 1 == s.quota
    ensures d.triggered.Some? ==>
      d.next.count == 0 && Flush(d.next, d.triggered.value) == Execute(s.(count := 0))
    ensures d.triggered.None? ==> d.next == s.(count := s.count + 1)
    ensures d.invocation.id == id
    ensures d.invocation.Invoked? <==> id in s.callBacks
    ensures d.invocation.Invoked? ==> d.invocation.handler == s.callBacks[id]
    ensures Valid(s) ==> Valid(d.next)
    ensures Registered(s) ==> Registered(d.next)
  {
    var bumped := s.(count := s.count + 1);
    var (next, triggered) :=
      if bumped.count == bumped.quota then
        var f := Execute(bumped.(count := 0));
        (f.next, Some(f.batch))
      else
        (bumped, None);
    var invocation := if id in next.callBacks then Invoked(next.callBacks[id], id) else UnknownId(id);
    Delivery(next, triggered, invocation)
  }
}
