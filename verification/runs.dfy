/**
  Runs of one `BatchQueue`: a sequential interleaving of calls to `add`, manual
  calls to `execute`, and responses the transport delivers to `call_back`.
  The effects of a run are what leaves the object, in order: the batches it
  submits and the handler calls it makes.
*/
module Runs {
  import opened Wrappers
  import opened Batching

  /** One call into the object. `generated` is the id the generator would supply to `add`. */
  datatype Event<R, H> =
    | AddCall(request: R, handler: H, requestId: Option<string>, generated: RequestId)
    | ExecuteCall
    | Response(id: RequestId)

  /** Something the object does to the outside world. */
  datatype Effect<R, H> = Submitted(batch: seq<Item<R>>) | Called(invocation: Invocation<H>)

  /** The state after one event and the effects it had, in order. */
  datatype Step<R, H> = Step(next: BatchQueue<R, H>, effects: seq<Effect<R, H>>)

  /** The state after a run and all its effects, in order. */
  datatype Trace<R, H> = Trace(final: BatchQueue<R, H>, effects: seq<Effect<R, H>>)

  /** The items a sequence of events appends to the queue, in order. */
  function Enqueued<R, H>(events: seq<Event<R, H>>): seq<Item<R>> {
    if |events| == 0 then []
    else
      (match events[0]
       case AddCall(request, _, requestId, generated) => [Item(request, ResolveId(requestId, generated))]
       case _ => [])
      + Enqueued(events[1..])
  }

  /** All items submitted in batches, in submission order. */
  function Dispatched<R, H>(effects: seq<Effect<R, H>>): seq<Item<R>> {
    if |effects| == 0 then []
    else
      (match effects[0]
       case Submitted(batch) => batch
       case Called(_) => [])
      + Dispatched(effects[1..])
  }

  /** The number of batches submitted. */
  function Submissions<R, H>(effects: seq<Effect<R, H>>): nat {
    if |effects| == 0 then 0
    else (if effects[0].Submitted? then 1 else 0) + Submissions(effects[1..])
  }

  /** One event applied to the object. */
  function Apply<R, H>(s: BatchQueue<R, H>, e: Event<R, H>): (st: Step<R, H>)
    ensures Dispatched(st.effects) + st.next.queue == s.queue + Enqueued([e])
    ensures st.next.quota == s.quota
    ensures s.callBacks.Keys <= st.next.callBacks.Keys
    ensures Valid(s) ==> Valid(st.next)
    ensures Registered(s) ==> Registered(st.next)
    ensures e.Response? && s.count + 1 == s.quota ==>
      |st.effects| == 2 && st.effects[0].Submitted? && st.effects[1].Called?
    ensures e.Response? && s.count + 1 != s.quota ==> |st.effects| == 1 && st.effects[0].Called?
    ensures e.Response? ==> st.next.count == (if s.count + 1 == s.quota then 0 else s.count + 1)
    ensures e.Response? ==>
      st.next == CallBack(s, e.id).next
      && st.effects[|st.effects| - 1] == Called(CallBack(s, e.id).invocation)
    ensures e.Response? && CallBack(s, e.id).triggered.Some? ==>
      st.effects[0] == Submitted(CallBack(s, e.id).triggered.value)
    ensures !e.Response? ==> forall k :: 0 <= k < |st.effects| ==> st.effects[k].Submitted?
    ensures e.AddCall? ==> st.effects == [] && st.next == Add(s, e.request, e.handler, e.requestId, e.generated)
    ensures e.ExecuteCall? ==> st.effects == [Submitted(Execute(s).batch)]
    ensures e.ExecuteCall? ==> st.next == Execute(s).next && Dispatched(st.effects) == Execute(s).batch
  {
    match e
    case AddCall(request, handler, requestId, generated) =>
      Step(Add(s, request, handler, requestId, generated), [])
    case ExecuteCall =>
      var f := Execute(s);
      Step(f.next, [Submitted(f.batch)])
    case Response(id) =>
      var d := CallBack(s, id);
      match d.triggered
      case Some(batch) =>
        var effects := [Submitted(batch), Called(d.invocation)];
        assert Dispatched(effects[1..]) == [];
        Step(d.next, effects)
      case None =>
        var effects := [Called(d.invocation)];
        assert Dispatched(effects[1..]) == [];
        Step(d.next, effects)
  }

  /** A sequence of events applied in order. */
  function Run<R, H>(s: BatchQueue<R, H>, events: seq<Event<R, H>>): Trace<R, H>
    decreases |events|
  {
    if |events| == 0 then Trace(s, [])
    else
      var st := Apply(s, events[0]);
      var rest := Run(st.next, events[1..]);
      Trace(rest.final, st.effects + rest.effects)
  }

  lemma {:induction false} DispatchedAppend<R, H>(a: seq<Effect<R, H>>, b: seq<Effect<R, H>>)
    ensures Dispatched(a + b) == Dispatched(a) + Dispatched(b)
  {
    if |a| == 0 {
      assert a + b == b;
    } else {
      assert (a + b)[1..] == a[1..] + b;
      DispatchedAppend(a[1..], b);
    }
  }

  lemma {:induction false} SubmissionsAppend<R, H>(a: seq<Effect<R, H>>, b: seq<Effect<R, H>>)
    ensures Submissions(a + b) == Submissions(a) + Submissions(b)
  {
    if |a| == 0 {
      assert a + b == b;
    } else {
      assert (a + b)[1..] == a[1..] + b;
      SubmissionsAppend(a[1..], b);
    }
  }

  lemma EnqueuedSingle<R, H>(e: Event<R, H>)
    ensures Enqueued([e]) == if e.AddCall? then [Item(e.request, ResolveId(e.requestId, e.generated))] else []
  {
    assert [e][1..] == [];
  }

  lemma EnqueuedCons<R, H>(events: seq<Event<R, H>>)
    requires |events| > 0
    ensures Enqueued(events) == Enqueued([events[0]]) + Enqueued(events[1..])
  {
    assert [events[0]][1..] == [];
  }

  /**
    No item is lost or duplicated: what was queued at the start plus what was
    added equals what was submitted, in order, followed by what is still queued.
  */
  lemma {:induction false} RunConservesItems<R, H>(s: BatchQueue<R, H>, events: seq<Event<R, H>>)
    ensures Dispatched(Run(s, events).effects) + Run(s, events).final.queue == s.queue + Enqueued(events)
    decreases |events|
  {
    if |events| > 0 {
      var st := Apply(s, events[0]);
      var rest := Run(st.next, events[1..]);
      assert Run(s, events) == Trace(rest.final, st.effects + rest.effects);
      RunConservesItems(st.next, events[1..]);
      DispatchedAppend(st.effects, rest.effects);
      EnqueuedCons(events);
      Splice(Dispatched(st.effects), Dispatched(rest.effects), rest.final.queue,
             st.next.queue, s.queue, Enqueued([events[0]]), Enqueued(events[1..]));
    }
  }

  /**
    From a new queue, the concatenation of all submitted batches is a prefix
    of the order in which requests were added, and the queue holds the rest:
    no added item is submitted twice or out of order.
  */
  lemma DispatchedIsPrefix<R, H>(quota: int, events: seq<Event<R, H>>)
    ensures var t := Run(Init(quota), events);
      && Dispatched(t.effects) <= Enqueued(events)
      && t.final.queue == Enqueued(events)[|Dispatched(t.effects)|..]
  {
    var t := Run(Init(quota), events);
    RunConservesItems(Init(quota), events);
    assert Init<R, H>(quota).queue + Enqueued(events) == Enqueued(events);
    var d := Dispatched(t.effects);
    assert Enqueued(events)[..|d|] == d;
  }

  /** The ids of a sequence of items are pairwise distinct. */
  predicate DistinctIds<R>(items: seq<Item<R>>) {
    forall i, j :: 0 <= i < j < |items| ==> items[i].id != items[j].id
  }

  /** When every added request had its own id, no id is submitted twice. */
  lemma NoIdSubmittedTwice<R, H>(quota: int, events: seq<Event<R, H>>)
    requires DistinctIds(Enqueued(events))
    ensures DistinctIds(Dispatched(Run(Init(quota), events).effects))
  {
    var d := Dispatched(Run(Init(quota), events).effects);
    DispatchedIsPrefix(quota, events);
    forall i, j | 0 <= i < j < |d|
      ensures d[i].id != d[j].id
    {
      assert d[i] == Enqueued(events)[i] && d[j] == Enqueued(events)[j];
    }
  }

  /** The counter invariant and the registration invariant hold after any run that starts with them. */
  lemma {:induction false} RunPreservesInvariants<R, H>(s: BatchQueue<R, H>, events: seq<Event<R, H>>)
    ensures Valid(s) ==> Valid(Run(s, events).final)
    ensures Registered(s) ==> Registered(Run(s, events).final)
    ensures Run(s, events).final.quota == s.quota
    decreases |events|
  {
    if |events| > 0 {
      RunPreservesInvariants(Apply(s, events[0]).next, events[1..]);
    }
  }

  /** Handlers are never removed: every id registered before a run is still registered after it. */
  lemma {:induction false} RunNeverPrunes<R, H>(s: BatchQueue<R, H>, events: seq<Event<R, H>>)
    ensures s.callBacks.Keys <= Run(s, events).final.callBacks.Keys
    decreases |events|
  {
    if |events| > 0 {
      RunNeverPrunes(Apply(s, events[0]).next, events[1..]);
    }
  }

  /** True when no `add` of a run files a request under `id`. */
  predicate NoAddUnder<R, H>(events: seq<Event<R, H>>, id: RequestId) {
    forall k :: 0 <= k < |events| && events[k].AddCall? ==>
      ResolveId(events[k].requestId, events[k].generated) != id
  }

  /**
    The handler registered under an id stays the same through any run that
    adds nothing under that id: executes and responses never replace it.
  */
  lemma {:induction false} HandlerStable<R, H>(s: BatchQueue<R, H>, events: seq<Event<R, H>>, id: RequestId)
    requires id in s.callBacks && NoAddUnder(events, id)
    ensures id in Run(s, events).final.callBacks
    ensures Run(s, events).final.callBacks[id] == s.callBacks[id]
    decreases |events|
  {
    if |events| > 0 {
      var st := Apply(s, events[0]);
      assert NoAddUnder(events[1..], id) by {
        forall k | 0 <= k < |events[1..]| && events[1..][k].AddCall?
          ensures ResolveId(events[1..][k].requestId, events[1..][k].generated) != id
        {
          assert events[1..][k] == events[k + 1];
        }
      }
      assert st.next.callBacks[id] == s.callBacks[id] by {
        if events[0].AddCall? {
          assert ResolveId(events[0].requestId, events[0].generated) != id;
        }
      }
      HandlerStable(st.next, events[1..], id);
    }
  }

  /**
    A response reaches the handler of the latest `add` under its id: after
    `add(request, handler, id)` and any later run that adds nothing more under
    that id, the response for `id` invokes `handler`.
  */
  lemma LatestHandlerReached<R, H>(s: BatchQueue<R, H>, request: R, handler: H, requestId: Option<string>,
                                   generated: RequestId, events: seq<Event<R, H>>)
    requires NoAddUnder(events, ResolveId(requestId, generated))
    ensures var id := ResolveId(requestId, generated);
      var t := Run(s, [AddCall(request, handler, requestId, generated)] + events);
      CallBack(t.final, id).invocation == Invoked(handler, id)
  {
    var id := ResolveId(requestId, generated);
    var e := AddCall(request, handler, requestId, generated);
    var st := Apply(s, e);
    assert ([e] + events)[1..] == events;
    assert Run(s, [e] + events).final == Run(st.next, events).final;
    HandlerStable(st.next, events, id);
  }

  /**
    Every submitted item's id still has a handler at the end of the run, so a
    response the transport delivers for it reaches a handler.
  */
  lemma {:induction false} DispatchedStayRegistered<R, H>(s: BatchQueue<R, H>, events: seq<Event<R, H>>)
    requires Registered(s)
    ensures var t := Run(s, events);
      forall i :: 0 <= i < |Dispatched(t.effects)| ==> Dispatched(t.effects)[i].id in t.final.callBacks
    decreases |events|
  {
    if |events| > 0 {
      var st := Apply(s, events[0]);
      var rest := Run(st.next, events[1..]);
      var t := Run(s, events);
      DispatchedStayRegistered(st.next, events[1..]);
      RunNeverPrunes(st.next, events[1..]);
      DispatchedAppend(st.effects, rest.effects);
      var d0 := Dispatched(st.effects);
      StepDispatchesFromQueue(s, events[0]);
      forall i | 0 <= i < |d0|
        ensures d0[i].id in rest.final.callBacks
      {
        assert (d0 + st.next.queue)[i] == (s.queue + Enqueued([events[0]]))[i];
        assert s.queue[i].id in s.callBacks;
      }
    }
  }

  /** A response for a submitted item, delivered after the run, invokes that item's handler. */
  lemma ResponseToDispatchedIsRouted<R, H>(quota: int, events: seq<Event<R, H>>, i: nat)
    requires i < |Dispatched(Run(Init(quota), events).effects)|
    ensures var t := Run(Init(quota), events);
      CallBack(t.final, Dispatched(t.effects)[i].id).invocation.Invoked?
  {
    DispatchedStayRegistered(Init(quota), events);
  }

  /** True when every event of a run is a response. */
  predicate AllResponses<R, H>(events: seq<Event<R, H>>) {
    forall k :: 0 <= k < |events| ==> events[k].Response?
  }

  /**
    Auto-pipelining: over any `n` responses, one batch is submitted each time
    the counter reaches the quota, and the counter keeps the remainder:
    `count + n == submissions * quota + final count`, with the final count
    below the quota.
  */
  lemma {:induction false} ResponsesDriveFlushes<R, H>(s: BatchQueue<R, H>, events: seq<Event<R, H>>)
    requires Valid(s) && AllResponses(events)
    ensures var t := Run(s, events);
      && s.count + |events| == Submissions(t.effects) * s.quota + t.final.count
      && t.final.count < s.quota
    decreases |events|
  {
    if |events| > 0 {
      var st := Apply(s, events[0]);
      var rest := Run(st.next, events[1..]);
      assert Run(s, events) == Trace(rest.final, st.effects + rest.effects);
      assert AllResponses(events[1..]) by {
        forall k | 0 <= k < |events[1..]|
          ensures events[1..][k].Response?
        {
          assert events[1..][k] == events[k + 1];
        }
      }
      ResponsesDriveFlushes(st.next, events[1..]);
      SubmissionsAppend(st.effects, rest.effects);
      ResponseSubmissions(s, events[0]);
      MulSucc(Submissions(rest.effects), s.quota);
    }
  }

  /** A response submits one batch exactly when it brings the counter to the quota. */
  lemma ResponseSubmissions<R, H>(s: BatchQueue<R, H>, e: Event<R, H>)
    requires e.Response?
    ensures Submissions(Apply(s, e).effects) == if s.count + 1 == s.quota then 1 else 0
  {
    var effects := Apply(s, e).effects;
    if s.count + 1 == s.quota {
      assert effects[1..][1..] == [];
      assert Submissions(effects[1..]) == 0;
    } else {
      assert effects[1..] == [];
    }
  }

  /** A single event only submits items that were already queued before it, taken from the head. */
  lemma StepDispatchesFromQueue<R, H>(s: BatchQueue<R, H>, e: Event<R, H>)
    ensures Dispatched(Apply(s, e).effects) <= s.queue
  {
    var st := Apply(s, e);
    EnqueuedSingle(e);
    if e.AddCall? {
      assert Dispatched(st.effects) == [];
    } else {
      assert s.queue + Enqueued([e]) == s.queue;
      var d := Dispatched(st.effects);
      assert s.queue[..|d|] == (d + st.next.queue)[..|d|];
    }
  }

  /** Two consecutive conservation facts compose into one. */
  lemma Splice<T>(d0: seq<T>, d1: seq<T>, q1: seq<T>, q0: seq<T>, a: seq<T>, e0: seq<T>, e1: seq<T>)
    requires d1 + q1 == q0 + e1
    requires d0 + q0 == a + e0
    ensures (d0 + d1) + q1 == a + (e0 + e1)
  {
    calc {
      (d0 + d1) + q1;
      d0 + (d1 + q1);
      d0 + (q0 + e1);
      (d0 + q0) + e1;
      (a + e0) + e1;
    }
  }

  /** Distributes one extra quota over the product, outside the larger proof context. */
  lemma MulSucc(k: nat, q: int)
    ensures (k + 1) * q == k * q + q
  {
  }
}
