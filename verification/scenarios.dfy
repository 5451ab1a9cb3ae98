/**
  Concrete runs of the batch queue, stated as lemmas about the model:
  quota-2 pipelining, an empty `execute`, an unknown id, and n adds followed
  by one execute.
*/
module Scenarios {
  import opened Wrappers
  import opened Batching
  import opened Runs

  /** True when every event of a run is an `add`. */
  predicate AllAdds<R, H>(events: seq<Event<R, H>>) {
    forall k :: 0 <= k < |events| ==> events[k].AddCall?
  }

  /** A run of `add` calls submits nothing and leaves every request queued, in order. */
  lemma {:induction false} AddsOnlyQueue<R, H>(s: BatchQueue<R, H>, events: seq<Event<R, H>>)
    requires AllAdds(events)
    ensures Run(s, events).effects == []
    ensures Run(s, events).final.queue == s.queue + Enqueued(events)
    decreases |events|
  {
    if |events| > 0 {
      var st := Apply(s, events[0]);
      assert AllAdds(events[1..]) by {
        forall k | 0 <= k < |events[1..]|
          ensures events[1..][k].AddCall?
        {
          assert events[1..][k] == events[k + 1];
        }
      }
      AddsOnlyQueue(st.next, events[1..]);
      RunConservesItems(s, events);
      assert Dispatched(Run(s, events).effects) == [];
    }
  }

  /**
    After `n` adds to a new queue and one `execute`, the batch holds the first
    `min(n, quota)` requests in the order they were added (none for a
    non-positive quota) and the rest stay queued.
  */
  lemma AddsThenExecute<R, H>(quota: int, adds: seq<Event<R, H>>)
    requires AllAdds(adds)
    ensures |Enqueued(adds)| == |adds|
    ensures var f := Execute(Run(Init(quota), adds).final);
      var n := if |adds| < Capacity(quota) then |adds| else Capacity(quota);
      && f.batch == Enqueued(adds)[..n]
      && f.next.queue == Enqueued(adds)[n..]
  {
    var s := Run(Init(quota), adds).final;
    AddsOnlyQueue(Init(quota), adds);
    assert Init<R, H>(quota).queue + Enqueued(adds) == Enqueued(adds);
    EnqueuedLength(adds);
    assert s.queue == Enqueued(adds);
    BatchSize(s);
    var f := Execute(s);
    var n := if |adds| < Capacity(quota) then |adds| else Capacity(quota);
    RunPreservesInvariants(Init<R, H>(quota), adds);
    assert s.quota == quota && |s.queue| == |adds|;
    assert |f.batch| == n;
    assert f.batch == (f.batch + f.next.queue)[..n];
    assert f.next.queue == (f.batch + f.next.queue)[n..];
  }

  /** Each `add` queues exactly one item. */
  lemma {:induction false} EnqueuedLength<R, H>(events: seq<Event<R, H>>)
    requires AllAdds(events)
    ensures |Enqueued(events)| == |events|
    decreases |events|
  {
    if |events| > 0 {
      assert AllAdds(events[1..]) by {
        forall k | 0 <= k < |events[1..]|
          ensures events[1..][k].AddCall?
        {
          assert events[1..][k] == events[k + 1];
        }
      }
      EnqueuedLength(events[1..]);
    }
  }

  /**
    Quota 2: add r1, r2, r3 and execute, which submits [r1, r2]. The response
    for r1 moves the counter to 1 and calls its handler; the response for r2
    brings the counter to the quota, so it resets to 0 and [r3] is submitted
    on its own before r2's handler is called.
  */
  lemma QuotaTwoPipeline()
    ensures
      var s0 := Init<string, int>(2);
      var s1 := Add(Add(Add(s0, "r1", 1, Some("1"), "g1"), "r2", 2, Some("2"), "g2"), "r3", 3, Some("3"), "g3");
      var f := Execute(s1);
      var d1 := CallBack(f.next, "1");
      var d2 := CallBack(d1.next, "2");
      && f.batch == [Item("r1", "1"), Item("r2", "2")]
      && f.next.queue == [Item("r3", "3")]
      && d1.next.count == 1 && d1.triggered == None && d1.invocation == Invoked(1, "1")
      && d2.next.count == 0 && d2.triggered == Some([Item("r3", "3")]) && d2.invocation == Invoked(2, "2")
      && d2.next.queue == []
      && Apply(d1.next, Response("2")).effects == [Submitted([Item("r3", "3")]), Called(Invoked(2, "2"))]
  {
    var s0 := Init<string, int>(2);
    var s1 := Add(Add(Add(s0, "r1", 1, Some("1"), "g1"), "r2", 2, Some("2"), "g2"), "r3", 3, Some("3"), "g3");
    assert s1.queue == [Item("r1", "1"), Item("r2", "2"), Item("r3", "3")];
    BatchSize(s1);
    var f := Execute(s1);
    assert f.batch == s1.queue[..2];
    assert f.next.queue == [Item("r3", "3")] by {
      assert f.next.queue == s1.queue[2..];
    }
    var d1 := CallBack(f.next, "1");
    assert d1.next == f.next.(count := 1);
    var d2 := CallBack(d1.next, "2");
    var g := Execute(d1.next.(count := 0));
    BatchSize(d1.next.(count := 0));
    assert g.batch == [Item("r3", "3")] by {
      assert g.batch == f.next.queue[..1];
    }
  }

  /**
    `execute` on an empty queue still hands an empty batch to the transport;
    the queue and everything else stay as they were.
  */
  lemma EmptyExecuteStillSubmits<R, H>(s: BatchQueue<R, H>)
    requires s.queue == []
    ensures Apply(s, ExecuteCall).effects == [Submitted([])]
    ensures Apply(s, ExecuteCall).next == s
  {
  }

  /**
    A response for an id that was never registered still counts toward the
    quota and can still trigger `execute`; only the handler lookup fails.
  */
  lemma UnknownIdStillCounts<R, H>(s: BatchQueue<R, H>, id: RequestId)
    requires id !in s.callBacks && s.count + 1 == s.quota
    ensures CallBack(s, id).invocation == UnknownId(id)
    ensures CallBack(s, id).triggered == Some(Execute(s).batch)
    ensures CallBack(s, id).next.count == 0
  {
  }
}
