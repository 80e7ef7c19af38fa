/** The heap of candidate cycles: what its entries guarantee, and the measure that shrinks with every pop. */
module CycleHeap {
  import opened Types
  import opened RateIndex
  import opened B = Book
  import opened Direct
  import opened Cycles

  type Heap = seq<CycleEntry>

  ghost predicate InHeap(heap: Heap, e: CycleEntry)
  {
    exists i :: 0 <= i < |heap| && heap[i] == e
  }

  ghost predicate EntriesOk(b: Book, heap: Heap)
  {
    forall i :: 0 <= i < |heap| ==> EntryOk(b, heap[i])
  }

  /**
   * Every entry is sound, current and profitable, and every built triangle that could be executed now has an entry with
   * its best orders and its present surplus, except for the triangles still `pending`.
   */
  ghost predicate HeapOk(b: Book, feed: Feed, heap: Heap, built: set<Triangle>, pending: set<Triangle>)
    requires WellFormed(b)
  {
    && (forall t :: t in built ==> t.Proper())
    && (forall i :: 0 <= i < |heap| ==>
          heap[i].triangle in built && EntryOk(b, heap[i]) && Current(b, heap[i]) && 0 < heap[i].surplusUsd)
    && (forall t :: t in built && t !in pending && TryBuild(b, feed, t).Some? ==> InHeap(heap, TryBuild(b, feed, t).value))
  }

  /** An entry counts one if its surplus is accurate, and two if it is stale. */
  ghost function Cost(b: Book, feed: Feed, e: CycleEntry): nat
    requires WellFormed(b) && EntryOk(b, e)
  {
    if Accurate(b, feed, e) then 1 else 2
  }

  ghost function Weight(b: Book, feed: Feed, heap: Heap): nat
    requires WellFormed(b) && EntriesOk(b, heap)
  {
    if heap == [] then 0 else Weight(b, feed, heap[..|heap| - 1]) + Cost(b, feed, heap[|heap| - 1])
  }

  lemma {:induction false} WeightConcat(b: Book, feed: Feed, s: Heap, t: Heap)
    requires WellFormed(b) && EntriesOk(b, s) && EntriesOk(b, t)
    ensures EntriesOk(b, s + t) && Weight(b, feed, s + t) == Weight(b, feed, s) + Weight(b, feed, t)
  {
    hide Cost;
    hide WellFormed;
    hide EntryOk;
    if t == [] {
      assert s + t == s;
    } else {
      var init := t[..|t| - 1];
      WeightConcat(b, feed, s, init);
      assert (s + t)[..|s + t| - 1] == s + init;
    }
  }

  /** The heap without the entry at `i`. */
  function Pop(heap: Heap, i: nat): Heap
    requires i < |heap|
  {
    heap[..i] + heap[i + 1..]
  }

  lemma PopWeight(b: Book, feed: Feed, heap: Heap, i: nat)
    requires WellFormed(b) && EntriesOk(b, heap) && i < |heap|
    ensures EntriesOk(b, Pop(heap, i))
    ensures Weight(b, feed, heap) == Weight(b, feed, Pop(heap, i)) + Cost(b, feed, heap[i])
  {
    hide Cost;
    hide WellFormed;
    hide EntryOk;
    var (pre, mid, post) := (heap[..i], [heap[i]], heap[i + 1..]);
    assert heap == (pre + mid) + post;
    WeightConcat(b, feed, pre, post);
    PushWeight(b, feed, pre, heap[i]);
    WeightConcat(b, feed, pre + mid, post);
  }

  lemma PushWeight(b: Book, feed: Feed, heap: Heap, e: CycleEntry)
    requires WellFormed(b) && EntriesOk(b, heap) && EntryOk(b, e)
    ensures EntriesOk(b, heap + [e])
    ensures Weight(b, feed, heap + [e]) == Weight(b, feed, heap) + Cost(b, feed, e)
  {
    hide Cost;
    hide WellFormed;
    assert (heap + [e])[..|heap|] == heap;
  }

  lemma HeapEntriesOk(b: Book, feed: Feed, heap: Heap, built: set<Triangle>, pending: set<Triangle>)
    requires WellFormed(b) && HeapOk(b, feed, heap, built, pending)
    ensures EntriesOk(b, heap)
  {}

  /** A non-empty heap has an entry of greatest surplus. */
  lemma {:induction false} TopExists(heap: Heap)
    requires heap != []
    ensures exists i :: 0 <= i < |heap| && IsTop(heap, i)
  {
    if |heap| == 1 {
      assert IsTop(heap, 0);
    } else {
      var init := heap[..|heap| - 1];
      TopExists(init);
      var i :| 0 <= i < |init| && IsTop(init, i);
      if init[i].surplusUsd <= heap[|heap| - 1].surplusUsd {
        assert IsTop(heap, |heap| - 1);
      } else {
        assert IsTop(heap, i);
      }
    }
  }

  predicate IsTop(heap: Heap, i: nat)
  {
    i < |heap| && forall j :: 0 <= j < |heap| ==> heap[j].surplusUsd <= heap[i].surplusUsd
  }

  lemma PopOk(b: Book, feed: Feed, heap: Heap, built: set<Triangle>, i: nat)
    requires WellFormed(b) && HeapOk(b, feed, heap, built, {}) && i < |heap|
    ensures HeapOk(b, feed, Pop(heap, i), built, {heap[i].triangle})
  {
    hide TryBuild;
    hide Current;
    hide EntryOk;
    hide WellFormed;
    var rest := Pop(heap, i);
    forall j | 0 <= j < |rest|
      ensures rest[j] == heap[if j < i then j else j + 1]
    {}
    forall t | t in built && t != heap[i].triangle && TryBuild(b, feed, t).Some?
      ensures InHeap(rest, TryBuild(b, feed, t).value)
    {
      TryBuildOk(b, feed, t);
      var j :| 0 <= j < |heap| && heap[j] == TryBuild(b, feed, t).value;
      assert rest[if j < i then j else j - 1] == heap[j];
    }
  }

  /** Pushing a sound entry settles its triangle. */
  lemma PushOk(b: Book, feed: Feed, heap: Heap, built: set<Triangle>, pending: set<Triangle>, e: CycleEntry)
    requires WellFormed(b) && HeapOk(b, feed, heap, built, pending)
    requires e.triangle in built && EntryOk(b, e) && Current(b, e) && 0 < e.surplusUsd
    requires TryBuild(b, feed, e.triangle).Some? ==> TryBuild(b, feed, e.triangle).value == e
    ensures HeapOk(b, feed, heap + [e], built, pending - {e.triangle})
  {
    hide TryBuild;
    hide Current;
    hide EntryOk;
    hide WellFormed;
    forall t | t in built && t !in pending - {e.triangle} && TryBuild(b, feed, t).Some?
      ensures InHeap(heap + [e], TryBuild(b, feed, t).value)
    {
      if t == e.triangle {
        assert (heap + [e])[|heap|] == e;
      } else {
        var j :| 0 <= j < |heap| && heap[j] == TryBuild(b, feed, t).value;
        assert (heap + [e])[j] == heap[j];
      }
    }
  }

  /** A triangle that cannot be built needs no entry. */
  lemma SkipOk(b: Book, feed: Feed, heap: Heap, built: set<Triangle>, pending: set<Triangle>, t: Triangle)
    requires WellFormed(b) && HeapOk(b, feed, heap, built, pending) && TryBuild(b, feed, t).None?
    ensures HeapOk(b, feed, heap, built, pending - {t})
  {}

  /** The top of a complete heap is worth as much as any built triangle that could be executed now. */
  lemma TopIsBest(b: Book, feed: Feed, heap: Heap, built: set<Triangle>, i: nat, t: Triangle)
    requires WellFormed(b) && HeapOk(b, feed, heap, built, {}) && IsTop(heap, i) && t in built
    ensures TryBuild(b, feed, t).Some? ==> TryBuild(b, feed, t).value.surplusUsd <= heap[i].surplusUsd
  {
    hide TryBuild;
    hide WellFormed;
  }

  /**
   * Executing an entry leaves the other entries sound; only triangles that share a pair with it have to be looked at
   * again.
   */
  lemma ExecuteHeapOk(b: Book, feed: Feed, heap: Heap, built: set<Triangle>, e: CycleEntry, sim: CycleSimulation,
      affected: set<Triangle>)
    requires WellFormed(b) && HeapOk(b, feed, heap, built, {e.triangle})
    requires EntryOk(b, e) && Simulates(b, feed, e, sim)
    requires e.triangle in affected
    requires forall t :: t in built && t !in affected ==> t.Pairs() !! e.triangle.Pairs()
    ensures WellFormed(Execute(b, e, sim.fills)) && HeapOk(Execute(b, e, sim.fills), feed, heap, built, affected)
  {
    hide TryBuild;
    hide Current;
    hide EntryOk;
    hide WellFormed;
    hide Execute;
    hide Simulates;
    ExecuteOk(b, feed, e, sim);
    forall i | 0 <= i < |heap|
      ensures EntryOk(Execute(b, e, sim.fills), heap[i]) && Current(Execute(b, e, sim.fills), heap[i])
    {
      ExecuteKeepsCurrent(b, feed, e, sim, heap[i]);
    }
    forall t | t in built && t !in affected && TryBuild(Execute(b, e, sim.fills), feed, t).Some?
      ensures InHeap(heap, TryBuild(Execute(b, e, sim.fills), feed, t).value)
    {
      ExecuteUnaffected(b, feed, e, sim, t);
    }
  }

  /** Refreshing a popped triangle settles it, with an accurate entry if it can still be built. */
  lemma RefreshOk(b: Book, feed: Feed, heap: Heap, built: set<Triangle>, pending: set<Triangle>, t: Triangle)
    requires WellFormed(b) && HeapOk(b, feed, heap, built, pending) && t in built
    ensures var renewed := TryBuild(b, feed, t); var heap' := if renewed.Some? then heap + [renewed.value] else heap;
      && HeapOk(b, feed, heap', built, pending - {t}) && EntriesOk(b, heap) && EntriesOk(b, heap')
      && Weight(b, feed, heap') <= Weight(b, feed, heap) + 1
  {
    hide TryBuild;
    hide Current;
    hide EntryOk;
    hide WellFormed;
    hide Weight;
    hide Accurate;
    HeapEntriesOk(b, feed, heap, built, pending);
    var renewed := TryBuild(b, feed, t);
    if renewed.Some? {
      TryBuildOk(b, feed, t);
      PushOk(b, feed, heap, built, pending, renewed.value);
      PushWeight(b, feed, heap, renewed.value);
    } else {
      SkipOk(b, feed, heap, built, pending, t);
    }
  }

  /**
   * Re-queueing a popped entry with its recomputed surplus settles it; a zero surplus means its triangle cannot be
   * built.
   */
  lemma RequeueOk(b: Book, feed: Feed, heap: Heap, built: set<Triangle>, e: CycleEntry, sim: CycleSimulation)
    requires WellFormed(b) && HeapOk(b, feed, heap, built, {e.triangle})
    requires e.triangle in built && EntryOk(b, e) && Current(b, e) && Simulates(b, feed, e, sim)
    ensures var heap' := if 0 < sim.surplusUsd then heap + [e.(surplusUsd := sim.surplusUsd)] else heap;
      && HeapOk(b, feed, heap', built, {}) && EntriesOk(b, heap) && EntriesOk(b, heap')
      && Weight(b, feed, heap') <= Weight(b, feed, heap) + 1
  {
    hide TryBuild;
    hide WellFormed;
    hide Weight;
    hide SimulateFullCycle;
    hide Best;
    HeapEntriesOk(b, feed, heap, built, {e.triangle});
    assert {e.triangle} - {e.triangle} == {};
    RebuildsSame(b, feed, e);
    if 0 < sim.surplusUsd {
      var renewed := e.(surplusUsd := sim.surplusUsd);
      PushOk(b, feed, heap, built, {e.triangle}, renewed);
      PushWeight(b, feed, heap, renewed);
    } else {
      SkipOk(b, feed, heap, built, {e.triangle}, e.triangle);
    }
  }
}
