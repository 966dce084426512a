/** The heap of the delaying queue, changed in place, and the loop that feeds it. */
module DelayingQueue {
  import opened Names
  import opened FairQueueState
  import opened FairQueue
  import opened DelayingQueueRuns

  // ----- Heap order on the times alone -----

  /** The entry at `k` is not due before its parent in the heap. */
  predicate AboveIsSooner(t: seq<int>, k: int)
    requires 0 < k < |t|
  {
    t[(k - 1) / 2] <= t[k]
  }

  predicate HeapOrdered(t: seq<int>) {
    forall k | 0 < k < |t| :: AboveIsSooner(t, k)
  }

  /** The entries below position `i` are not due before the entry above `i`. */
  predicate Bridged(t: seq<int>, i: int, n: int)
    requires 0 <= i && n <= |t|
  {
    i > 0 ==> forall k | 0 < k < n && (k - 1) / 2 == i :: t[(i - 1) / 2] <= t[k]
  }

  /** Heap order of the first `n` entries, but for the entry at `j` and the one above it. */
  predicate OrderedButAbove(t: seq<int>, j: int, n: int)
    requires 0 <= j < n <= |t|
  {
    (forall k | 0 < k < n && k != j :: AboveIsSooner(t, k)) && Bridged(t, j, n)
  }

  /** Heap order of the first `n` entries, but for the entry at `i` and those below it; if it has
      not been moved yet, also but for the entry above it. */
  predicate OrderedButBelow(t: seq<int>, i: int, n: int, moved: bool)
    requires 0 <= i < |t| && n <= |t|
  {
    (forall k | 0 < k < n && (k - 1) / 2 != i && (k != i || moved) :: AboveIsSooner(t, k)) && Bridged(t, i, n)
  }

  function Swapped<T>(s: seq<T>, i: int, j: int): seq<T>
    requires 0 <= i < |s| && 0 <= j < |s|
  {
    s[i := s[j]][j := s[i]]
  }

  lemma SwappedMembers<T>(s: seq<T>, i: int, j: int)
    requires 0 <= i < |s| && 0 <= j < |s|
    ensures forall e :: e in s <==> e in Swapped(s, i, j)
  {
    var u := Swapped(s, i, j);
    forall e | e in s ensures e in u {
      var k :| 0 <= k < |s| && s[k] == e;
      assert u[if k == i then j else if k == j then i else k] == e;
    }
  }

  lemma UpStep(t: seq<int>, j: int, n: int)
    requires 0 < j < n <= |t| && OrderedButAbove(t, j, n) && t[j] < t[(j - 1) / 2]
    ensures OrderedButAbove(Swapped(t, (j - 1) / 2, j), (j - 1) / 2, n)
  {
    var i := (j - 1) / 2;
    assert i > 0 ==> AboveIsSooner(t, i);
    forall k | 0 < k < n && k != i ensures AboveIsSooner(Swapped(t, i, j), k) {
      if k != j { assert AboveIsSooner(t, k); }
    }
    forall k | i > 0 && 0 < k < n && (k - 1) / 2 == i ensures t[(i - 1) / 2] <= Swapped(t, i, j)[k] {
      if k != j { assert AboveIsSooner(t, k); }
    }
  }

  /** `c` is the child of `i` that is due first. */
  predicate SoonestBelow(t: seq<int>, i: int, c: int, n: int)
    requires 0 <= i && n <= |t|
  {
    && 0 < c < n && (c - 1) / 2 == i
    && forall k | 0 < k < n && (k - 1) / 2 == i :: t[c] <= t[k]
  }

  lemma DownStep(t: seq<int>, i: int, c: int, n: int, moved: bool)
    requires 0 <= i < n <= |t| && OrderedButBelow(t, i, n, moved) && SoonestBelow(t, i, c, n) && t[c] < t[i]
    ensures OrderedButBelow(Swapped(t, i, c), c, n, true)
  {
    var u := Swapped(t, i, c);
    forall k | 0 < k < n && (k - 1) / 2 != c ensures AboveIsSooner(u, k) {
      if (k - 1) / 2 != i && k != i { assert AboveIsSooner(t, k); }
    }
    forall k | 0 < k < n && (k - 1) / 2 == c ensures u[(c - 1) / 2] <= u[k] {
      assert AboveIsSooner(t, k);
    }
  }

  lemma DownStops(t: seq<int>, i: int, c: int, n: int, moved: bool)
    requires 0 <= i < |t| && 0 <= n <= |t| && OrderedButBelow(t, i, n, moved)
    requires n <= 2 * i + 1 || (SoonestBelow(t, i, c, n) && t[i] <= t[c])
    ensures moved || i == 0 ==> forall k | 0 < k < n :: AboveIsSooner(t, k)
    ensures i < n ==> OrderedButAbove(t, i, n)
  {
    forall k | 0 < k < n && (k != i || moved) ensures AboveIsSooner(t, k) {
      if (k - 1) / 2 == i { assert t[i] <= t[k]; }
    }
  }

  /** The root of the heap is due first. */
  lemma {:induction false} RootIsSoonest(t: seq<int>, k: int)
    requires HeapOrdered(t) && 0 <= k < |t|
    ensures t[0] <= t[k]
  {
    if k > 0 {
      RootIsSoonest(t, (k - 1) / 2);
      assert AboveIsSooner(t, k);
    }
  }

  /** Making one entry due sooner leaves the heap in order but for the entries above it. */
  lemma SoonerBreaksOnlyAbove(t: seq<int>, i: int, due: int)
    requires HeapOrdered(t) && 0 <= i < |t| && due <= t[i]
    ensures OrderedButBelow(t[i := due], i, |t|, false)
  {
    var u := t[i := due];
    forall k | 0 < k < |t| && (k - 1) / 2 != i && k != i ensures AboveIsSooner(u, k) {
      assert AboveIsSooner(t, k);
    }
    forall k | i > 0 && 0 < k < |t| && (k - 1) / 2 == i ensures u[(i - 1) / 2] <= u[k] {
      assert AboveIsSooner(t, k) && AboveIsSooner(t, i);
    }
  }

  lemma LastIsLoose(t: seq<int>, due: int)
    requires HeapOrdered(t)
    ensures OrderedButAbove(t + [due], |t|, |t| + 1)
  {
    forall k | 0 < k < |t| ensures AboveIsSooner(t + [due], k) { assert AboveIsSooner(t, k); }
  }

  lemma RootIsLoose(t: seq<int>)
    requires HeapOrdered(t) && t != []
    ensures OrderedButBelow(Swapped(t, 0, |t| - 1), 0, |t| - 1, false)
  {
    var u := Swapped(t, 0, |t| - 1);
    forall k | 0 < k < |t| - 1 && (k - 1) / 2 != 0 ensures AboveIsSooner(u, k) { assert AboveIsSooner(t, k); }
  }

  lemma PrefixOrdered(t: seq<int>, n: int)
    requires 0 <= n <= |t| && forall k | 0 < k < n :: AboveIsSooner(t, k)
    ensures HeapOrdered(t[..n])
  {
    forall k | 0 < k < n ensures AboveIsSooner(t[..n], k) { assert AboveIsSooner(t, k); }
  }

  // ----- Release passes -----

  /** `out` has been released from `v0`, and `v` is left. */
  ghost predicate SoFar(v0: Waiting, v: Waiting, now: int, out: seq<Item>) {
    && v == v0 - (set x | x in out)
    && IsRelease(v0 - v.Keys, now, out)
    && forall i, x | 0 <= i < |out| && x in v :: out[i] in v0 && v0[out[i]] <= v[x]
  }

  lemma SoFarStarts(v: Waiting, now: int)
    ensures SoFar(v, v, now, [])
  {
    assert v - v.Keys == map[];
  }

  lemma SoFarStep(v0: Waiting, v: Waiting, now: int, out: seq<Item>, x: Item)
    requires SoFar(v0, v, now, out) && x in v && v[x] <= now && forall y | y in v :: v[x] <= v[y]
    ensures SoFar(v0, v - {x}, now, out + [x])
  {
  }

  lemma SoFarEnds(v0: Waiting, v: Waiting, now: int, out: seq<Item>)
    requires SoFar(v0, v, now, out) && forall x | x in v :: v[x] > now
    ensures v == Remaining(v0, now) && IsRelease(v0, now, out)
  {
  }

  // ----- The heap -----

  class WaitFor {
    const data: Item
    var readyAt: int
    /** The position in the heap. */
    var index: int

    constructor (data: Item, readyAt: int)
      ensures this.data == data && this.readyAt == readyAt
    {
      this.data, this.readyAt, index := data, readyAt, 0;
    }
  }

  /** The priority queue, with the functions of the standard heap package that work on it. */
  class WaitForPriorityQueue {
    var entries: seq<WaitFor>
    ghost var times: seq<int>

    constructor ()
      ensures Valid() && HeapOrdered(times) && entries == []
    {
      entries, times := [], [];
    }

    /** Each entry knows its position. */
    ghost predicate Valid()
      reads this, entries
    {
      |times| == |entries| && forall i {:trigger entries[i]} | 0 <= i < |entries| ::
        entries[i].index == i && entries[i].readyAt == times[i]
    }

    ghost function Members(): set<WaitFor>
      reads this
    {
      set e | e in entries
    }

    method Swap(i: int, j: int)
      requires Valid() && 0 <= i < |entries| && 0 <= j < |entries|
      modifies this, Members()`index
      ensures Valid() && times == Swapped(old(times), i, j) && entries == Swapped(old(entries), i, j)
      ensures Members() == old(Members())
    {
      SwappedMembers(entries, i, j);
      entries := Swapped(entries, i, j);
      entries[i].index := i;
      entries[j].index := j;
      times := Swapped(times, i, j);
    }

    method Up(j0: int)
      requires Valid() && 0 <= j0 < |entries| && OrderedButAbove(times, j0, |times|)
      modifies this, Members()`index
      ensures Valid() && HeapOrdered(times) && Members() == old(Members()) && |entries| == old(|entries|)
    {
      var j := j0;
      while true
        invariant Valid() && Members() == old(Members()) && |entries| == old(|entries|)
        invariant 0 <= j < |entries| && OrderedButAbove(times, j, |times|)
        decreases j
      {
        var i := if j == 0 then 0 else (j - 1) / 2;
        if i == j || !(entries[j].readyAt < entries[i].readyAt) {
          break;
        }
        UpStep(times, j, |times|);
        Swap(i, j);
        j := i;
      }
    }

    /** Returns whether the entry has moved. */
    method Down(i0: int, n: int) returns (moved: bool)
      requires Valid() && 0 <= i0 < |entries| && 0 <= n <= |entries| && OrderedButBelow(times, i0, n, false)
      modifies this, Members()`index
      ensures Valid() && Members() == old(Members()) && |entries| == old(|entries|) && entries[n..] == old(entries[n..])
      ensures !moved && i0 < n ==> OrderedButAbove(times, i0, n)
      ensures moved || i0 == 0 ==> forall k | 0 < k < n :: AboveIsSooner(times, k)
    {
      var i := i0;
      moved := false;
      while true
        invariant Valid() && Members() == old(Members()) && |entries| == old(|entries|)
          && entries[n..] == old(entries[n..])
        invariant 0 <= i < |entries| && OrderedButBelow(times, i, n, moved)
        invariant moved == (i > i0) && i0 <= i
        decreases n - i
      {
        if 2 * i + 1 >= n {
          DownStops(times, i, 0, n, moved);
          break;
        }
        var j := SoonestChild(i, n);
        if !(entries[j].readyAt < entries[i].readyAt) {
          DownStops(times, i, j, n, moved);
          break;
        }
        DownStep(times, i, j, n, moved);
        Swap(i, j);
        i, moved := j, true;
      }
    }

    method SoonestChild(i: int, n: int) returns (j: int)
      requires Valid() && 0 <= i && 2 * i + 1 < n <= |entries|
      ensures SoonestBelow(times, i, j, n)
    {
      j := 2 * i + 1;
      if j + 1 < n && entries[j + 1].readyAt < entries[j].readyAt {
        j := j + 1;
      }
      forall k | 0 < k < n && (k - 1) / 2 == i ensures times[j] <= times[k] {
        assert k == 2 * i + 1 || k == 2 * i + 2;
      }
    }

    /** `heap.Fix`, after the entry at `i` has been made due sooner. */
    method Fix(i: int)
      requires Valid() && 0 <= i < |entries| && OrderedButBelow(times, i, |times|, false)
      modifies this, Members()`index
      ensures Valid() && HeapOrdered(times) && Members() == old(Members())
    {
      var moved := Down(i, |entries|);
      if !moved {
        Up(i);
      }
    }

    /** An entry is made due sooner and moved up. */
    method MakeSooner(e: WaitFor, due: int)
      requires Valid() && HeapOrdered(times) && e in Members() && due <= e.readyAt
      modifies this, Members()`index, e`readyAt
      ensures Valid() && HeapOrdered(times) && Members() == old(Members()) && e.readyAt == due
    {
      SoonerBreaksOnlyAbove(times, e.index, due);
      e.readyAt := due;
      times := times[e.index := due];
      Fix(e.index);
    }

    /** `heap.Push`. */
    method Push(e: WaitFor)
      requires Valid() && HeapOrdered(times) && e !in Members()
      modifies this, Members()`index, e`index
      ensures Valid() && HeapOrdered(times) && Members() == old(Members()) + {e}
    {
      LastIsLoose(times, e.readyAt);
      e.index := |entries|;
      entries := entries + [e];
      times := times + [e.readyAt];
      Up(|entries| - 1);
    }

    /** `heap.Pop` takes out an entry that is due no later than any other. */
    method Pop() returns (e: WaitFor)
      requires Valid() && HeapOrdered(times) && entries != []
      modifies this, Members()`index
      ensures Valid() && HeapOrdered(times)
      ensures e == old(entries[0]) && Members() == old(Members()) - {e} && |entries| == |old(entries)| - 1
    {
      var n := |entries| - 1;
      RootIsLoose(times);
      Swap(0, n);
      assert entries[n..] == [old(entries[0])];
      var moved := Down(0, n);
      assert entries[n] == entries[n..][0];
      e := entries[n];
      PrefixOrdered(times, n);
      assert entries == entries[..n] + [e];
      assert forall k | 0 <= k < n :: entries[k] != e;
      e.index := -1;
      entries := entries[..n];
      times := times[..n];
    }

    lemma RootIsFirst(e: WaitFor)
      requires Valid() && HeapOrdered(times) && e in Members()
      ensures entries[0].readyAt <= e.readyAt
    {
      RootIsSoonest(times, e.index);
    }
  }

  // ----- The loop -----

  class WaitingLoop {
    const queue: FairQueue
    const waiting: WaitForPriorityQueue
    var byData: map<Item, WaitFor>
    /** The waiting items and their times. */
    ghost var view: Waiting

    constructor (queue: FairQueue)
      requires queue.Valid()
      ensures Valid() && this.queue == queue && view == map[]
      ensures fresh(waiting)
    {
      this.queue := queue;
      waiting := new WaitForPriorityQueue();
      byData, view := map[], map[];
    }

    /** The map by data and the heap hold the same entries. */
    ghost predicate Known()
      reads this, waiting, waiting.Members()
    {
      && byData.Keys == view.Keys
      && (forall e | e in waiting.Members() :: e.data in byData && byData[e.data] == e && view[e.data] == e.readyAt)
      && (forall x | x in byData :: byData[x] in waiting.Members() && byData[x].data == x)
    }

    ghost predicate Valid()
      reads this, waiting, waiting.entries, waiting.Members(), queue, queue.balancer
    {
      queue.Valid() && waiting.Valid() && HeapOrdered(waiting.times) && Known()
    }

    /** `AddAfter`: what is sent to the loop. */
    method AddAfter(x: Item, duration: int, now: int) returns (sent: WaitFor?)
      requires Valid()
      modifies queue, queue.balancer
      ensures Valid() && (sent != null <==> !old(queue.shuttingDown) && duration > 0)
      ensures sent != null ==> fresh(sent) && sent.data == x && sent.readyAt == now + duration
      ensures queue.View() == if sent != null then old(queue.View()) else Added(old(queue.View()), x, now)
    {
      sent := null;
      if queue.shuttingDown {
        return;
      }
      if duration <= 0 {
        queue.Add(x, now);
        return;
      }
      sent := new WaitFor(x, now + duration);
    }

    /** `insert`. */
    method Insert(e: WaitFor)
      requires Valid() && e !in waiting.Members()
      modifies this, waiting, waiting.Members(), e`index
      ensures Valid() && view == Inserted(old(view), e.data, e.readyAt)
    {
      if e.data in byData {
        var existing := byData[e.data];
        if existing.readyAt > e.readyAt {
          waiting.MakeSooner(existing, e.readyAt);
          view := view[e.data := e.readyAt];
        }
        return;
      }
      InsertNew(e);
    }

    /** ... an item that is not waiting. */
    method InsertNew(e: WaitFor)
      requires Valid() && e !in waiting.Members() && e.data !in byData
      modifies this`byData, this`view, waiting, waiting.Members()`index, e`index
      ensures Valid() && view == old(view)[e.data := e.readyAt]
    {
      waiting.Push(e);
      byData := byData[e.data := e];
      view := view[e.data := e.readyAt];
    }

    /** The loop receives a request. */
    method Receive(e: WaitFor, now: int)
      requires Valid() && e !in waiting.Members()
      modifies this, waiting, waiting.Members(), e`index, queue, queue.balancer
      ensures Valid() && view == Next(old(view), Ask(e.data, e.readyAt, now))
      ensures queue.View() == if e.readyAt > now then old(queue.View()) else Added(old(queue.View()), e.data, now)
    {
      if e.readyAt > now {
        Insert(e);
      } else {
        queue.Add(e.data, now);
      }
    }

    /** One turn of the inner loop: the entry that is due first is handed over. */
    method ReleaseOne(now: int) returns (x: Item)
      requires Valid() && waiting.entries != []
      modifies this, waiting, waiting.Members()`index, queue, queue.balancer
      ensures Valid() && x in old(view) && view == old(view) - {x} && |waiting.entries| < |old(waiting.entries)|
      ensures x == old(waiting.entries[0].data)
      ensures waiting.Members() <= old(waiting.Members())
      ensures queue.View() == Added(old(queue.View()), x, now)
    {
      var e := waiting.Pop();
      x := e.data;
      queue.Add(x, now);
      Forget(e);
    }

    /** The map by data holds the entries in the heap and `e`, which has been taken out. */
    ghost predicate KnownWith(e: WaitFor)
      reads this, waiting, waiting.Members()
    {
      && byData.Keys == view.Keys && e !in waiting.Members() && e.data in byData && byData[e.data] == e
      && (forall m | m in waiting.Members() :: m.data in byData && byData[m.data] == m && view[m.data] == m.readyAt)
      && (forall x | x in byData && x != e.data :: byData[x] in waiting.Members() && byData[x].data == x)
    }

    method Forget(e: WaitFor)
      requires KnownWith(e)
      modifies this`byData, this`view
      ensures Known() && view == old(view) - {e.data}
    {
      byData := byData - {e.data};
      view := view - {e.data};
    }

    lemma FirstIsSoonest()
      requires Valid() && waiting.entries != []
      ensures var e := waiting.entries[0]; e.data in view && view[e.data] == e.readyAt
      ensures forall x | x in view :: waiting.entries[0].readyAt <= view[x]
    {
      forall x | x in view ensures waiting.entries[0].readyAt <= view[x] {
        waiting.RootIsFirst(byData[x]);
      }
      assert waiting.entries[0] in waiting.Members();
    }

    /** The release pass. */
    method Release(now: int) returns (ghost out: seq<Item>)
      requires Valid()
      modifies this, waiting, waiting.Members()`index, queue, queue.balancer
      ensures Valid() && view == Next(old(view), Pass(now)) && IsRelease(old(view), now, out)
      ensures queue.View() == AddedAll(old(queue.View()), out, now)
    {
      out := [];
      SoFarStarts(view, now);
      while |waiting.entries| > 0
        invariant Valid() && waiting.Members() <= old(waiting.Members())
        invariant SoFar(old(view), view, now, out)
        invariant queue.View() == AddedAll(old(queue.View()), out, now)
        decreases |waiting.entries|
      {
        if waiting.entries[0].readyAt > now {
          FirstIsSoonest();
          break;
        }
        out := ReleaseNext(now, old(view), old(queue.View()), out);
      }
      if waiting.entries == [] { WaitingHasEntries(); }
      SoFarEnds(old(view), view, now, out);
    }

    method ReleaseNext(now: int, ghost v0: Waiting, ghost q0: Queue, ghost out: seq<Item>)
      returns (ghost next: seq<Item>)
      requires Valid() && waiting.entries != [] && waiting.entries[0].readyAt <= now
      requires SoFar(v0, view, now, out) && queue.View() == AddedAll(q0, out, now)
      modifies this, waiting, waiting.Members()`index, queue, queue.balancer
      ensures Valid() && |waiting.entries| < |old(waiting.entries)| && waiting.Members() <= old(waiting.Members())
      ensures SoFar(v0, view, now, next) && queue.View() == AddedAll(q0, next, now)
    {
      FirstIsSoonest();
      ghost var v := view;
      var x := ReleaseOne(now);
      SoFarStep(v0, v, now, out, x);
      next := out + [x];
      assert next[..|out|] == out;
    }

    lemma WaitingHasEntries()
      requires Valid()
      ensures view != map[] ==> waiting.entries != []
    {
      if x :| x in view {
        assert byData[x] in waiting.Members();
      }
    }

    /** A turn of the loop up to the point at which it blocks: the time it wakes up by itself, if
        any, is that of the item due next, and it lies in the future. */
    method Turn(now: int) returns (stop: bool, wake: Option<int>, ghost out: seq<Item>)
      requires Valid()
      modifies this, waiting, waiting.Members()`index, queue, queue.balancer
      ensures Valid() && stop == old(queue.shuttingDown)
      ensures stop ==> view == old(view) && queue.View() == old(queue.View())
      ensures !stop ==> view == Next(old(view), Pass(now)) && IsRelease(old(view), now, out)
      ensures !stop ==> queue.View() == AddedAll(old(queue.View()), out, now)
      ensures !stop ==> (wake == None <==> view == map[])
      ensures wake.Some? ==> wake.value > now && exists x :: x in view && view[x] == wake.value
      ensures wake.Some? ==> forall x | x in view :: wake.value <= view[x]
    {
      stop, wake, out := queue.shuttingDown, None, [];
      if stop {
        return;
      }
      out := Release(now);
      if |waiting.entries| > 0 {
        FirstIsSoonest();
        wake := Some(waiting.entries[0].readyAt);
      }
      WaitingHasEntries();
    }
  }
}
