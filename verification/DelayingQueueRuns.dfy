/** The delaying queue by what it answers: each waiting item with the time at which it is due. */
module DelayingQueueRuns {
  import opened FairQueueState

  /** The waiting items. */
  type Waiting = map<Item, int>

  /** `insert`: a request for an item that is waiting only ever makes it due sooner. */
  function Inserted(v: Waiting, x: Item, due: int): Waiting {
    if x in v && v[x] <= due then v else v[x := due]
  }

  /** What a release pass leaves behind. */
  function Remaining(v: Waiting, now: int): Waiting {
    map x | x in v && v[x] > now :: v[x]
  }

  /** `out` lists the items due at `now`, each once, those due first in front. */
  ghost predicate IsRelease(v: Waiting, now: int, out: seq<Item>) {
    && (forall x :: x in out <==> x in v && v[x] <= now)
    && (forall i, j | 0 <= i < j < |out| :: out[i] != out[j])
    && (forall i, j | 0 <= i < j < |out| :: out[i] in v && out[j] in v && v[out[i]] <= v[out[j]])
  }

  /** The fair queue after `Add` on each item in turn. */
  function AddedAll(s: Queue, xs: seq<Item>, now: int): Queue {
    if xs == [] then s else Added(AddedAll(s, xs[..|xs| - 1], now), xs[|xs| - 1], now)
  }

  // ----- Runs -----

  /** The item waits and is due no later than `due`. */
  predicate DueBy(v: Waiting, x: Item, due: int) {
    x in v && v[x] <= due
  }

  /** `Ask`: the loop receives a request while the clock shows `now`. `Pass`: a release pass. */
  datatype Event = Ask(x: Item, due: int, now: int) | Pass(now: int)

  function Next(v: Waiting, e: Event): Waiting {
    match e
    case Ask(x, due, now) => if due > now then Inserted(v, x, due) else v
    case Pass(now) => Remaining(v, now)
  }

  function Run(es: seq<Event>): Waiting {
    if es == [] then map[] else Next(Run(es[..|es| - 1]), es[|es| - 1])
  }

  /** Event `i` of the run is a request for `x` that has to wait. */
  predicate Asks(es: seq<Event>, i: nat, x: Item, due: int)
    requires i < |es|
  {
    es[i].Ask? && es[i].x == x && es[i].due == due && due > es[i].now
  }

  /** Event `k` of the run is a pass that hands `x` over to the fair queue. */
  predicate Leaves(es: seq<Event>, k: nat, x: Item)
    requires k < |es|
  {
    es[k].Pass? && DueBy(Run(es[..k]), x, es[k].now)
  }

  /** `x` has not been released since event `i`. */
  predicate StillWaits(es: seq<Event>, i: nat, x: Item) {
    forall k | i <= k < |es| :: !Leaves(es, k, x)
  }

  lemma StillWaitsStep(es: seq<Event>, i: nat, x: Item)
    requires es != [] && i < |es|
    ensures var before := es[..|es| - 1];
      StillWaits(es, i, x) <==> StillWaits(before, i, x) && !Leaves(es, |es| - 1, x)
  {
    var before := es[..|es| - 1];
    forall k: nat | k < |before| ensures Leaves(es, k, x) <==> Leaves(before, k, x) {
      assert es[..k] == before[..k];
    }
  }

  /** A request that has not been met is still waiting, due no later than it asked for. */
  lemma {:induction false} RequestIsKept(es: seq<Event>, i: nat, x: Item, due: int)
    requires i < |es| && Asks(es, i, x, due) && StillWaits(es, i, x)
    ensures DueBy(Run(es), x, due)
  {
    var last := |es| - 1;
    if i < last {
      StillWaitsStep(es, i, x);
      RequestIsKept(es[..last], i, x, due);
    }
  }

  /** No request is met late: the first pass at or after its time, if not an earlier one, hands it over. */
  lemma NoRequestIsLate(es: seq<Event>, i: nat, j: nat, x: Item, due: int)
    requires i < j < |es| && Asks(es, i, x, due) && es[j].Pass? && es[j].now >= due
    ensures exists k: nat :: i <= k <= j && Leaves(es, k, x)
  {
    if StillWaits(es[..j], i, x) {
      RequestIsKept(es[..j], i, x, due);
      assert Leaves(es, j, x);
    } else {
      var k: nat :| i <= k < j && Leaves(es[..j], k, x);
      assert es[..j][..k] == es[..k];
      assert Leaves(es, k, x);
    }
  }

  /** Request `i` is for the time at which `x` is due, and `x` has not been released since. */
  predicate Grounds(es: seq<Event>, i: nat, x: Item) {
    i < |es| && x in Run(es) && Asks(es, i, x, Run(es)[x]) && StillWaits(es, i, x)
  }

  /** A waiting item has been asked for at exactly the time at which it is due. */
  lemma {:induction false} WaitingWasAsked(es: seq<Event>, x: Item)
    requires x in Run(es)
    ensures exists i: nat :: Grounds(es, i, x)
  {
    var last := |es| - 1;
    var before := es[..last];
    if es[last].Ask? && es[last].x == x && !(x in Run(before) && Run(before)[x] == Run(es)[x]) {
      assert Grounds(es, last, x);
    } else {
      WaitingWasAsked(before, x);
      var i: nat :| Grounds(before, i, x);
      StillWaitsStep(es, i, x);
      assert Asks(es, i, x, Run(es)[x]);
      assert Grounds(es, i, x);
    }
  }

  /** While an item waits, its time is the earliest of all that were asked for since it last left. */
  lemma DueIsEarliestAsked(es: seq<Event>, x: Item)
    requires x in Run(es)
    ensures exists i: nat :: Grounds(es, i, x)
    ensures forall i: nat, due | i < |es| && Asks(es, i, x, due) && StillWaits(es, i, x) :: Run(es)[x] <= due
  {
    WaitingWasAsked(es, x);
    forall i: nat, due | i < |es| && Asks(es, i, x, due) && StillWaits(es, i, x) ensures Run(es)[x] <= due {
      RequestIsKept(es, i, x, due);
    }
  }

  /** Nothing is released early: a pass hands over only what was asked for at or before its time, and
      that request has not been met by an earlier pass. */
  lemma NothingIsEarly(es: seq<Event>, k: nat, x: Item)
    requires k < |es| && Leaves(es, k, x)
    ensures exists i: nat :: i < k && Grounds(es[..k], i, x) && es[i].due <= es[k].now
  {
    WaitingWasAsked(es[..k], x);
    var i: nat :| Grounds(es[..k], i, x);
    assert es[..k][i] == es[i];
  }

  /** After a pass everything that waits is strictly in the future, and a second pass at the same
      time finds nothing. */
  lemma PassLeavesTheFuture(v: Waiting, now: int, out: seq<Item>)
    ensures forall x | x in Remaining(v, now) :: Remaining(v, now)[x] > now
    ensures Remaining(Remaining(v, now), now) == Remaining(v, now)
    ensures IsRelease(Remaining(v, now), now, out) <==> out == []
  {
    if out != [] && IsRelease(Remaining(v, now), now, out) {
      assert out[0] in out;
    }
  }
}
