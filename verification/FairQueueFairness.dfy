/** How long an item waits: over a fixed set of G groups, the item at position k of its group is handed
    out within (k + 1) * G calls of `Get`, and the items of a group leave in the order they came. */
module FairQueueFairness {
  import opened Names
  import opened RoundRobin
  import opened FairQueueState
  import opened FairQueueRuns

  /** `x` waits at position `k` of the FIFO of its group. */
  predicate WaitsAt(s: Queue, x: Item, k: nat) {
    x.group in s.groups && k < |s.groups[x.group].queue| && s.groups[x.group].queue[k] == x
  }

  ghost predicate IsPosition(s: Queue, g: Name, j: nat) {
    j < |s.order| && s.order[j] == g
  }

  /** An upper bound on the calls of `Get` until the item at position `k` of the `j`-th group leaves. */
  ghost function Wait(s: Queue, j: nat, k: nat): nat
    requires Safe(s) && j < |s.order|
  {
    k * |s.order| + if |s.order| == 1 then 1 else Distance(s.at, j, |s.order|)
  }

  lemma WaitAtMost(s: Queue, j: nat, k: nat)
    requires Safe(s) && j < |s.order|
    ensures 1 <= Wait(s, j, k) <= (k + 1) * |s.order|
  {
    assert (k + 1) * |s.order| == k * |s.order| + |s.order|;
    assert k * |s.order| >= 0;
  }

  lemma WaitingIsServable(s: Queue, x: Item, j: nat, k: nat)
    requires Safe(s) && IsPosition(s, x.group, j) && WaitsAt(s, x, k)
    ensures Servable(s) && NonEmpty(s, s.order[j])
  {
    assert NonEmpty(s, s.order[j]);
  }

  /** A `Get` hands out `x` or brings it nearer by at least one call. */
  lemma GetAdvances(s: Queue, x: Item, j: nat, k: nat, now: int)
    requires Safe(s) && IsPosition(s, x.group, j) && WaitsAt(s, x, k)
    ensures Servable(s) && Safe(Taken(s, now)) && Taken(s, now).order == s.order
    ensures Head(s) == x <==> (k == 0 && s.order[NextGroup(s)] == x.group)
    ensures Head(s) != x ==>
      var k' := if s.order[NextGroup(s)] == x.group then k - 1 else k;
      k' >= 0 && WaitsAt(Taken(s, now), x, k') && Wait(Taken(s, now), j, k') < Wait(s, j, k)
  {
    WaitingIsServable(s, x, j, k);
    TakenSafe(s, now);
    var n := |s.order|;
    var r := NextGroup(s);
    var g := s.order[r];
    var t := Taken(s, now);
    assert GroupOk(s, x.group) && GroupOk(s, g);
    assert s.groups[g].queue[0] in s.groups[g].queue;
    if g == x.group {
      assert r == j;
      if k > 0 { OneRoundLess(k, n); }
    } else {
      assert r != j;
      PickIsNearest(s, s.at, n, j);
      Nearer(s.at, r, j, n);
    }
  }

  lemma OneRoundLess(k: nat, n: nat)
    requires k > 0
    ensures (k - 1) * n + n == k * n
  {
  }

  /** Moving to a nearer position brings the others nearer. */
  lemma Nearer(at: int, r: nat, j: nat, n: nat)
    requires -1 <= at < n && r < n && j < n && r != j && Distance(at, r, n) <= Distance(at, j, n)
    ensures Distance(r, j, n) < Distance(at, j, n)
  {
  }

  /** Anything else that registers no group leaves the item where it is. */
  lemma OthersKeepPlace(s: Queue, op: Op, x: Item, j: nat, k: nat)
    requires Safe(s) && Legal(s, op) && IsPosition(s, x.group, j) && WaitsAt(s, x, k)
    requires !op.Get? && After(s, op).order == s.order
    ensures WaitsAt(After(s, op), x, k) && Safe(After(s, op))
    ensures Wait(After(s, op), j, k) == Wait(s, j, k)
  {
    StepSafe(s, op);
    PositionKept(s, op);
    assert After(s, op).at == s.at;
  }

  lemma PositionKept(s: Queue, op: Op)
    requires Safe(s) && !op.Get? && s.order != [] && After(s, op).order == s.order
    ensures After(s, op).at == s.at
  {
    if op.Clean? {
      var gone := set g | g in s.groups && Idle(s.groups[g], op.now, op.expire);
      KeptMembers(s.order, gone);
      forall g | g in s.order[..s.at + 1] ensures g !in gone { assert g in Kept(s.order, gone); }
      KeptNone(s.order[..s.at + 1], gone);
    }
  }

  lemma {:induction false} KeptNone(order: seq<Name>, gone: set<Name>)
    requires forall g | g in order :: g !in gone
    ensures Kept(order, gone) == order
    decreases |order|
  {
    if order != [] { KeptNone(order[1..], gone); }
  }

  /** The groups and the places in the balancer never change during the run. */
  ghost predicate FixedGroups(s: Queue, ops: seq<Op>)
    requires Safe(s) && LegalRun(s, ops)
    decreases |ops|
  {
    ops == [] ||
    (After(s, ops[0]).order == s.order && (StepSafe(s, ops[0]); FixedGroups(After(s, ops[0]), ops[1..])))
  }

  /** Some `Get` of the run hands out `x`. */
  ghost predicate HandsOut(s: Queue, ops: seq<Op>, x: Item)
    requires Safe(s) && LegalRun(s, ops)
    decreases |ops|
  {
    ops != [] &&
    ((ops[0].Get? && Findable(s) && Head(s) == x) || (StepSafe(s, ops[0]); HandsOut(After(s, ops[0]), ops[1..], x)))
  }

  function Gets(ops: seq<Op>): nat {
    if ops == [] then 0 else (if ops[0].Get? then 1 else 0) + Gets(ops[1..])
  }

  lemma {:induction false} WaitBoundsGets(s: Queue, ops: seq<Op>, x: Item, j: nat, k: nat)
    requires Safe(s) && LegalRun(s, ops) && FixedGroups(s, ops)
    requires IsPosition(s, x.group, j) && WaitsAt(s, x, k)
    ensures HandsOut(s, ops, x) || Gets(ops) < Wait(s, j, k)
    decreases |ops|
  {
    WaitAtMost(s, j, k);
    if ops != [] {
      StepSafe(s, ops[0]);
      if ops[0].Get? {
        GetAdvances(s, x, j, k, ops[0].now);
        if Head(s) != x {
          var k' := if s.order[NextGroup(s)] == x.group then k - 1 else k;
          WaitBoundsGets(After(s, ops[0]), ops[1..], x, j, k');
        }
      } else {
        OthersKeepPlace(s, ops[0], x, j, k);
        WaitBoundsGets(After(s, ops[0]), ops[1..], x, j, k);
      }
    }
  }

  /** Over a fixed set of G groups, an item at position `k` is handed out within (k + 1) * G calls of
      `Get`, whatever else happens in between. */
  lemma HandedOutInTime(s: Queue, ops: seq<Op>, x: Item, k: nat)
    requires Safe(s) && LegalRun(s, ops) && FixedGroups(s, ops)
    requires x.group in s.order && WaitsAt(s, x, k)
    requires Gets(ops) >= (k + 1) * |s.order|
    ensures HandsOut(s, ops, x)
  {
    var j :| 0 <= j < |s.order| && s.order[j] == x.group;
    WaitAtMost(s, j, k);
    WaitBoundsGets(s, ops, x, j, k);
  }

  /** `x` waits before `y` in the same group. */
  ghost predicate Before(s: Queue, x: Item, y: Item) {
    x.group == y.group && exists i: nat, k: nat :: i < k && WaitsAt(s, x, i) && WaitsAt(s, y, k)
  }

  lemma StepKeepsOrder(s: Queue, op: Op, x: Item, y: Item)
    requires Safe(s) && Legal(s, op) && Before(s, x, y)
    requires !(op.Get? && Findable(s) && Head(s) == x)
    ensures Safe(After(s, op)) && Before(After(s, op), x, y)
    ensures op.Get? && Findable(s) ==> Head(s) != y
  {
    StepSafe(s, op);
    var i: nat, k: nat :| i < k && WaitsAt(s, x, i) && WaitsAt(s, y, k);
    if op.Get? && Findable(s) {
      GetKeepsOrder(s, op.now, x, y, i, k);
    } else {
      StaysAt(s, op, x, i);
      StaysAt(s, op, y, k);
    }
  }

  lemma StaysAt(s: Queue, op: Op, x: Item, i: nat)
    requires Safe(s) && Legal(s, op) && WaitsAt(s, x, i) && !(op.Get? && Findable(s))
    ensures WaitsAt(After(s, op), x, i)
  {
  }

  lemma GetKeepsOrder(s: Queue, now: int, x: Item, y: Item, i: nat, k: nat)
    requires Safe(s) && Findable(s) && x.group == y.group && i < k && WaitsAt(s, x, i) && WaitsAt(s, y, k)
    requires Head(s) != x
    ensures Before(Taken(s, now), x, y) && Head(s) != y
  {
    var t := Taken(s, now);
    var g := Found(s);
    assert GroupOk(s, x.group) && GroupOk(s, g);
    if g == x.group {
      assert WaitsAt(t, x, i - 1) && WaitsAt(t, y, k - 1);
    } else {
      assert s.groups[g].queue[0] in s.groups[g].queue;
      assert WaitsAt(t, x, i) && WaitsAt(t, y, k);
    }
  }

  /** The items of a group leave in the order they came: nobody overtakes. */
  lemma {:induction false} NobodyOvertakes(s: Queue, ops: seq<Op>, x: Item, y: Item)
    requires Safe(s) && LegalRun(s, ops) && Before(s, x, y) && !HandsOut(s, ops, x)
    ensures Before(AfterRun(s, ops), x, y) && !HandsOut(s, ops, y)
    decreases |ops|
  {
    if ops != [] {
      StepKeepsOrder(s, ops[0], x, y);
      NobodyOvertakes(After(s, ops[0]), ops[1..], x, y);
    }
  }
}
