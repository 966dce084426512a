/** What every run of the fair queue keeps: safety without any assumption on the garbage collection,
    no loss if the collection spares the groups in use, and a bound on how long an item waits. */
module FairQueueRuns {
  import opened Names
  import opened RoundRobin
  import opened FairQueueState

  datatype Op =
    | Add(x: Item, now: int)
    | Get(now: int)
    | Done(x: Item, now: int)
    | Clean(now: int, expire: int)
    | ShutDown

  /** A `Get` that finds no item changes nothing: with an empty queue the caller waits, and in a stuck one
      the search never ends or crashes, with the lock held. */
  function After(s: Queue, op: Op): Queue
    requires Safe(s)
  {
    match op
    case Add(x, now) => Added(s, x, now)
    case Get(now) => if Findable(s) then Taken(s, now) else s
    case Done(x, now) => Finished(s, x, now)
    case Clean(now, expire) => Cleaned(s, now, expire)
    case ShutDown => s.(down := true)
  }

  // ----- Safety -----

  lemma AddedSafe(s: Queue, x: Item, now: int)
    requires Safe(s)
    ensures Safe(Added(s, x, now))
  {
    if !s.down && x !in s.dirty && x !in s.processing {
      var t := Added(s, x, now);
      TotalUpdate(s.groups, x.group, t.groups[x.group]);
      forall g | g in t.groups ensures GroupOk(t, g) {
        if g in s.groups { assert GroupOk(s, g); }
      }
    } else if !s.down && x !in s.dirty {
      forall g | g in s.groups ensures GroupOk(Added(s, x, now), g) { assert GroupOk(s, g); }
    }
  }

  /** `Done` keeps the queue safe exactly if the item is not waiting in it. */
  lemma DoneSafeIff(s: Queue, x: Item, now: int)
    requires Safe(s)
    ensures Safe(Finished(s, x, now)) <==> !Queued(s, x)
  {
    var t := Finished(s, x, now);
    if Queued(s, x) {
      assert GroupOk(s, x.group);
      var q := s.groups[x.group].queue;
      var i :| 0 <= i < |q| && q[i] == x;
      var r := t.groups[x.group].queue;
      assert r == q + [x] && r[i] == r[|q|] && i < |q|;
      assert !Distinct(r);
      assert !GroupOk(t, x.group);
    } else {
      if x in s.dirty { TotalUpdate(s.groups, x.group, t.groups[x.group]); }
      forall g | g in t.groups ensures GroupOk(t, g) {
        if g in s.groups { assert GroupOk(s, g); }
      }
    }
  }

  /** An item in processing is not waiting, so finishing it once is safe. */
  lemma ProcessingNotQueued(s: Queue, x: Item)
    requires Safe(s) && x in s.processing
    ensures !Queued(s, x)
  {
    if x.group in s.groups { assert GroupOk(s, x.group); }
  }

  /** Finishing an item twice queues it twice if it was added again in between. */
  lemma SecondDoneDuplicates(s: Queue, x: Item, now: int)
    requires Safe(s) && x in s.processing && x !in s.dirty && !s.down
    ensures var t := Added(Finished(s, x, now), x, now); Safe(t) && Queued(t, x) && !Safe(Finished(t, x, now))
  {
    ProcessingNotQueued(s, x);
    DoneSafeIff(s, x, now);
    AddedSafe(Finished(s, x, now), x, now);
    DoneSafeIff(Added(Finished(s, x, now), x, now), x, now);
  }

  /** `Get` hands out an item that is dirty and not being processed, the first of its group. */
  lemma TakenSafe(s: Queue, now: int)
    requires Safe(s) && Findable(s)
    ensures Safe(Taken(s, now))
    ensures Head(s) in s.dirty && Head(s) !in s.processing && s.groups[Head(s).group].queue[0] == Head(s)
  {
    var g := Found(s);
    assert GroupOk(s, g);
    var t := Taken(s, now);
    TotalUpdate(s.groups, g, t.groups[g]);
    assert s.groups[g].queue[0] in s.groups[g].queue;
    forall h | h in t.groups ensures GroupOk(t, h) {
      assert GroupOk(s, h);
      assert forall y | y in t.groups[h].queue :: y in s.groups[h].queue;
      if h == g { FirstNotInRest(s.groups[g].queue); }
    }
  }

  lemma FirstNotInRest(q: seq<Item>)
    requires Distinct(q) && q != []
    ensures q[0] !in q[1..] && Distinct(q[1..])
  {
  }

  lemma {:induction false} KeptMembers(order: seq<Name>, gone: set<Name>)
    ensures forall g :: g in Kept(order, gone) <==> g in order && g !in gone
    decreases |order|
  {
    if order != [] {
      KeptMembers(order[1..], gone);
      assert order == [order[0]] + order[1..];
    }
  }

  lemma {:induction false} KeptDistinct(order: seq<Name>, gone: set<Name>)
    requires Unrepeated(order)
    ensures Unrepeated(Kept(order, gone))
    decreases |order|
  {
    if order != [] {
      KeptDistinct(order[1..], gone);
      KeptMembers(order[1..], gone);
      assert order[0] !in order[1..];
    }
  }

  lemma {:induction false} KeptAppend(a: seq<Name>, b: seq<Name>, gone: set<Name>)
    ensures Kept(a + b, gone) == Kept(a, gone) + Kept(b, gone)
    decreases |a|
  {
    if a == [] {
      assert a + b == b;
    } else {
      assert (a + b)[1..] == a[1..] + b;
      KeptAppend(a[1..], b, gone);
    }
  }

  /** The collected groups leave a position that is still inside the list. */
  lemma PositionStaysInside(order: seq<Name>, at: int, gone: set<Name>)
    requires -1 <= at < |order|
    ensures |Kept(order[..at + 1], gone)| <= |Kept(order, gone)|
  {
    var pre, post := order[..at + 1], order[at + 1..];
    KeptAppend(pre, post, gone);
    assert order == pre + post;
  }

  lemma CleanedSafe(s: Queue, now: int, expire: int)
    requires Safe(s)
    ensures Safe(Cleaned(s, now, expire))
  {
    var gone := set g | g in s.groups && Idle(s.groups[g], now, expire);
    var t := Cleaned(s, now, expire);
    TotalDropEmpty(s.groups, gone);
    KeptDistinct(s.order, gone);
    KeptMembers(s.order, gone);
    forall g | g in t.groups ensures GroupOk(t, g) { assert GroupOk(s, g); }
    if s.order != [] { PositionStaysInside(s.order, s.at, gone); }
  }

  /** Everything the queue does keeps it safe, if an item is only finished while it is processed. */
  predicate Legal(s: Queue, op: Op) {
    op.Done? ==> op.x in s.processing
  }

  lemma StepSafe(s: Queue, op: Op)
    requires Safe(s) && Legal(s, op)
    ensures Safe(After(s, op))
  {
    match op
    case Add(x, now) => AddedSafe(s, x, now);
    case Get(now) => if Findable(s) { TakenSafe(s, now); }
    case Done(x, now) => ProcessingNotQueued(s, x); DoneSafeIff(s, x, now);
    case Clean(now, expire) => CleanedSafe(s, now, expire);
    case ShutDown => forall g | g in s.groups ensures GroupOk(After(s, op), g) { assert GroupOk(s, g); }
  }

  ghost predicate LegalRun(s: Queue, ops: seq<Op>)
    requires Safe(s)
    decreases |ops|
  {
    ops == [] || (Legal(s, ops[0]) && (StepSafe(s, ops[0]); LegalRun(After(s, ops[0]), ops[1..])))
  }

  ghost function AfterRun(s: Queue, ops: seq<Op>): (t: Queue)
    requires Safe(s) && LegalRun(s, ops)
    ensures Safe(t)
    decreases |ops|
  {
    if ops == [] then s
    else
      StepSafe(s, ops[0]);
      AfterRun(After(s, ops[0]), ops[1..])
  }

  // ----- No loss -----

  /** Every dirty item that is not being processed is queued. */
  ghost predicate AllQueued(s: Queue) {
    forall x | x in s.dirty && x !in s.processing :: Queued(s, x)
  }

  /** `Done` loses nothing exactly if the group of the item still exists or the item is not dirty. */
  lemma DoneLosesNothingIff(s: Queue, x: Item, now: int)
    requires Safe(s) && AllQueued(s) && x in s.processing
    ensures AllQueued(Finished(s, x, now)) <==> x.group in s.groups || x !in s.dirty
  {
    var t := Finished(s, x, now);
    if x.group in s.groups || x !in s.dirty {
      forall y | y in t.dirty && y !in t.processing ensures Queued(t, y) {
        if y != x { assert Queued(s, y); }
      }
    } else {
      assert x in t.dirty && x !in t.processing && !Queued(t, x);
    }
  }

  /** The collection keeps the groups of all items in processing exactly if none of them is idle. */
  ghost predicate Spares(s: Queue, op: Op) {
    op.Clean? ==> forall x | x in s.processing && x.group in s.groups :: !Idle(s.groups[x.group], op.now, op.expire)
  }

  lemma CleanSparesIff(s: Queue, now: int, expire: int)
    requires Safe(s) && NothingLost(s)
    ensures NothingLost(Cleaned(s, now, expire)) <==> Spares(s, Clean(now, expire))
  {
    var t := Cleaned(s, now, expire);
    KeptMembers(s.order, set g | g in s.groups && Idle(s.groups[g], now, expire));
    if Spares(s, Clean(now, expire)) {
      forall x | x in t.dirty && x !in t.processing ensures Queued(t, x) { assert Queued(s, x); }
    } else {
      var x :| x in s.processing && x.group in s.groups && Idle(s.groups[x.group], now, expire);
      assert x in t.processing && x.group !in t.groups;
    }
  }

  lemma AddLosesNothing(s: Queue, x: Item, now: int)
    requires Safe(s) && NothingLost(s)
    ensures NothingLost(Added(s, x, now))
  {
    var t := Added(s, x, now);
    forall y | y in t.dirty && y !in t.processing ensures Queued(t, y) {
      if y != x { assert Queued(s, y); }
    }
  }

  lemma GetLosesNothing(s: Queue, now: int)
    requires Safe(s) && NothingLost(s) && Findable(s)
    ensures NothingLost(Taken(s, now))
  {
    var t := Taken(s, now);
    assert GroupOk(s, Found(s));
    assert Head(s) in s.groups[Found(s)].queue;
    forall y | y in t.dirty && y !in t.processing ensures Queued(t, y) {
      assert Queued(s, y);
      RestKeeps(s.groups[y.group].queue, y);
    }
  }

  lemma StepLosesNothing(s: Queue, op: Op)
    requires Safe(s) && NothingLost(s) && Legal(s, op) && Spares(s, op)
    ensures Safe(After(s, op)) && NothingLost(After(s, op))
  {
    StepSafe(s, op);
    match op
    case Add(x, now) => AddLosesNothing(s, x, now);
    case Get(now) => if Findable(s) { GetLosesNothing(s, now); }
    case Done(x, now) => DoneLosesNothingIff(s, x, now);
    case Clean(now, expire) => CleanSparesIff(s, now, expire);
    case ShutDown =>
      forall y | y in s.dirty && y !in s.processing ensures Queued(After(s, op), y) { assert Queued(s, y); }
  }

  lemma RestKeeps(q: seq<Item>, y: Item)
    requires y in q
    ensures y == q[0] || y in q[1..]
  {
  }

  ghost predicate SparingRun(s: Queue, ops: seq<Op>)
    requires Safe(s) && LegalRun(s, ops)
    decreases |ops|
  {
    ops == [] || (Spares(s, ops[0]) && (StepSafe(s, ops[0]); SparingRun(After(s, ops[0]), ops[1..])))
  }

  /** In every legal run the queue is safe; if the collection spares the groups of items in
      processing, nothing is lost, and `Get` finds an item whenever the length is not zero. */
  lemma {:induction false} RunLosesNothing(s: Queue, ops: seq<Op>)
    requires Safe(s) && LegalRun(s, ops)
    ensures Safe(AfterRun(s, ops))
    ensures NothingLost(s) && SparingRun(s, ops) ==> NothingLost(AfterRun(s, ops)) && !Stuck(AfterRun(s, ops))
    decreases |ops|
  {
    if ops == [] {
      if NothingLost(s) { RegisteredIsNotStuck(s); }
    } else {
      StepSafe(s, ops[0]);
      if NothingLost(s) && SparingRun(s, ops) { StepLosesNothing(s, ops[0]); }
      RunLosesNothing(After(s, ops[0]), ops[1..]);
    }
  }

  /** After a shutdown nothing new is accepted: whatever is handed out later was accepted before. */
  lemma {:induction false} DownAcceptsNothing(s: Queue, ops: seq<Op>)
    requires Safe(s) && LegalRun(s, ops) && s.down
    ensures AfterRun(s, ops).down && AfterRun(s, ops).dirty <= s.dirty
    ensures AfterRun(s, ops).processing <= s.processing + s.dirty
    decreases |ops|
  {
    if ops != [] {
      StepSafe(s, ops[0]);
      if ops[0].Get? && Findable(s) { TakenSafe(s, ops[0].now); }
      DownAcceptsNothing(After(s, ops[0]), ops[1..]);
    }
  }

  // ----- Whose turn it is -----

  /** The registered groups in the order in which their turns come. */
  function Turns(order: seq<Name>, at: int): seq<Name> {
    if -1 <= at < |order| then order[at + 1..] + order[..at + 1] else order
  }

  /** A collection takes groups out of the turns, and leaves the others in their order. */
  lemma CleanKeepsTurns(s: Queue, now: int, expire: int)
    requires Safe(s)
    ensures var t := Cleaned(s, now, expire);
      Turns(t.order, t.at) == Kept(Turns(s.order, s.at), s.groups.Keys - t.groups.Keys)
  {
    CleanedTurns(s, now, expire, set g | g in s.groups && Idle(s.groups[g], now, expire));
  }

  lemma CleanedTurns(s: Queue, now: int, expire: int, gone: set<Name>)
    requires -1 <= s.at && (if s.order == [] then s.at <= 0 else s.at < |s.order|)
    requires gone == set g | g in s.groups && Idle(s.groups[g], now, expire)
    ensures var t := Cleaned(s, now, expire);
      s.groups.Keys - t.groups.Keys == gone && Turns(t.order, t.at) == Kept(Turns(s.order, s.at), gone)
  {
    GroupsLeft(s.groups, gone);
    TurnsLeft(s.order, s.at, gone);
  }

  lemma GroupsLeft(groups: map<Name, Fifo>, gone: set<Name>)
    requires gone <= groups.Keys
    ensures groups.Keys - (groups - gone).Keys == gone
  {
  }

  lemma TurnsLeft(order: seq<Name>, at: int, gone: set<Name>)
    requires -1 <= at && (if order == [] then at <= 0 else at < |order|)
    ensures Turns(Kept(order, gone), if order == [] || at == |order| then at else |Kept(order[..at + 1], gone)| - 1)
      == Kept(Turns(order, at), gone)
  {
    if order == [] {
      NoTurns(at);
    } else {
      var pre, post := order[..at + 1], order[at + 1..];
      KeptAppend(pre, post, gone);
      KeptAppend(post, pre, gone);
      Rotation(Kept(pre, gone), Kept(post, gone));
      assert order == pre + post;
    }
  }

  lemma NoTurns(at: int)
    ensures Turns([], at) == []
  {
  }

  lemma Rotation(pre: seq<Name>, post: seq<Name>)
    ensures Turns(pre + post, |pre| - 1) == post + pre
  {
    var o := pre + post;
    if post == [] {
      assert o == pre == post + pre && o[|pre|..] == [] && o[..|pre|] == pre;
    } else {
      assert o[|pre|..] == post && o[..|pre|] == pre;
    }
  }

  /** A new group gets its turn after those that have not had theirs in this round, and otherwise adding changes no
      turn. */
  lemma AddKeepsTurns(s: Queue, x: Item, now: int)
    requires Safe(s)
    ensures var t := Added(s, x, now); var next := if s.order == [] then 0 else s.at + 1;
      Turns(t.order, t.at) == if |t.order| == |s.order| then Turns(s.order, s.at)
        else s.order[next..] + [x.group] + s.order[..next]
  {
    AddedOrder(s, x, now);
    OneMoreTurn(s.order, s.at, x.group);
  }

  lemma AddedOrder(s: Queue, x: Item, now: int)
    ensures var t := Added(s, x, now);
      || (t.order == s.order && t.at == s.at)
      || (t.order == s.order + [x.group] && t.at == if s.order == [] then -1 else s.at)
  {
  }

  lemma OneMoreTurn(order: seq<Name>, at: int, g: Name)
    requires if order == [] then -1 <= at <= 0 else -1 <= at < |order|
    ensures var next := if order == [] then 0 else at + 1;
      Turns(order + [g], if order == [] then -1 else at) == order[next..] + [g] + order[..next]
  {
    var o := order + [g];
    if order == [] {
      assert o[0..] == [g] && o[..0] == [];
    } else {
      assert o[at + 1..] == order[at + 1..] + [g] && o[..at + 1] == order[..at + 1];
    }
  }

  /** The group `g` is the first in turn that has an item. */
  ghost predicate IsTurnOf(s: Queue, i: int, g: Name) {
    var ts := Turns(s.order, s.at);
    0 <= i < |ts| && ts[i] == g && NonEmpty(s, g) && forall j | 0 <= j < i :: !NonEmpty(s, ts[j])
  }

  lemma TurnAt(order: seq<Name>, at: int, x: nat)
    requires -1 <= at < |order| && x < |order|
    ensures Turns(order, at)[Distance(at, x, |order|) - 1] == order[x] && |Turns(order, at)| == |order|
  {
  }

  /** The position in the list of whose turn it is. */
  lemma TurnOf(order: seq<Name>, at: int, j: nat) returns (x: nat)
    requires -1 <= at < |order| && j < |order|
    ensures x < |order| && Distance(at, x, |order|) == j + 1 && Turns(order, at)[j] == order[x]
  {
    x := if at + 1 + j < |order| then at + 1 + j else at + 1 + j - |order|;
  }

  lemma NextTurns(order: seq<Name>, at: int, r: nat)
    requires -1 <= at < |order| && r < |order|
    ensures |Turns(order, at)| == |order|
    ensures var i := Distance(at, r, |order|) - 1;
      Turns(order, r) == Turns(order, at)[i + 1..] + Turns(order, at)[..i + 1]
  {
    if at < r { LaterTurn(order, at, r); } else { EarlierTurn(order, at, r); }
  }

  lemma LaterTurn(order: seq<Name>, at: int, r: nat)
    requires -1 <= at < r < |order|
    ensures var pre, post, j := order[..at + 1], order[at + 1..], r - at;
      (post + pre)[j..] + (post + pre)[..j] == order[r + 1..] + order[..r + 1]
  {
    var pre, post, mid := order[..at + 1], order[at + 1..], order[at + 1..r + 1];
    assert post == mid + order[r + 1..] && order[..r + 1] == pre + mid;
    Rotated(mid, order[r + 1..], pre);
  }

  lemma EarlierTurn(order: seq<Name>, at: int, r: nat)
    requires r <= at < |order|
    ensures var pre, post, j := order[..at + 1], order[at + 1..], r + |order| - at;
      (post + pre)[j..] + (post + pre)[..j] == order[r + 1..] + order[..r + 1]
  {
    var pre, post, mid := order[..at + 1], order[at + 1..], order[r + 1..at + 1];
    assert pre == order[..r + 1] + mid && order[r + 1..] == mid + post;
    var front := post + order[..r + 1];
    assert post + pre == front + mid;
    assert (front + mid)[|front|..] == mid && (front + mid)[..|front|] == front;
  }

  lemma Rotated(a: seq<Name>, b: seq<Name>, c: seq<Name>)
    ensures (a + b + c)[|a|..] + (a + b + c)[..|a|] == b + (c + a)
  {
    assert (a + b + c)[|a|..] == b + c && (a + b + c)[..|a|] == a;
  }

  /** `Get` hands out the first item of the first group in turn that has one, and the groups up to it have had their
      turn. */
  lemma TakenInTurn(s: Queue, now: int) returns (i: nat)
    requires Safe(s) && Servable(s)
    ensures IsTurnOf(s, i, Head(s).group) && s.groups[Head(s).group].queue[0] == Head(s)
    ensures var ts, t := Turns(s.order, s.at), Taken(s, now);
      |s.order| > 1 ==> Turns(t.order, t.at) == ts[i + 1..] + ts[..i + 1]
  {
    var n, r := |s.order|, NextGroup(s);
    i := Distance(s.at, r, n) - 1;
    TakenSafe(s, now);
    assert GroupOk(s, s.order[r]) && s.groups[s.order[r]].queue[0] in s.groups[s.order[r]].queue;
    TurnAt(s.order, s.at, r);
    NextTurns(s.order, s.at, r);
    forall j | 0 <= j < i ensures !NonEmpty(s, Turns(s.order, s.at)[j]) {
      var x := TurnOf(s.order, s.at, j);
      if NonEmpty(s, s.order[x]) { PickIsNearest(s, s.at, n, x); }
    }
  }

  // ----- When `Get` finds nothing -----

  /** The balancer knows every group. */
  predicate Registered(s: Queue) {
    forall g | g in s.groups :: g in s.order
  }

  lemma RegisteredIsNotStuck(s: Queue)
    requires Safe(s) && Registered(s)
    ensures !Stuck(s)
  {
    if s.length > 0 {
      var g := NonEmptyGroup(s.groups);
      var j :| 0 <= j < |s.order| && s.order[j] == g;
      assert NonEmpty(s, s.order[j]);
    }
  }

  /** The one step that makes a group which the balancer does not know: `Done`, for a dirty item whose
      group has been collected. */
  predicate Unregisters(s: Queue, op: Op) {
    op.Done? && op.x in s.dirty && op.x.group !in s.groups
  }

  lemma StaysRegisteredIff(s: Queue, op: Op)
    requires Safe(s) && Registered(s)
    ensures Registered(After(s, op)) <==> !Unregisters(s, op)
  {
    if op.Clean? { KeptMembers(s.order, set g | g in s.groups && Idle(s.groups[g], op.now, op.expire)); }
  }

  ghost predicate NeverUnregisters(s: Queue, ops: seq<Op>)
    requires Safe(s) && LegalRun(s, ops)
    decreases |ops|
  {
    ops == [] || (!Unregisters(s, ops[0]) && (StepSafe(s, ops[0]); NeverUnregisters(After(s, ops[0]), ops[1..])))
  }

  /** So `Get` gets stuck only after such a step. */
  lemma {:induction false} NeverStuck(s: Queue, ops: seq<Op>)
    requires Safe(s) && Registered(s) && LegalRun(s, ops) && NeverUnregisters(s, ops)
    ensures !Stuck(AfterRun(s, ops))
    decreases |ops|
  {
    if ops == [] {
      RegisteredIsNotStuck(s);
    } else {
      StepSafe(s, ops[0]);
      StaysRegisteredIff(s, ops[0]);
      NeverStuck(After(s, ops[0]), ops[1..]);
    }
  }

  /** The balancer names a group that does not exist: the search dereferences nothing. */
  predicate Crashes(s: Queue) {
    s.order == [] && NO_NAME !in s.groups
  }

  /** A stuck search either crashes at once, or comes to empty groups for ever. */
  lemma StuckSearch(s: Queue)
    requires Safe(s) && Stuck(s)
    ensures if Crashes(s) then Asked(s, 0) !in s.groups
      else forall k: nat :: Asked(s, k) in s.groups && s.groups[Asked(s, k)].queue == []
  {
    SearchEndsIff(s);
    if !Crashes(s) {
      forall k: nat ensures Asked(s, k) in s.groups && s.groups[Asked(s, k)].queue == [] {
        assert !NonEmpty(s, Asked(s, k));
      }
    }
  }

  // ----- A run in which an item is lost and the queue gets stuck -----

  lemma RunOn(s: Queue, ops: seq<Op>, op: Op)
    requires Safe(s) && LegalRun(s, ops) && Legal(AfterRun(s, ops), op)
    ensures LegalRun(s, ops + [op]) && AfterRun(s, ops + [op]) == After(AfterRun(s, ops), op)
    decreases |ops|
  {
    if ops == [] {
      assert ops + [op] == [op] && [op][1..] == [];
      StepSafe(s, op);
      assert LegalRun(After(s, op), []);
    } else {
      assert (ops + [op])[1..] == ops[1..] + [op];
      StepSafe(s, ops[0]);
      RunOn(After(s, ops[0]), ops[1..], op);
    }
  }

  /** The legal run `ops` leads from the start to `s`. */
  ghost predicate Leads(ops: seq<Op>, s: Queue) {
    Safe(START) && LegalRun(START, ops) && AfterRun(START, ops) == s
  }

  lemma LeadsOn(ops: seq<Op>, s: Queue, op: Op, t: Queue)
    requires Leads(ops, s) && Legal(s, op) && After(s, op) == t
    ensures Leads(ops + [op], t)
  {
    RunOn(START, ops, op);
  }

  /** An item is added ... */
  function Waiting(x: Item): Queue {
    Queue(map[x.group := Fifo([x], 0)], [x.group], -1, 1, {x}, {}, false)
  }

  /** ... and taken, and its group is collected meanwhile. */
  function InUse(x: Item): Queue {
    Queue(map[x.group := Fifo([], 0)], [x.group], -1, 0, {}, {x}, false)
  }

  lemma AddedFirst(x: Item)
    ensures Added(START, x, 0) == Waiting(x)
  {
    assert [] + [x] == [x] && [] + [x.group] == [x.group];
  }

  lemma TakenFirst(x: Item)
    ensures PositionOk(Waiting(x)) && Findable(Waiting(x)) && Taken(Waiting(x), 0) == InUse(x)
  {
    var s := Waiting(x);
    assert NonEmpty(s, s.order[0]);
    assert Found(s) == x.group && [x][1..] == [];
    assert s.dirty - {x} == {} && s.processing + {x} == {x};
  }

  lemma CollectedFirst(x: Item)
    ensures Cleaned(InUse(x), 2, 1) == START.(at := -1, processing := {x})
  {
    var s, g := InUse(x), x.group;
    assert (set h | h in s.groups && Idle(s.groups[h], 2, 1)) == {g};
    assert Kept([g], {g}) == [] + Kept([g][1..], {g}) == [];
    assert s.order[..s.at + 1] == [];
    assert s.groups - {g} == map[];
  }

  lemma CollectedInUse(x: Item) returns (ops: seq<Op>)
    ensures Leads(ops, START.(at := -1, processing := {x}))
  {
    AddedFirst(x);
    TakenFirst(x);
    CollectedFirst(x);
    assert Leads([], START);
    LeadsOn([], START, Add(x, 0), Waiting(x));
    LeadsOn([] + [Add(x, 0)], Waiting(x), Get(0), InUse(x));
    ops := [] + [Add(x, 0)] + [Get(0)];
    LeadsOn(ops, InUse(x), Clean(2, 1), START.(at := -1, processing := {x}));
    ops := ops + [Clean(2, 1)];
  }

  /** The last state of the run: `x` is dirty, only `y` is queued, and the balancer knows no group. */
  function AfterLoss(x: Item, y: Item): Queue {
    Queue(map[x.group := Fifo([y], 5)], [], -1, 1, {x, y}, {}, false)
  }

  lemma LossStates(x: Item, y: Item)
    requires x != y && x.group == y.group
    ensures var s := START.(at := -1, processing := {x});
      Finished(Added(s, x, 3), x, 4) == Queue(map[x.group := Fifo([], 4)], [], -1, 0, {x}, {}, false)
    ensures Added(Queue(map[x.group := Fifo([], 4)], [], -1, 0, {x}, {}, false), y, 5) == AfterLoss(x, y)
  {
    assert [] + [y] == [y];
  }

  /** The item is added again and finished, which loses it, and another one of the group is added. */
  lemma LosingRun(x: Item, y: Item) returns (ops: seq<Op>)
    requires x != y && x.group == y.group && x.group != NO_NAME
    ensures Leads(ops, AfterLoss(x, y))
    ensures var t := AfterLoss(x, y); Lost(t, x) && Queued(t, y) && Stuck(t) && Crashes(t)
  {
    LossStates(x, y);
    var s := START.(at := -1, processing := {x});
    var u := Queue(map[x.group := Fifo([], 4)], [], -1, 0, {x}, {}, false);
    ops := CollectedInUse(x);
    LeadsOn(ops, s, Add(x, 3), Added(s, x, 3));
    ops := ops + [Add(x, 3)];
    LeadsOn(ops, Added(s, x, 3), Done(x, 4), u);
    ops := ops + [Done(x, 4)];
    LeadsOn(ops, u, Add(y, 5), AfterLoss(x, y));
    ops := ops + [Add(y, 5)];
  }

  function BeforeEndless(x: Item, y: Item, z: Item): Queue {
    Queue(map[x.group := Fifo([y], 5), z.group := Fifo([z], 6)], [z.group], -1, 2, {x, y, z}, {}, false)
  }

  lemma EndlessStates(x: Item, y: Item, z: Item)
    requires x != y && x.group == y.group && z.group != x.group
    ensures Added(AfterLoss(x, y), z, 6) == BeforeEndless(x, y, z)
    ensures var s := BeforeEndless(x, y, z);
      && PositionOk(s) && Findable(s)
      && Taken(s, 7) ==
        Queue(map[x.group := Fifo([y], 5), z.group := Fifo([], 7)], [z.group], -1, 1, {x, y}, {z}, false)
  {
    assert [] + [z] == [z] && [] + [z.group] == [z.group];
    var s := BeforeEndless(x, y, z);
    assert NonEmpty(s, s.order[0]);
    assert Found(s) == z.group && [z][1..] == [] && z != x && z != y;
    assert s.dirty - {z} == {x, y} && s.processing + {z} == {z};
  }

  lemma EndlessEnd(x: Item, y: Item, z: Item)
    requires x != y && x.group == y.group && x.group != NO_NAME && z.group != x.group
    ensures var t := Queue(map[x.group := Fifo([y], 5), z.group := Fifo([], 7)], [z.group], -1, 1, {x, y}, {z}, false);
      Queued(t, y) && Stuck(t) && !Crashes(t)
  {
  }

  /** With a group that the balancer knows, the search goes on for ever instead. */
  lemma EndlessRun(x: Item, y: Item, z: Item) returns (ops: seq<Op>, t: Queue)
    requires x != y && x.group == y.group && x.group != NO_NAME && z.group != x.group
    ensures Leads(ops, t) && Queued(t, y) && Stuck(t) && !Crashes(t)
  {
    EndlessStates(x, y, z);
    EndlessEnd(x, y, z);
    var s := BeforeEndless(x, y, z);
    t := Taken(s, 7);
    ops := LosingRun(x, y);
    LeadsOn(ops, AfterLoss(x, y), Add(z, 6), s);
    ops := ops + [Add(z, 6)];
    LeadsOn(ops, s, Get(7), t);
    ops := ops + [Get(7)];
  }

  lemma {:induction false} NonEmptyGroup(groups: map<Name, Fifo>) returns (g: Name)
    requires Total(groups) > 0
    ensures g in groups && groups[g].queue != []
    decreases |groups|
  {
    g :| g in groups;
    TotalRemove(groups, g);
    if groups[g].queue == [] {
      g := NonEmptyGroup(groups - {g});
    }
  }

  /** An item that is dirty, not processed and not queued. */
  ghost predicate Lost(s: Queue, x: Item) {
    x in s.dirty && x !in s.processing && !Queued(s, x)
  }

  lemma StepKeepsLost(s: Queue, op: Op, x: Item)
    requires Safe(s) && Legal(s, op) && Lost(s, x)
    ensures Lost(After(s, op), x)
  {
    if op.Get? && Findable(s) { TakenSafe(s, op.now); }
  }

  /** A lost item is never handed out again: `Add` ignores it and only `Get` could take it. */
  lemma {:induction false} LostForever(s: Queue, ops: seq<Op>, x: Item)
    requires Safe(s) && LegalRun(s, ops) && Lost(s, x)
    ensures Lost(AfterRun(s, ops), x)
    decreases |ops|
  {
    if ops != [] {
      StepSafe(s, ops[0]);
      StepKeepsLost(s, ops[0], x);
      LostForever(After(s, ops[0]), ops[1..], x);
    }
  }
}
