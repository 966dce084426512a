/** The fair queue as a state machine: one FIFO per group, the round robin over the groups, and the
    sets of dirty and processing items. */
module FairQueueState {
  import opened Names
  import opened RoundRobin

  /** An item and the group it names. */
  datatype Item = Item(group: Name, id: string)

  datatype Fifo = Fifo(queue: seq<Item>, lastActive: int)

  /** `order` and `at` are the registered groups and the position of the balancer. */
  datatype Queue = Queue(
    groups: map<Name, Fifo>,
    order: seq<Name>,
    at: int,
    length: int,
    dirty: set<Item>,
    processing: set<Item>,
    down: bool)

  const START: Queue := Queue(map[], [], 0, 0, {}, {}, false)

  // ----- Operations -----

  function Push(f: Fifo, x: Item, now: int): Fifo {
    Fifo(f.queue + [x], now)
  }

  /** `Add`. */
  function Added(s: Queue, x: Item, now: int): Queue {
    if s.down || x in s.dirty then s
    else if x in s.processing then s.(dirty := s.dirty + {x})
    else Enqueued(s.(dirty := s.dirty + {x}), x, now)
  }

  /** The item goes to the FIFO of its group, which is made and registered if there is none. */
  function Enqueued(s: Queue, x: Item, now: int): Queue {
    var unknown := x.group !in s.groups;
    var f := if unknown then Fifo([], now) else s.groups[x.group];
    var registers := unknown && x.group !in s.order;
    s.(groups := s.groups[x.group := Push(f, x, now)], length := s.length + 1,
       order := if registers then s.order + [x.group] else s.order,
       at := if registers && s.order == [] then -1 else s.at)
  }

  /** `Done`. Without a FIFO for the group, a dirty item gets an empty one and is not queued. */
  function Finished(s: Queue, x: Item, now: int): Queue {
    var s1 := s.(processing := s.processing - {x});
    if x.group !in s.groups then
      if x in s.dirty then s1.(groups := s.groups[x.group := Fifo([], now)]) else s1
    else if x in s.dirty then
      s1.(groups := s.groups[x.group := Push(s.groups[x.group], x, now)], length := s.length + 1)
    else s1
  }

  predicate NonEmpty(s: Queue, g: Name) {
    g in s.groups && s.groups[g].queue != []
  }

  /** Some registered group has an item. */
  predicate Servable(s: Queue) {
    exists j :: 0 <= j < |s.order| && NonEmpty(s, s.order[j])
  }

  /** A registered group with an item is at most `left` positions ahead. */
  predicate Within(s: Queue, at: int, left: nat)
    requires -1 <= at < |s.order|
  {
    exists j :: 0 <= j < |s.order| && NonEmpty(s, s.order[j]) && Distance(at, j, |s.order|) <= left
  }

  /** The position of the next registered group with an item, found by asking the balancer again and
      again; a single group is returned without moving. */
  function Pick(s: Queue, at: int, left: nat): (r: nat)
    requires -1 <= at < |s.order| && Within(s, at, left)
    ensures r < |s.order| && NonEmpty(s, s.order[r])
    decreases left
  {
    var next := Succ(at, |s.order|);
    if NonEmpty(s, s.order[next]) then next
    else
      var j :| 0 <= j < |s.order| && NonEmpty(s, s.order[j]) && Distance(at, j, |s.order|) <= left;
      Pick(s, next, left - 1)
  }

  lemma OneNearer(at: int, j: nat, n: nat)
    requires n > 0 && -1 <= at < n && j < n && j != Succ(at, n)
    ensures Distance(Succ(at, n), j, n) == Distance(at, j, n) - 1
  {
  }

  /** If the next group has no item, the search goes on from there. */
  lemma PickStep(s: Queue, at: int, left: nat)
    requires -1 <= at < |s.order| && Within(s, at, left)
    ensures var next := Succ(at, |s.order|);
      if NonEmpty(s, s.order[next]) then Pick(s, at, left) == next
      else left > 0 && Within(s, next, left - 1) && Pick(s, at, left) == Pick(s, next, left - 1)
  {
    var n := |s.order|;
    var next := Succ(at, n);
    if !NonEmpty(s, s.order[next]) {
      var j :| 0 <= j < n && NonEmpty(s, s.order[j]) && Distance(at, j, n) <= left;
      OneNearer(at, j, n);
    }
  }

  /** The group picked is the nearest one with an item. */
  lemma {:induction false} PickIsNearest(s: Queue, at: int, left: nat, j: nat)
    requires -1 <= at < |s.order| && Within(s, at, left) && j < |s.order| && NonEmpty(s, s.order[j])
    ensures Distance(at, Pick(s, at, left), |s.order|) <= Distance(at, j, |s.order|)
    decreases left
  {
    var n := |s.order|;
    var next := Succ(at, n);
    PickStep(s, at, left);
    if !NonEmpty(s, s.order[next]) {
      PickIsNearest(s, next, left - 1, j);
      OneNearer(at, j, n);
      OneNearer(at, Pick(s, at, left), n);
    }
  }

  function NextGroup(s: Queue): (r: nat)
    requires Servable(s) && -1 <= s.at < |s.order|
    ensures r < |s.order| && NonEmpty(s, s.order[r])
  {
    Pick(s, s.at, |s.order|)
  }

  /** The search of `Get` comes to a group with an item. Without any registered group the balancer names
      the empty one. */
  predicate Findable(s: Queue) {
    Servable(s) || (s.order == [] && NonEmpty(s, NO_NAME))
  }

  /** There are items, and `Get` finds none of them. */
  predicate Stuck(s: Queue) {
    s.length > 0 && !Findable(s)
  }

  predicate PositionOk(s: Queue) {
    if s.order == [] then -1 <= s.at <= 0 else -1 <= s.at < |s.order|
  }

  /** The group that the search comes to. */
  function Found(s: Queue): (g: Name)
    requires Findable(s) && PositionOk(s)
    ensures NonEmpty(s, g)
  {
    if Servable(s) then s.order[NextGroup(s)] else NO_NAME
  }

  /** The item that `Get` hands out. */
  function Head(s: Queue): Item
    requires Findable(s) && PositionOk(s)
  {
    s.groups[Found(s)].queue[0]
  }

  /** `Get`, when there is an item to be found. */
  function Taken(s: Queue, now: int): Queue
    requires Findable(s) && PositionOk(s)
  {
    var g := Found(s);
    var x := s.groups[g].queue[0];
    s.(groups := s.groups[g := Fifo(s.groups[g].queue[1..], now)], length := s.length - 1,
       processing := s.processing + {x}, dirty := s.dirty - {x},
       at := if |s.order| <= 1 then s.at else NextGroup(s))
  }

  /** The group that the balancer names when it is asked for the `k`-th time. */
  function Asked(s: Queue, k: nat): Name
    requires PositionOk(s)
  {
    if s.order == [] then NO_NAME
    else if |s.order| == 1 then s.order[0]
    else s.order[PositionAfter(s.at, k, |s.order|)]
  }

  function PositionAfter(at: int, k: nat, n: nat): (r: nat)
    requires n > 0 && -1 <= at < n
    ensures r < n
  {
    if k == 0 then Succ(at, n) else Succ(PositionAfter(at, k - 1, n), n)
  }

  /** The balancer comes round to every position. */
  lemma {:induction false} ComesRound(at: int, j: nat, n: nat)
    requires -1 <= at < n && j < n
    ensures PositionAfter(at, Distance(at, j, n) - 1, n) == j
    decreases Distance(at, j, n)
  {
    var next := Succ(at, n);
    if next != j {
      ComesRound(next, j, n);
      StartLater(at, Distance(next, j, n) - 1, n);
    }
  }

  lemma {:induction false} StartLater(at: int, k: nat, n: nat)
    requires n > 0 && -1 <= at < n
    ensures PositionAfter(at, k + 1, n) == PositionAfter(Succ(at, n), k, n)
  {
    if k > 0 { StartLater(at, k - 1, n); }
  }

  /** Asking again and again comes to a group with an item exactly if the search can find one. */
  lemma SearchEndsIff(s: Queue)
    requires PositionOk(s)
    ensures Findable(s) <==> exists k: nat :: NonEmpty(s, Asked(s, k))
  {
    if Servable(s) {
      var j :| 0 <= j < |s.order| && NonEmpty(s, s.order[j]);
      ComesRound(s.at, j, |s.order|);
      assert NonEmpty(s, Asked(s, Distance(s.at, j, |s.order|) - 1));
    } else if Findable(s) {
      assert NonEmpty(s, Asked(s, 0));
    }
    if k: nat :| NonEmpty(s, Asked(s, k)) {
      if |s.order| > 1 { assert NonEmpty(s, s.order[PositionAfter(s.at, k, |s.order|)]); }
    }
  }

  predicate Idle(f: Fifo, now: int, expire: int) {
    f.lastActive + expire < now && f.queue == []
  }

  /** The listed groups that are not in `gone`. */
  function Kept(order: seq<Name>, gone: set<Name>): seq<Name> {
    if order == [] then []
    else (if order[0] in gone then [] else [order[0]]) + Kept(order[1..], gone)
  }

  /** `checkAndCleanIdleQueue`: idle groups are forgotten and leave the balancer, whose position moves
      back by the number of groups that left at or before it. */
  function Cleaned(s: Queue, now: int, expire: int): Queue
    requires -1 <= s.at <= |s.order|
  {
    var gone := set g | g in s.groups && Idle(s.groups[g], now, expire);
    s.(groups := s.groups - gone, order := Kept(s.order, gone),
       at := if s.order == [] || s.at == |s.order| then s.at else |Kept(s.order[..s.at + 1], gone)| - 1)
  }

  // ----- Safety -----

  ghost predicate Distinct(q: seq<Item>) {
    forall i, j | 0 <= i < j < |q| :: q[i] != q[j]
  }

  ghost predicate Unrepeated(order: seq<Name>) {
    forall i, j | 0 <= i < j < |order| :: order[i] != order[j]
  }

  ghost function Total(groups: map<Name, Fifo>): nat {
    if groups == map[] then 0 else var g :| g in groups; |groups[g].queue| + Total(groups - {g})
  }

  lemma {:induction false} TotalRemove(groups: map<Name, Fifo>, g: Name)
    requires g in groups
    ensures Total(groups) == |groups[g].queue| + Total(groups - {g})
    decreases |groups|
  {
    var h :| h in groups && Total(groups) == |groups[h].queue| + Total(groups - {h});
    if h != g {
      TotalRemove(groups - {h}, g);
      TotalRemove(groups - {g}, h);
      assert groups - {h} - {g} == groups - {g} - {h};
    }
  }

  lemma TotalUpdate(groups: map<Name, Fifo>, g: Name, f: Fifo)
    ensures Total(groups[g := f]) == Total(groups) - (if g in groups then |groups[g].queue| else 0) + |f.queue|
  {
    var after := groups[g := f];
    TotalRemove(after, g);
    assert after - {g} == groups - {g};
    if g in groups { TotalRemove(groups, g); } else { assert groups - {g} == groups; }
  }

  lemma {:induction false} TotalDropEmpty(groups: map<Name, Fifo>, gone: set<Name>)
    requires forall g | g in gone && g in groups :: groups[g].queue == []
    ensures Total(groups - gone) == Total(groups)
    decreases |gone|
  {
    if gone == {} {
      assert groups - gone == groups;
    } else {
      var g :| g in gone;
      TotalDropEmpty(groups - {g}, gone - {g});
      assert groups - {g} - (gone - {g}) == groups - gone;
      if g in groups { TotalRemove(groups, g); } else { assert groups - {g} == groups; }
    }
  }

  predicate Queued(s: Queue, x: Item) {
    x.group in s.groups && x in s.groups[x.group].queue
  }

  ghost predicate GroupOk(s: Queue, g: Name)
    requires g in s.groups
  {
    && Distinct(s.groups[g].queue)
    && forall x | x in s.groups[g].queue :: x.group == g && x in s.dirty && x !in s.processing
  }

  /** The length counts the queued items; every queued item is in the FIFO of its own group, once, is
      dirty and is not being processed; the balancer knows only existing groups. */
  ghost predicate Safe(s: Queue) {
    && s.length == Total(s.groups)
    && (forall g | g in s.groups :: GroupOk(s, g))
    && Unrepeated(s.order)
    && (forall g | g in s.order :: g in s.groups)
    && PositionOk(s)
  }

  /** Every dirty item that is not being processed is queued, and every group in use is known to the
      balancer. */
  ghost predicate NothingLost(s: Queue) {
    && (forall x | x in s.dirty && x !in s.processing :: Queued(s, x))
    && (forall x | x in s.processing :: x.group in s.groups)
    && (forall g | g in s.groups :: g in s.order)
  }
}
