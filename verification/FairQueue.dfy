/** The fair queue itself. Each method is proved to be the step of the same name of `FairQueueState`. */
module FairQueue {
  import opened Names
  import opened RoundRobin
  import opened FairQueueState
  import opened FairQueueRuns
  import opened FairQueueFairness

  function OrderOf(nodes: seq<Node>): (order: seq<Name>)
    ensures |order| == |nodes| && forall j | 0 <= j < |nodes| :: order[j] == nodes[j].key
  {
    seq(|nodes|, j requires 0 <= j < |nodes| => nodes[j].key)
  }

  lemma OrderMembers(nodes: seq<Node>, g: Name)
    ensures g in OrderOf(nodes) <==> g in KeysOf(nodes)
  {
    if g in OrderOf(nodes) {
      var j :| 0 <= j < |nodes| && OrderOf(nodes)[j] == g;
      assert nodes[j].key == g;
    }
    if g in KeysOf(nodes) {
      var j :| 0 <= j < |nodes| && nodes[j].key == g;
      assert OrderOf(nodes)[j] == g;
    }
  }

  // ----- Collecting one group after the other -----

  lemma {:induction false} KeptTwice(order: seq<Name>, gone: set<Name>, g: Name)
    ensures Kept(Kept(order, gone), {g}) == Kept(order, gone + {g})
    decreases |order|
  {
    if order != [] {
      KeptTwice(order[1..], gone, g);
      var head := if order[0] in gone then [] else [order[0]];
      KeptAppend(head, Kept(order[1..], gone), {g});
    }
  }

  /** Taking the one occurrence of a name out of a list without repeats. */
  lemma {:induction false} KeptOne(order: seq<Name>, r: nat)
    requires r < |order| && Unrepeated(order)
    ensures Kept(order, {order[r]}) == order[..r] + order[r + 1..]
    decreases |order|
  {
    var g := order[r];
    var rest := order[1..];
    if r == 0 {
      NotInRest(order);
      KeptNone(rest, {g});
    } else {
      assert rest[r - 1] == g && order[0] != g;
      KeptOne(rest, r - 1);
      KeptHead(order, g, rest[..r - 1] + rest[r..]);
      assert order[..r] + order[r + 1..] == [order[0]] + (rest[..r - 1] + rest[r..]);
    }
  }

  lemma NotInRest(order: seq<Name>)
    requires order != [] && Unrepeated(order)
    ensures forall x | x in order[1..] :: x !in {order[0]}
  {
  }

  lemma KeptHead(order: seq<Name>, g: Name, rest: seq<Name>)
    requires order != [] && order[0] != g && Kept(order[1..], {g}) == rest
    ensures Kept(order, {g}) == [order[0]] + rest
  {
  }

  /** One more collected group leaves the list ... */
  lemma CollectOne(order: seq<Name>, gone: set<Name>, r: nat)
    requires Unrepeated(order) && r < |Kept(order, gone)|
    ensures Kept(order, gone + {Kept(order, gone)[r]}) == Kept(order, gone)[..r] + Kept(order, gone)[r + 1..]
  {
    KeptDistinct(order, gone);
    KeptOne(Kept(order, gone), r);
    KeptTwice(order, gone, Kept(order, gone)[r]);
  }

  /** ... and moves the position back if it stood at or before it. */
  lemma CollectBefore(order: seq<Name>, at: int, gone: set<Name>, r: nat)
    requires Unrepeated(order) && -1 <= at < |order| && r < |Kept(order, gone)|
    ensures |Kept(order[..at + 1], gone + {Kept(order, gone)[r]})| ==
      |Kept(order[..at + 1], gone)| - if r < |Kept(order[..at + 1], gone)| then 1 else 0
  {
    var pre, post := order[..at + 1], order[at + 1..];
    var o, p := Kept(order, gone), Kept(pre, gone);
    assert order == pre + post;
    KeptAppend(pre, post, gone);
    KeptDistinct(order, gone);
    if r < |p| {
      assert p[r] == o[r];
      CollectOne(pre, gone, r);
    } else {
      LaterNotEarlier(o, p, r);
      KeptNone(p, {o[r]});
      KeptTwice(pre, gone, o[r]);
    }
  }

  lemma LaterNotEarlier(o: seq<Name>, p: seq<Name>, r: nat)
    requires p <= o && |p| <= r < |o| && Unrepeated(o)
    ensures forall x | x in p :: x !in {o[r]}
  {
  }

  /** The search has come to position `at`. */
  ghost predicate Searching(s: Queue, at: nat, left: nat)
    requires PositionOk(s) && Servable(s) && at < |s.order|
  {
    if NonEmpty(s, s.order[at]) then NextGroup(s) == at
    else
      && left > 0
      && Within(s, at, left - 1)
      && NextGroup(s) == Pick(s, at, left - 1)
  }

  /** Asking the balancer once starts the search; asking again continues it. */
  lemma SearchStarts(s: Queue)
    requires PositionOk(s) && Servable(s) && |s.order| > 1
    ensures Searching(s, Succ(s.at, |s.order|), |s.order|)
  {
    var n := |s.order|;
    var at := Succ(s.at, n);
    if !NonEmpty(s, s.order[at]) {
      var j :| 0 <= j < n && NonEmpty(s, s.order[j]);
      assert Distance(s.at, j, n) <= n;
      assert Distance(at, j, n) <= n - 1;
    }
  }

  lemma SearchGoesOn(s: Queue, at: nat, left: nat)
    requires PositionOk(s) && Servable(s) && at < |s.order| && Searching(s, at, left) && !NonEmpty(s, s.order[at])
    ensures left > 0 && Searching(s, Succ(at, |s.order|), left - 1)
  {
    PickStep(s, at, left - 1);
  }

  /** The balancer after the groups of `collected` have left it. */
  ghost predicate Collecting(s: Queue, nodes: seq<Node>, at: int, collected: set<Name>)
    requires Safe(s)
  {
    && OrderOf(nodes) == Kept(s.order, collected)
    && at == if s.order == [] then s.at else |Kept(s.order[..s.at + 1], collected)| - 1
  }

  lemma CollectKnown(s: Queue, nodes: seq<Node>, at: int, collected: set<Name>, g: Name, r: nat)
    requires Safe(s) && Collecting(s, nodes, at, collected) && r < |nodes| && nodes[r].key == g
    ensures Collecting(s, Without(nodes, r), if at >= r then at - 1 else at, collected + {g})
  {
    assert Kept(s.order, collected)[r] == g;
    assert s.order != [];
    CollectOne(s.order, collected, r);
    CollectBefore(s.order, s.at, collected, r);
    assert OrderOf(Without(nodes, r)) == OrderOf(nodes)[..r] + OrderOf(nodes)[r + 1..];
  }

  lemma CollectUnknown(s: Queue, nodes: seq<Node>, at: int, collected: set<Name>, g: Name)
    requires Safe(s) && Collecting(s, nodes, at, collected) && g !in OrderOf(nodes)
    ensures Collecting(s, nodes, at, collected + {g})
  {
    StillKept(s.order, collected, g);
    if s.order != [] {
      var pre := s.order[..s.at + 1];
      KeptMembers(s.order, collected);
      KeptMembers(pre, collected);
      assert forall x | x in pre :: x in s.order;
      StillKept(pre, collected, g);
    }
  }

  lemma StillKept(order: seq<Name>, gone: set<Name>, g: Name)
    requires g !in Kept(order, gone)
    ensures Kept(order, gone + {g}) == Kept(order, gone)
  {
    KeptTwice(order, gone, g);
    KeptNone(Kept(order, gone), {g});
  }

  lemma NothingCollected(s: Queue, nodes: seq<Node>)
    requires Safe(s) && OrderOf(nodes) == s.order
    ensures Collecting(s, nodes, s.at, {})
  {
    KeptNone(s.order, {});
    if s.order != [] { KeptNone(s.order[..s.at + 1], {}); }
  }

  lemma AllCollected(s: Queue, nodes: seq<Node>, at: int, gone: set<Name>, now: int, expire: int)
    requires Safe(s) && Collecting(s, nodes, at, gone)
    requires forall g :: g in gone <==> g in s.groups && Idle(s.groups[g], now, expire)
    ensures Cleaned(s, now, expire) == s.(groups := s.groups - gone, order := OrderOf(nodes), at := at)
  {
    assert gone == set g | g in s.groups && Idle(s.groups[g], now, expire);
  }

  /** What `Get` comes to. */
  datatype Outcome = Got(item: Item) | Down | Endless | Crash

  class FairQueue {
    const balancer: WeightedRoundRobin
    var queueGroup: map<Name, Fifo>
    var length: int
    var dirty: set<Item>
    var processing: set<Item>
    var shuttingDown: bool

    constructor ()
      ensures Valid() && View() == START && fresh(balancer)
    {
      balancer := new WeightedRoundRobin();
      queueGroup, length, dirty, processing, shuttingDown := map[], 0, {}, {}, false;
      new;
      assert OrderOf([]) == [];
    }

    ghost function View(): Queue
      reads this, balancer
    {
      Queue(queueGroup, OrderOf(balancer.nodes), balancer.i, if length < 0 then 0 else length, dirty, processing,
        shuttingDown)
    }

    ghost predicate Valid()
      reads this, balancer
    {
      balancer.Valid() && balancer.Unit() && length >= 0 && Safe(View())
    }

    /** `Add`. */
    method Add(x: Item, now: int)
      requires Valid()
      modifies this, balancer
      ensures Valid() && View() == Added(old(View()), x, now)
    {
      AddedSafe(View(), x, now);
      if shuttingDown {
        return;
      }
      if x in dirty {
        return;
      }
      dirty := dirty + {x};
      if x in processing {
        return;
      }
      Enqueue(x, now);
    }

    method Enqueue(x: Item, now: int)
      requires balancer.Valid() && balancer.Unit() && length >= 0
      modifies this`queueGroup, this`length, balancer
      ensures balancer.Valid() && balancer.Unit() && length >= 0
      ensures View() == Enqueued(old(View()), x, now)
    {
      Register(x.group, now);
      queueGroup := queueGroup[x.group := Push(queueGroup[x.group], x, now)];
      length := length + 1;
    }

    /** The group gets a FIFO and is made known to the balancer, unless it has one. */
    method Register(g: Name, now: int)
      requires balancer.Valid() && balancer.Unit() && length >= 0
      modifies this`queueGroup, balancer
      ensures balancer.Valid() && balancer.Unit()
      ensures queueGroup == if g in old(queueGroup) then old(queueGroup) else old(queueGroup)[g := Fifo([], now)]
      ensures
        var s := old(View());
        if g in old(queueGroup) || g in s.order then View() == s.(groups := queueGroup)
        else View() == s.(groups := queueGroup, order := s.order + [g], at := if s.order == [] then -1 else s.at)
    {
      OrderMembers(balancer.nodes, g);
      ghost var nodes := balancer.nodes;
      if g !in queueGroup {
        queueGroup := queueGroup[g := Fifo([], now)];
        balancer.Add(g, 1);
        assert OrderOf(nodes + [Node(g, 1)]) == OrderOf(nodes) + [g];
      }
    }

    /** `Get`, when it need not wait. Where the search of the program would never end or would crash,
        that is the outcome. */
    method Get(now: int) returns (r: Outcome)
      requires Valid()
      requires length == 0 ==> shuttingDown
      modifies this, balancer
      ensures Valid()
      ensures old(length) == 0 ==> r == Down && View() == old(View())
      ensures old(length) > 0 && Findable(old(View())) ==>
        r == Got(Head(old(View()))) && View() == Taken(old(View()), now)
      ensures old(length) > 0 && !Findable(old(View())) ==>
        r == (if Crashes(old(View())) then Crash else Endless) && View() == old(View())
    {
      if length == 0 {
        return Down;
      }
      var found := HasGroup();
      if !found {
        return if balancer.n == 0 && NO_NAME !in queueGroup then Crash else Endless;
      }
      ghost var s := View();
      var nextGroup := Search();
      r := HandOut(nextGroup, now, s);
    }

    /** The rest of `Get`, when the search has come to a group. */
    method HandOut(nextGroup: Name, now: int, ghost s: Queue) returns (r: Outcome)
      requires balancer.Valid() && balancer.Unit() && length >= 0 && Safe(s) && Findable(s) && nextGroup == Found(s)
      requires View() == s.(at := if |s.order| <= 1 then s.at else NextGroup(s))
      modifies this
      ensures Valid() && r == Got(Head(s)) && View() == Taken(s, now)
    {
      TakenSafe(s, now);
      var x := queueGroup[nextGroup].queue[0];
      queueGroup := queueGroup[nextGroup := Fifo(queueGroup[nextGroup].queue[1..], now)];
      length := length - 1;
      processing := processing + {x};
      dirty := dirty - {x};
      assert View() == Taken(s, now);
      return Got(x);
    }

    /** Whether the loop of `Get` comes to an end. */
    method HasGroup() returns (found: bool)
      requires Valid()
      ensures found <==> Findable(View())
    {
      ghost var s := View();
      if balancer.n == 0 {
        return NO_NAME in queueGroup && queueGroup[NO_NAME].queue != [];
      }
      for i := 0 to balancer.n
        invariant forall j | 0 <= j < i :: !NonEmpty(s, s.order[j])
      {
        if queueGroup[balancer.nodes[i].key].queue != [] {
          assert NonEmpty(s, s.order[i]);
          return true;
        }
      }
      return false;
    }

    /** The loop of `Get` that asks the balancer until it names a group with an item. */
    method Search() returns (nextGroup: Name)
      requires Valid() && Findable(View())
      modifies balancer
      ensures balancer.Valid() && balancer.Unit() && balancer.nodes == old(balancer.nodes)
      ensures nextGroup == Found(old(View()))
      ensures balancer.i == if |balancer.nodes| <= 1 then old(balancer.i) else NextGroup(old(View()))
    {
      ghost var s := View();
      ghost var n := |s.order|;
      nextGroup := balancer.Next();
      if balancer.n == 0 {
        return;
      }
      if n == 1 { assert NonEmpty(s, s.order[0]); } else { SearchStarts(s); }
      ghost var left;
      nextGroup, left := SearchFrom(s, nextGroup);
      SearchEnds(s, nextGroup, left);
    }

    method SearchFrom(ghost s: Queue, group: Name) returns (nextGroup: Name, ghost left: nat)
      requires Safe(s) && Servable(s) && SearchingAt(s, group, |s.order|)
      modifies balancer
      ensures balancer.nodes == old(balancer.nodes)
      ensures SearchingAt(s, nextGroup, left) && queueGroup[nextGroup].queue != []
    {
      nextGroup, left := group, |s.order|;
      while queueGroup[nextGroup].queue == []
        invariant SearchingAt(s, nextGroup, left) && balancer.nodes == old(balancer.nodes)
        decreases left
      {
        nextGroup := SearchOn(s, nextGroup, left);
        left := left - 1;
      }
    }

    /** The search has come to a group with an item: it is the next one. */
    lemma SearchEnds(s: Queue, group: Name, left: nat)
      requires Safe(s) && Servable(s) && SearchingAt(s, group, left) && NonEmpty(s, group)
      ensures group == s.order[NextGroup(s)]
      ensures balancer.i == if |s.order| == 1 then s.at else NextGroup(s)
    {
    }

    /** The search has come to `group`, and the balancer stands there. */
    ghost predicate SearchingAt(s: Queue, group: Name, left: nat)
      requires Safe(s) && Servable(s)
      reads this, balancer
    {
      var n := |s.order|;
      && balancer.Valid() && balancer.Unit() && OrderOf(balancer.nodes) == s.order
      && queueGroup == s.groups && group in s.groups
      && (n == 1 ==> balancer.i == s.at && group == s.order[0] && NonEmpty(s, group))
      && (n > 1 ==> 0 <= balancer.i < n && group == s.order[balancer.i] && Searching(s, balancer.i, left))
    }

    /** The group was empty; the balancer is asked for the next one. */
    method SearchOn(ghost s: Queue, group: Name, ghost left: nat) returns (nextGroup: Name)
      requires Safe(s) && Servable(s) && SearchingAt(s, group, left) && s.groups[group].queue == []
      modifies balancer
      ensures balancer.nodes == old(balancer.nodes)
      ensures left > 0 && SearchingAt(s, nextGroup, left - 1)
    {
      SearchGoesOn(s, balancer.i, left);
      nextGroup := balancer.Next();
    }

    /** `Done`. */
    method Done(x: Item, now: int)
      requires Valid()
      modifies this
      ensures View() == Finished(old(View()), x, now)
      ensures Valid() <==> !Queued(old(View()), x)
    {
      DoneSafeIff(View(), x, now);
      processing := processing - {x};
      if x.group !in queueGroup {
        if x in dirty {
          queueGroup := queueGroup[x.group := Fifo([], now)];
        }
        return;
      }
      if x in dirty {
        queueGroup := queueGroup[x.group := Push(queueGroup[x.group], x, now)];
        length := length + 1;
      }
    }

    /** `ShutDown`. */
    method ShutDown()
      requires Valid()
      modifies this
      ensures Valid() && View() == old(View()).(down := true)
    {
      StepSafe(View(), Op.ShutDown);
      shuttingDown := true;
    }

    /** The groups of `collected` have been forgotten, and nothing else has changed since `s`. */
    ghost predicate HasCollected(s: Queue, collected: set<Name>)
      requires Safe(s)
      reads this, balancer
    {
      && queueGroup == s.groups - collected && length == s.length
      && dirty == s.dirty && processing == s.processing && shuttingDown == s.down
      && balancer.Valid() && balancer.Unit() && Collecting(s, balancer.nodes, balancer.i, collected)
    }

    /** `checkAndCleanIdleQueue`. The groups are visited in no particular order. */
    method CheckAndCleanIdleQueue(now: int, expire: int)
      requires Valid()
      modifies this, balancer
      ensures Valid() && View() == Cleaned(old(View()), now, expire)
    {
      ghost var s := View();
      CleanedSafe(s, now, expire);
      NothingCollected(s, balancer.nodes);
      assert queueGroup == s.groups - {};
      var todo := queueGroup.Keys;
      ghost var collected: set<Name> := {};
      while todo != {}
        invariant todo <= s.groups.Keys
        invariant HasCollected(s, collected)
        invariant forall g :: g in collected <==> g in s.groups && g !in todo && Idle(s.groups[g], now, expire)
        decreases |todo|
      {
        var group :| group in todo;
        todo := todo - {group};
        CleanOne(s, collected, group, now, expire);
        if Idle(s.groups[group], now, expire) {
          collected := collected + {group};
        }
      }
      AllCollected(s, balancer.nodes, balancer.i, collected, now, expire);
    }

    /** One turn of the loop: the group is forgotten if it is idle. */
    method CleanOne(ghost s: Queue, ghost collected: set<Name>, group: Name, now: int, expire: int)
      requires Safe(s) && HasCollected(s, collected) && group in s.groups && group !in collected
      modifies this`queueGroup, balancer
      ensures HasCollected(s, if Idle(s.groups[group], now, expire) then collected + {group} else collected)
    {
      var fifo := queueGroup[group];
      if fifo.lastActive + expire < now && fifo.queue == [] {
        CollectGroup(s, collected, group);
        queueGroup := queueGroup - {group};
        assert s.groups - collected - {group} == s.groups - (collected + {group});
      }
    }

    method CollectGroup(ghost s: Queue, ghost collected: set<Name>, group: Name)
      requires Safe(s) && balancer.Valid() && balancer.Unit()
      requires Collecting(s, balancer.nodes, balancer.i, collected)
      modifies balancer
      ensures balancer.Valid() && balancer.Unit()
      ensures Collecting(s, balancer.nodes, balancer.i, collected + {group})
    {
      ghost var nodes, at := balancer.nodes, balancer.i;
      OrderMembers(nodes, group);
      balancer.Remove(group);
      if group in OrderOf(nodes) {
        ghost var r: nat :| RemovedAt(nodes, at, group, r, balancer.nodes, balancer.i);
        CollectKnown(s, nodes, at, collected, group, r);
      } else {
        CollectUnknown(s, nodes, at, collected, group);
      }
    }
  }
}
