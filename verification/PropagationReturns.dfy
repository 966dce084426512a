/** Namespaces that are moved away and back, and namespaces that are removed and come back: what is missed further
    down. */
module PropagationReturns {
  import opened Names
  import opened ParentLinks
  import opened Cycles
  import opened Objects
  import opened Propagation
  import opened PropagationLimits
  import opened PropagationMoves
  import opened PropagationExact

  // ----- Hierarchies in which nobody is halted and everything is copied -----

  function Everyone(): (Obj, Name) -> bool {
    (o: Obj, n: Name) => true
  }

  function Flat(l: Links, present: set<Name>): World {
    World(l, {}, present, {}, Everyone(), {})
  }

  lemma {:induction false} StaysWithin(l: Links, s: set<Name>, n: Name, k: nat)
    requires n in s && l.Values <= s && Up(l, n, k).Some?
    ensures Up(l, n, k).value in s
  {
    if k > 0 { StaysWithin(l, s, n, k - 1); }
  }

  lemma FlatIsFine(l: Links, present: set<Name>)
    requires Acyclic(l) && l.Keys <= present
    ensures ValidWorld(Flat(l, present)) && Uniform(Flat(l, present)) && Rooted(Flat(l, present))
    ensures l.Values <= present ==>
      OrphansHalted(Flat(l, present)) && forall n | n in present :: Live(Flat(l, present), n)
  {
    if l.Values <= present {
      forall n, a | n in present && Reach(l, n, a) ensures a in present {
        var k: nat :| Up(l, n, k) == Some(a);
        StaysWithin(l, present, n, k);
      }
    }
  }

  /** `n` gets another parent, or becomes known or unknown. */
  lemma FlatMoves(l: Links, m: Links, s: set<Name>, t: set<Name>, n: Name)
    requires Acyclic(m) && m.Keys <= t && SameOff(l, m, n) && s - {n} == t - {n}
    ensures Moves(Flat(l, s), Flat(m, t), n)
  {
    FlatIsFine(m, t);
    forall x | x != n ensures x in t <==> x in s { assert x in s - {n} <==> x in t - {n}; }
  }

  function Fresh(w: World): System {
    System(w, EMPTY_CLUSTER, {}, map[])
  }

  // ----- Runs without objects -----

  /** `hs` leads from the start to `t`, without any object, and leaves the namespaces in `stale` stale. */
  ghost predicate At(w: World, hs: seq<Happening>, t: System, stale: set<Name>) {
    Leads(Fresh(w), hs, t) && Changes(hs) == hs && t.cluster == EMPTY_CLUSTER && Stale(Fresh(w), hs) == stale
  }

  lemma AtOn(w: World, hs: seq<Happening>, t: System, stale: set<Name>, h: Happening)
    requires At(w, hs, t, stale) && Legal(t, h) && !h.OnObject?
    ensures At(w, hs + [h], Next(t, h), StaleAfter(t, h, stale))
  {
    LeadsOn(Fresh(w), hs, t, h);
    assert (hs + [h])[..|hs|] == hs;
  }

  /** A reconcile that changes nothing in the hierarchy. */
  lemma Looks(w: World, hs: seq<Happening>, t: System, stale: set<Name>, n: Name, updates: bool)
    returns (hs': seq<Happening>, t': System)
    requires At(w, hs, t, stale) && ValidWorld(t.world) && Uniform(t.world) && Rooted(t.world) && OrphansHalted(t.world)
    requires n in t.world.present && n !in t.world.excluded && (MustUpdate(t, n, t.world) ==> updates)
    ensures At(w, hs', t', if updates then stale - {n} else stale) && (Reconciles(hs) ==> Reconciles(hs'))
    ensures forall x | LostSince(Fresh(w), hs, x) && !(updates && x == n) :: LostSince(Fresh(w), hs', x)
    ensures t' == System(t.world, EMPTY_CLUSTER, t.waiting - {n}, t.seen[n := WayOf(t.world, n)])
  {
    var h := OnNamespace(n, t.world, {}, updates);
    AtOn(w, hs, t, stale, h);
    hs', t' := hs + [h], Next(t, h);
    assert Shaken(t.world, t.world) == {};
    assert hs'[..|hs|] == hs;
  }

  // ----- Away and back -----

  predicate Three(a: Name, y: Name, x: Name) {
    a != y && a != x && y != x
  }

  /** `x` under `y` under `a`; and with `y` moved away. */
  function Together(a: Name, y: Name, x: Name): World {
    Flat(map[y := a, x := y], {a, y, x})
  }

  function Apart(a: Name, y: Name, x: Name): World {
    Flat(map[x := y], {a, y, x})
  }

  lemma BothFine(a: Name, y: Name, x: Name)
    requires Three(a, y, x)
    ensures Acyclic(map[y := a, x := y]) && Acyclic(map[x := y])
  {
    var l, m := map[y := a, x := y], map[x := y];
    OffCycle(l, a);
    OffCycle(l, y);
    OffCycle(m, y);
    forall n ensures !OnCycle(l, n) && !OnCycle(m, n) {
      OffCycle(l, n);
      OffCycle(m, n);
    }
  }

  /** Whether `a` is above shows in the way up. */
  lemma WaysDiffer(a: Name, y: Name, x: Name)
    requires Three(a, y, x)
    ensures Disturbed(Together(a, y, x), Apart(a, y, x), x)
    ensures !Disturbed(Together(a, y, x), Apart(a, y, x), a)
  {
    var w, v := Together(a, y, x), Apart(a, y, x);
    BothFine(a, y, x);
    FlatIsFine(w.links, w.present);
    FlatIsFine(v.links, v.present);
    assert Up(w.links, x, 0) == Some(x) && Up(v.links, x, 0) == Some(x);
    assert Up(w.links, x, 1) == Some(y) && Up(v.links, x, 1) == Some(y);
    assert Up(w.links, x, 2) == Some(a) && Up(v.links, x, 2) == None;
    WayEnds(w, x);
    WayEnds(v, x);
    assert Reach(w.links, x, a);
    if Reach(v.links, x, a) {
      ReachCases(v.links, x, a);
      ReachCases(v.links, y, a);
    }
    RootWay(w, a);
    RootWay(v, a);
  }

  lemma RootWay(w: World, n: Name)
    requires n !in w.links && n !in w.crit
    ensures WayOf(w, n) == [Some(n), None]
  {
    assert Up(w.links, n, 0) == Some(n) && Up(w.links, n, 1) == None;
    assert !WalkOver(w.links, w.crit, n, 0) && WalkOver(w.links, w.crit, n, 1);
    WayAt(w.links, w.crit, n);
  }

  /** What moving `y` away and back does. */
  ghost predicate Sways(w: World, v: World, a: Name, y: Name, x: Name) {
    && Three(a, y, x) && IsFirst(Fresh(w)) && OrphansHalted(v)
    && {a, y, x} == w.present == v.present && w.excluded == {}
    && Moves(w, v, y) && Moves(v, w, y) && Disturbed(w, v, x) && !Disturbed(w, v, a)
  }

  lemma MovesBoth(a: Name, y: Name, x: Name)
    requires Three(a, y, x)
    ensures Sways(Together(a, y, x), Apart(a, y, x), a, y, x) && Live(Together(a, y, x), x)
  {
    var w, v := Together(a, y, x), Apart(a, y, x);
    BothFine(a, y, x);
    FlatIsFine(w.links, w.present);
    FlatIsFine(v.links, v.present);
    WaysDiffer(a, y, x);
    FlatMoves(w.links, v.links, w.present, v.present, y);
    FlatMoves(v.links, w.links, v.present, w.present, y);
  }

  /** Every namespace is reconciled once. */
  lemma FirstLooks(w: World, a: Name, y: Name, x: Name) returns (hs: seq<Happening>, t: System)
    requires IsFirst(Fresh(w)) && {a, y, x} <= w.present
    ensures At(w, hs, t, {}) && Reconciles(hs) && t == System(w, EMPTY_CLUSTER, {}, t.seen)
    ensures a in t.seen && t.seen[a] == WayOf(w, a) && x in t.seen && t.seen[x] == WayOf(w, x)
  {
    hs, t := Looks(w, [], Fresh(w), {}, a, true);
    hs, t := Looks(w, hs, t, {}, y, true);
    hs, t := Looks(w, hs, t, {}, x, true);
  }

  lemma AwayAndBack(w: World, v: World, a: Name, y: Name, x: Name)
    returns (hs: seq<Happening>, t: System, stale: set<Name>)
    requires Sways(w, v, a, y, x)
    ensures At(w, hs, t, stale) && Reconciles(hs) && t == System(w, EMPTY_CLUSTER, {x}, t.seen) && x in stale
    ensures x in t.seen && t.seen[x] == WayOf(w, x)
  {
    hs, t := FirstLooks(w, a, y, x);
    hs, t, stale := MovedBelow(w, hs, t, {}, v, y, x);
    hs, t, stale := MovedBelow(w, hs, t, stale, w, y, x);
  }

  /** If a namespace is moved away and back before one further down has been reconciled, that one finds nothing to
      write, and is stale for good: its objects can be wrong when nothing waits any more. */
  lemma ReturnGoesStale(a: Name, y: Name, x: Name, o: Obj) returns (hs: seq<Happening>)
    requires Three(a, y, x) && IsSourceForm(Together(a, y, x), o)
    ensures var w := Together(a, y, x);
      && IsFirst(Fresh(w)) && LegalRun(Fresh(w), hs) && Reconciles(hs)
      && RunTo(Fresh(w), hs).waiting == {} && RunTo(Fresh(w), hs).world == w && Live(w, x)
      && !AlwaysRight(Fresh(w), hs, x)
  {
    var w := Together(a, y, x);
    MovesBoth(a, y, x);
    hs := SwayingGoesStale(w, Apart(a, y, x), a, y, x, o);
  }

  lemma SwayingGoesStale(w: World, v: World, a: Name, y: Name, x: Name, o: Obj) returns (hs: seq<Happening>)
    requires Sways(w, v, a, y, x) && Live(w, x) && Accepts(w, x, o)
    ensures LegalRun(Fresh(w), hs) && Reconciles(hs)
    ensures RunTo(Fresh(w), hs).waiting == {} && RunTo(Fresh(w), hs).world == w
    ensures !AlwaysRight(Fresh(w), hs, x)
  {
    var t, stale;
    hs, t, stale := AwayAndBack(w, v, a, y, x);
    hs, t := Looks(w, hs, t, stale, x, false);
    MovingIsSettledIff(Fresh(w), hs, x, o);
  }

  /** Moving `y` disturbs only `x` among the others. */
  lemma MovedBelow(w: World, hs: seq<Happening>, t: System, stale: set<Name>, v: World, y: Name, x: Name)
    returns (hs': seq<Happening>, t': System, stale': set<Name>)
    requires At(w, hs, t, stale) && Moves(t.world, v, y) && y in v.present && y !in v.excluded
    requires x in v.present && x != y
    requires OrphansHalted(v) && Disturbed(t.world, v, x)
    requires forall n | n in v.present && n != x && n != y :: !Disturbed(t.world, v, n)
    ensures At(w, hs', t', stale') && x in stale' && (Reconciles(hs) ==> Reconciles(hs'))
    ensures t' == System(v, EMPTY_CLUSTER, t.waiting - {y} + {x}, t.seen[y := WayOf(v, y)])
  {
    var h := OnNamespace(y, v, {x}, true);
    AtOn(w, hs, t, stale, h);
    hs', t', stale' := hs + [h], Next(t, h), StaleAfter(t, h, stale);
  }

  // ----- Removed and back -----

  predicate Four(p: Name, r: Name, c: Name, g: Name) {
    p != r && p != c && p != g && r != c && r != g && c != g
  }

  /** A line of four; without its second member; and with that as a root. */
  function Whole(p: Name, r: Name, c: Name, g: Name): World {
    Flat(map[r := p, c := r, g := c], {p, r, c, g})
  }

  function CutOff(p: Name, r: Name, c: Name, g: Name): World {
    Flat(map[c := r, g := c], {p, c, g})
  }

  function Back(p: Name, r: Name, c: Name, g: Name): World {
    Flat(map[c := r, g := c], {p, r, c, g})
  }

  lemma LinesFine(p: Name, r: Name, c: Name, g: Name)
    requires Four(p, r, c, g)
    ensures Acyclic(map[r := p, c := r, g := c]) && Acyclic(map[c := r, g := c])
  {
    var l, m := map[r := p, c := r, g := c], map[c := r, g := c];
    OffCycle(l, p);
    OffCycle(l, r);
    OffCycle(l, c);
    OffCycle(m, r);
    OffCycle(m, c);
    forall n ensures !OnCycle(l, n) && !OnCycle(m, n) {
      OffCycle(l, n);
      OffCycle(m, n);
    }
  }

  lemma AboveInLine(p: Name, r: Name, c: Name, g: Name)
    requires Four(p, r, c, g)
    ensures Below(map[r := p, c := r, g := c], g, p) && !Below(map[c := r, g := c], g, p)
  {
    var l, m := map[r := p, c := r, g := c], map[c := r, g := c];
    assert Up(l, c, 0) == Some(c) && Up(l, c, 1) == Some(r) && Up(l, c, 2) == Some(p);
    ReachCases(m, c, p);
    ReachCases(m, r, p);
  }

  /** What removing `r`, and its return as a root, does. */
  ghost predicate Cuts(w: World, u: World, v: World, p: Name, r: Name, c: Name, g: Name) {
    && Moves(w, u, r) && Moves(u, v, r) && IsFirst(Fresh(w)) && IsFirst(Fresh(v)) && Live(v, g) && Loses(w, u, g, p)
    && {p, r, c, g} <= w.present && {p, r, c, g} <= v.present && r !in u.present && w.excluded == {} && g != r
    && v.links == u.links && v.crit == u.crit && r !in v.links && Children(w.links, r) == {c} && !Disturbed(w, v, p)
  }

  lemma LineMoves(p: Name, r: Name, c: Name, g: Name)
    requires Four(p, r, c, g)
    ensures Cuts(Whole(p, r, c, g), CutOff(p, r, c, g), Back(p, r, c, g), p, r, c, g)
  {
    var w, v := Whole(p, r, c, g), Back(p, r, c, g);
    LinesFine(p, r, c, g);
    AboveInLine(p, r, c, g);
    FlatIsFine(w.links, w.present);
    FlatIsFine(v.links, v.present);
    LineLinks(p, r, c, g);
    RootWay(w, p);
    RootWay(v, p);
  }

  lemma LineLinks(p: Name, r: Name, c: Name, g: Name)
    requires Four(p, r, c, g)
    ensures Moves(Whole(p, r, c, g), CutOff(p, r, c, g), r) && Moves(CutOff(p, r, c, g), Back(p, r, c, g), r)
    ensures Children(Whole(p, r, c, g).links, r) == {c}
  {
    var w, u, v := Whole(p, r, c, g), CutOff(p, r, c, g), Back(p, r, c, g);
    LinesFine(p, r, c, g);
    FlatMoves(w.links, u.links, w.present, u.present, r);
    FlatMoves(u.links, v.links, u.present, v.present, r);
  }

  /** Every namespace of the line is reconciled once, and then the second is removed. */
  lemma CutAway(w: World, u: World, v: World, p: Name, r: Name, c: Name, g: Name)
    returns (hs: seq<Happening>, t: System, stale: set<Name>)
    requires Cuts(w, u, v, p, r, c, g)
    ensures At(w, hs, t, stale) && t.world == u && t.waiting == {p, c} && r !in t.seen
    ensures (p != r ==> p in t.seen && t.seen[p] == WayOf(w, p)) && LostSince(Fresh(w), hs, g)
  {
    hs, t := FirstLooks(w, p, r, c);
    hs, t := Looks(w, hs, t, {}, g, true);
    var h := OnRemoval(r, u, {p, c});
    AtOn(w, hs, t, {}, h);
    assert (hs + [h])[..|hs|] == hs;
    stale := StaleAfter(t, h, {});
    hs, t := hs + [h], Next(t, h);
  }

  lemma LostOn(s: System, hs: seq<Happening>, h: Happening, x: Name)
    requires LostSince(s, hs, x) && !Updates(h, x)
    ensures LostSince(s, hs + [h], x)
  {
    assert (hs + [h])[..|hs|] == hs;
  }

  /** If a namespace with a parent is removed, and comes back as a root before its child has been reconciled, those
      further down are never told: their objects can be wrong when nothing waits any more. */
  lemma RemovalGoesStale(p: Name, r: Name, c: Name, g: Name, o: Obj) returns (hs: seq<Happening>)
    requires Four(p, r, c, g) && IsSourceForm(Whole(p, r, c, g), o)
    ensures var w, v := Whole(p, r, c, g), Back(p, r, c, g);
      && IsFirst(Fresh(w)) && LegalRun(Fresh(w), hs)
      && RunTo(Fresh(w), hs).waiting == {} && RunTo(Fresh(w), hs).world == v && Live(v, g)
      && !AlwaysRight(Fresh(w), hs, g)
  {
    LineMoves(p, r, c, g);
    hs := CuttingGoesStale(Whole(p, r, c, g), CutOff(p, r, c, g), Back(p, r, c, g), p, r, c, g, o);
  }

  lemma CuttingGoesStale(w: World, u: World, v: World, p: Name, r: Name, c: Name, g: Name, o: Obj)
    returns (hs: seq<Happening>)
    requires Cuts(w, u, v, p, r, c, g) && Four(p, r, c, g) && Accepts(w, g, o)
    ensures LegalRun(Fresh(w), hs) && RunTo(Fresh(w), hs).waiting == {} && RunTo(Fresh(w), hs).world == v
    ensures !AlwaysRight(Fresh(w), hs, g)
  {
    var t, stale;
    hs, t, stale := CutAway(w, u, v, p, r, c, g);
    hs, t, stale := ComesBack(w, u, v, hs, t, stale, p, r, c, g);
    hs, t := Looks(w, hs, t, stale, c, true);
    hs, t := Looks(w, hs, t, stale - {c}, p, false);
    LostIsSpoilt(Fresh(w), hs, g, o);
  }

  lemma ComesBack(w: World, u: World, v: World, hs: seq<Happening>, t: System, stale: set<Name>, p: Name, r: Name,
      c: Name, g: Name) returns (hs': seq<Happening>, t': System, stale': set<Name>)
    requires Cuts(w, u, v, p, r, c, g) && At(w, hs, t, stale) && t.world == u && LostSince(Fresh(w), hs, g)
    ensures At(w, hs', t', stale') && LostSince(Fresh(w), hs', g)
    ensures t' == System(v, EMPTY_CLUSTER, t.waiting - {r} + {c}, t.seen[r := WayOf(v, r)])
  {
    var h := OnNamespace(r, v, {c}, true);
    AtOn(w, hs, t, stale, h);
    LostOn(Fresh(w), hs, h, g);
    hs', t', stale' := hs + [h], Next(t, h), StaleAfter(t, h, stale);
  }

  // ----- Removed with a source -----

  /** What removing `n`, a root above `y`, and its return does. */
  ghost predicate Leaves(w: World, u: World, n: Name, y: Name) {
    && IsFirst(Fresh(w)) && Moves(w, u, n) && Moves(u, w, n) && u.links == w.links && u.crit == w.crit && n !in w.links
    && n in w.present && y in w.present && n !in u.present && Live(w, n) && Live(w, y) && Below(w.links, y, n)
    && n in w.links.Values && Children(w.links, n) <= {y} && w.excluded == {}
  }

  function ParentAndChild(n: Name, y: Name): World {
    Flat(map[y := n], {n, y})
  }

  lemma PairLeaves(n: Name, y: Name)
    requires n != y
    ensures Leaves(ParentAndChild(n, y), Flat(map[y := n], {y}), n, y)
  {
    var l := map[y := n];
    OffCycle(l, n);
    forall x ensures !OnCycle(l, x) { OffCycle(l, x); }
    FlatIsFine(l, {n, y});
    FlatMoves(l, l, {n, y}, {y}, n);
    FlatMoves(l, l, {y}, {n, y}, n);
    ReachSelf(l, n);
  }

  /** A source is recorded in `n` and copied to `y`, and then `n` is removed. */
  lemma RemovedWithSource(w: World, u: World, n: Key, y: Key, o: Obj) returns (hs: seq<Happening>, t: System)
    requires Leaves(w, u, n.ns, y.ns) && n.name == y.name && Accepts(w, y.ns, o)
    ensures Leads(Fresh(w), hs, t) && t.world == u && t.waiting == {y.ns} && HoldsRecord(t.cluster, n, y, o, {n})
    ensures y.ns in t.seen && t.seen[y.ns] == WayOf(w, y.ns) && n.ns !in t.seen
  {
    PairFacts(w, n, y);
    hs, t := FirstLooks(w, n.ns, y.ns, y.ns);
    var es := CopyEverywhere(w, n, y, o);
    LeadsThrough(Fresh(w), hs, t, es);
    hs, t := hs + Lift(es), t.(cluster := RunFrom(w, EMPTY_CLUSTER, es));
    var h := OnRemoval(n.ns, u, {y.ns});
    LeadsOn(Fresh(w), hs, t, h);
    RecordKept(w, u, t.cluster, n, y, o);
    hs, t := hs + [h], Next(t, h);
  }

  /** What is left: the record of the source, and its copies. */
  ghost predicate HoldsRecord(c: Cluster, n: Key, y: Key, o: Obj, queue: set<Key>) {
    && c.sources == map[n := o] && c.queue == queue && y in c.store && c.store[y] == CopyOf(o, n.ns)
    && forall k | k in c.store :: k.ns != n.ns
  }

  lemma RecordKept(w: World, u: World, c: Cluster, n: Key, y: Key, o: Obj)
    requires Leaves(w, u, n.ns, y.ns) && Copied(w, c, n, y, o)
    ensures HoldsRecord(Without(c, n.ns).(sources := Kept(u, c.sources)), n, y, o, {n})
  {
    LiveInTree(w, n.ns);
    LiveInTree(w, y.ns);
    forall k | k in c.store && k != n ensures k.ns != n.ns { assert k in CopiesOf(w, n); }
    assert Kept(u, c.sources) == map[n := o];
    assert Without(c, n.ns).queue == {n};
  }

  /** The notice that the source is gone comes too late: the namespace is not known any more. */
  lemma NoticeIsIgnored(u: World, c: Cluster, n: Key, y: Key, o: Obj)
    requires n.ns !in u.present && HoldsRecord(c, n, y, o, {n})
    ensures HoldsRecord(Reconciled(u, c, n), n, y, o, {})
  {
  }

  lemma ComesBackEmpty(w: World, t: System, n: Key, y: Key, o: Obj)
    requires Leaves(w, t.world, n.ns, y.ns) && HoldsRecord(t.cluster, n, y, o, {}) && n.ns !in t.seen
    ensures var h := OnNamespace(n.ns, w, {y.ns}, true);
      Legal(t, h) && HoldsRecord(Next(t, h).cluster, n, y, o, {})
  {
    LiveInTree(w, n.ns);
    AboveIs(w, n.ns);
    assert Kept(w, t.cluster.sources) == map[n := o];
    assert ObjectsOf(w, t.cluster, n.ns) == {};
  }

  /** If a namespace with a child is removed before the deletion of its sources has been noticed, and comes back, the
      records of the sources stay, and so do the copies, when nothing is queued any more. */
  lemma RecordStays(n: Key, y: Key, o: Obj) returns (hs: seq<Happening>, t: System)
    requires n.ns != y.ns && n.name == y.name && IsSourceForm(ParentAndChild(n.ns, y.ns), o)
    ensures var w := ParentAndChild(n.ns, y.ns);
      && IsFirst(Fresh(w)) && LegalRun(Fresh(w), hs) && RunTo(Fresh(w), hs) == t && t.world == w
      && t.waiting == {} && t.cluster.queue == {} && Live(w, n.ns) && n !in t.cluster.store
      && !Settled(w, t.cluster, n) && y in t.cluster.store && t.cluster.store[y] == CopyOf(o, n.ns)
  {
    var w, u := ParentAndChild(n.ns, y.ns), Flat(map[y.ns := n.ns], {y.ns});
    PairLeaves(n.ns, y.ns);
    hs, t := RecordStaysIn(w, u, n, y, o);
  }

  lemma RecordStaysIn(w: World, u: World, n: Key, y: Key, o: Obj) returns (hs: seq<Happening>, t: System)
    requires Leaves(w, u, n.ns, y.ns) && n.name == y.name && Accepts(w, y.ns, o)
    ensures Leads(Fresh(w), hs, t) && t.world == w && t.waiting == {} && HoldsRecord(t.cluster, n, y, o, {})
  {
    hs, t := RemovedWithSource(w, u, n, y, o);
    NoticeIsIgnored(u, t.cluster, n, y, o);
    LeadsOn(Fresh(w), hs, t, OnObject(Reconcile(n)));
    hs, t := hs + [OnObject(Reconcile(n))], Next(t, OnObject(Reconcile(n)));
    var h := OnNamespace(n.ns, w, {y.ns}, true);
    ComesBackEmpty(w, t, n, y, o);
    LeadsOn(Fresh(w), hs, t, h);
    hs, t := hs + [h], Next(t, h);
    var last := OnNamespace(y.ns, w, {}, false);
    LeadsOn(Fresh(w), hs, t, last);
    hs, t := hs + [last], Next(t, last);
    assert Kept(w, map[n := o]) == map[n := o];
  }
}
