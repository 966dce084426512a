/** Exactly when objects are right while the hierarchy changes. */
module PropagationExact {
  import opened Names
  import opened ParentLinks
  import opened Cycles
  import opened Objects
  import opened Propagation
  import opened PropagationLimits
  import opened PropagationMoves

  // ----- The hierarchy in runs without removals -----

  /** Orphans are halted, excluded namespaces are not known, and whoever does not wait has seen its way up. */
  ghost predicate Ordered(s: System) {
    var w := s.world;
    && ValidWorld(w) && Rooted(w) && OrphansHalted(w) && w.present !! w.excluded
    && (forall n | n in s.seen :: n in w.present && (n in s.waiting || s.seen[n] == WayOf(w, n)))
  }

  lemma ReconcileKeepsOrdered(s: System, h: Happening)
    requires Ordered(s) && h.OnNamespace? && Legal(s, h)
    ensures Ordered(Next(s, h))
  {
    var w, v := s.world, h.after;
    forall y | y in v.links && v.links[y] !in v.present ensures y in v.crit {
      if y != h.n { assert y in w.links && y in w.crit; }
    }
  }

  lemma ParentOnTheWay(l: Links, x: Name, n: Name) returns (y: Name)
    requires x != n && Reach(l, x, n)
    ensures Reach(l, x, y) && y in l && l[y] == n && y != n
  {
    var k: nat :| Up(l, x, k) == Some(n);
    FirstTime(l, x, n, k);
    var j: nat :| j > 0 && Up(l, x, j) == Some(n) && Up(l, x, j - 1) != Some(n);
    y := Up(l, x, j - 1).value;
  }

  lemma {:induction false} FirstTime(l: Links, x: Name, n: Name, k: nat)
    requires x != n && Up(l, x, k) == Some(n)
    ensures exists j: nat :: j > 0 && Up(l, x, j) == Some(n) && Up(l, x, j - 1) != Some(n)
  {
    if Up(l, x, k - 1) == Some(n) { FirstTime(l, x, n, k - 1); }
  }

  /** Then whoever is known and not halted is live. */
  lemma LiveIff(s: System, x: Name)
    requires Ordered(s)
    ensures Live(s.world, x) <==> x in s.world.present && !Halted(s.world, x)
  {
    var w := s.world;
    ReachSelf(w.links, x);
    if x in w.present && !Halted(w, x) {
      forall a | Reach(w.links, x, a) ensures a in w.present && a !in w.crit && a !in w.excluded {
        if a !in w.present { var y := ParentOnTheWay(w.links, x, a); }
      }
    }
  }

  lemma WayEnds(w: World, x: Name)
    requires ValidWorld(w)
    ensures var a := WayOf(w, x); a != [] && (a[|a| - 1] == None <==> !Halted(w, x))
    ensures forall b | Some(b) in WayOf(w, x) :: Reach(w.links, x, b)
    ensures !Halted(w, x) ==> forall b | Reach(w.links, x, b) :: Some(b) in WayOf(w, x)
  {
    var l, crit := w.links, w.crit;
    WalkFromHit(l, crit, x);
    WayAt(l, crit, x);
    var k := WalkLength(l, crit, x);
    if Up(l, x, k) == None {
      forall b | Reach(l, x, b) ensures Some(b) in WayOf(w, x) && b !in crit {
        var i: nat :| Up(l, x, i) == Some(b);
        if i >= k { UpAdd(l, x, k, i - k); }
        assert WayOf(w, x)[i] == Some(b);
        assert !WalkOver(l, crit, x, i);
      }
    } else {
      assert Reach(l, x, Up(l, x, k).value);
    }
  }

  lemma WayEndsAt(w: World, x: Name)
    requires ValidWorld(w)
    ensures var a := WayOf(w, x); a != [] && (a[|a| - 1] == None <==> !Halted(w, x))
  {
    WayEnds(w, x);
  }

  // ----- A live namespace with the same namespaces above finds the same way up -----

  lemma ParentAbove(l: Links, x: Name, n: Name)
    requires Reach(l, x, n) && n in l
    ensures Reach(l, x, l[n])
  {
    ReachSelf(l, l[n]);
    ReachCases(l, n, l[n]);
    ReachTransitive(l, x, n, l[n]);
  }

  /** If nothing above `x` is lost, the parent of `n` is still above `n`. */
  lemma ParentStaysAbove(l: Links, m: Links, n: Name, x: Name)
    requires SameOff(l, m, n) && Reach(l, x, n) && n in l && !OnCycle(l, n)
    requires forall b | Reach(l, x, b) :: Reach(m, x, b)
    ensures n in m && Reach(m, m[n], l[n])
  {
    ParentAbove(l, x, n);
    ReachIgnoresOwnLink(l, m, n, l[n]);
    ReachLinear(m, x, n, l[n]);
    ReachCases(m, n, l[n]);
    ReachSelf(l, l[n]);
  }

  lemma OneParent(l: Links, m: Links, n: Name)
    requires SameOff(l, m, n) && n in l && n in m && !OnCycle(m, n) && !OnCycle(l, l[n])
    requires Reach(m, m[n], l[n]) && Reach(l, l[n], m[n])
    ensures l[n] == m[n]
  {
    var k: nat :| Up(m, m[n], k) == Some(l[n]);
    UpUnchanged(m, l, n, m[n], k);
    ReachCases(l, l[n], m[n]);
    if l[n] != m[n] { ReachTransitive(l, l[l[n]], m[n], l[n]); }
  }

  lemma SameAboveSameUp(w: World, v: World, n: Name, x: Name)
    requires Moves(w, v, n) && ValidWorld(w) && ValidWorld(v) && Live(w, x) && Live(v, x)
    requires forall b :: Reach(w.links, x, b) <==> Reach(v.links, x, b)
    ensures forall k: nat :: Up(w.links, x, k) == Up(v.links, x, k)
  {
    var l, m := w.links, v.links;
    if Reach(l, x, n) {
      NoCycleAbove(w, x, n);
      NoCycleAbove(v, x, n);
      if n in l { ParentStaysAbove(l, m, n, x); }
      if n in m { ParentStaysAbove(m, l, n, x); }
      if n in l {
        ParentAbove(l, x, n);
        NoCycleAbove(w, x, l[n]);
        OneParent(l, m, n);
      }
      assert l == m;
    } else {
      forall k: nat ensures Up(l, x, k) == Up(m, x, k) { UpUnchanged(l, m, n, x, k); }
    }
  }

  lemma SameAboveSameWay(w: World, v: World, n: Name, x: Name)
    requires Moves(w, v, n) && ValidWorld(w) && ValidWorld(v) && Live(w, x) && Live(v, x)
    requires forall b :: Reach(w.links, x, b) <==> Reach(v.links, x, b)
    ensures WayOf(w, x) == WayOf(v, x)
  {
    SameAboveSameUp(w, v, n, x);
    LiveRunsOut(w, x);
    LiveRunsOut(v, x);
    WayAt(w.links, w.crit, x);
    WayAt(v.links, v.crit, x);
    assert WalkOver(v.links, v.crit, x, WalkLength(w.links, w.crit, x));
    assert WalkOver(w.links, w.crit, x, WalkLength(v.links, v.crit, x));
  }

  // ----- What has happened to a namespace since its objects were last enqueued -----

  /** The objects of `x` are enqueued, or are gone. */
  predicate Updates(h: Happening, x: Name) {
    !h.OnObject? && h.n == x && (h.OnNamespace? ==> h.updates)
  }

  /** `b` was above `x` and is so no longer. */
  ghost predicate Loses(w: World, v: World, x: Name, b: Name) {
    Live(w, x) && Below(w.links, x, b) && b in v.present && !Below(v.links, x, b)
  }

  /** Since then it has lost a namespace above it. */
  ghost predicate LostSince(s: System, hs: seq<Happening>, x: Name) {
    hs != [] &&
    (var before, h := hs[..|hs| - 1], hs[|hs| - 1];
     && !Updates(h, x)
     && (LostSince(s, before, x) || (!h.OnObject? && exists b :: Loses(RunTo(s, before).world, h.after, x, b))))
  }

  /** Since then, or at that time, it has been halted. */
  ghost predicate HaltedSince(s: System, hs: seq<Happening>, x: Name) {
    || Halted(RunTo(s, hs).world, x)
    || (hs != [] && !Updates(hs[|hs| - 1], x) && HaltedSince(s, hs[..|hs| - 1], x))
  }

  /** At that time `b` was `x` or above it. */
  ghost predicate AboveThen(s: System, hs: seq<Happening>, x: Name, b: Name) {
    if hs == [] || Updates(hs[|hs| - 1], x) then Reach(RunTo(s, hs).world.links, x, b)
    else AboveThen(s, hs[..|hs| - 1], x, b)
  }

  /** `b` has come above `x` since then. */
  ghost predicate Gained(s: System, hs: seq<Happening>, x: Name, b: Name) {
    Reach(RunTo(s, hs).world.links, x, b) && !AboveThen(s, hs, x, b)
  }

  // ----- A stale namespace has been halted, or something above it has changed -----

  /** If nothing is lost, and `x` is not halted, it stays live, and what was above it still is. */
  lemma NothingLost(s: System, h: Happening, x: Name)
    requires Ordered(s) && h.OnNamespace? && Legal(s, h) && Live(s.world, x) && !Halted(h.after, x)
    requires forall b :: !Loses(s.world, h.after, x, b)
    ensures Live(h.after, x) && forall b | Reach(s.world.links, x, b) :: Reach(h.after.links, x, b)
  {
    var w, v := s.world, h.after;
    ReconcileKeepsOrdered(s, h);
    LiveIff(s, x);
    LiveIff(Next(s, h), x);
    forall b | Reach(w.links, x, b) ensures Reach(v.links, x, b) {
      ReachCases(w.links, x, b);
      ReachCases(v.links, x, b);
      assert !Loses(w, v, x, b);
    }
  }

  /** Who becomes live has another way up. */
  lemma ShakenIsDisturbed(s: System, h: Happening, x: Name)
    requires Ordered(s) && h.OnNamespace? && Legal(s, h) && x in Shaken(s.world, h.after)
    requires x == h.n ==> x in s.seen
    ensures Disturbed(s.world, h.after, x)
  {
    if Live(h.after, x) && !Live(s.world, x) {
      LiveIff(s, x);
      LiveInTree(h.after, x);
      WayEndsAt(s.world, x);
      WayEndsAt(h.after, x);
    }
  }

  ghost predicate Reconciles(hs: seq<Happening>) {
    forall i | 0 <= i < |hs| :: hs[i].OnNamespace?
  }

  lemma {:induction false} RunKeepsOrdered(s: System, hs: seq<Happening>)
    requires IsFirst(s) && LegalRun(s, hs) && Reconciles(hs)
    ensures Ordered(RunTo(s, hs))
  {
    if hs != [] {
      RunKeepsOrdered(s, hs[..|hs| - 1]);
      ReconcileKeepsOrdered(RunTo(s, hs[..|hs| - 1]), hs[|hs| - 1]);
    }
  }

  /** What was above `x` still is, and if it is stale, there is more. */
  ghost predicate Grown(s: System, hs: seq<Happening>, x: Name) {
    && Live(RunTo(s, hs).world, x)
    && (forall b | AboveThen(s, hs, x, b) :: Reach(RunTo(s, hs).world.links, x, b))
    && (x in Stale(s, hs) ==> exists b :: Gained(s, hs, x, b))
  }

  /** As long as nothing has been lost and it has not been halted. */
  lemma {:induction false} RunGrows(s: System, hs: seq<Happening>, x: Name)
    requires IsFirst(s) && LegalRun(s, hs) && Reconciles(hs) && x in RunTo(s, hs).world.present
    requires !LostSince(s, hs, x) && !HaltedSince(s, hs, x)
    ensures Grown(s, hs, x)
  {
    RunKeepsOrdered(s, hs);
    LiveIff(RunTo(s, hs), x);
    if hs != [] && !Updates(hs[|hs| - 1], x) {
      var before, h := hs[..|hs| - 1], hs[|hs| - 1];
      RunKeepsOrdered(s, before);
      RunGrows(s, before, x);
      NothingLost(RunTo(s, before), h, x);
      StepGrows(s, before, h, hs, x);
    }
  }

  lemma StepGrows(s: System, before: seq<Happening>, h: Happening, hs: seq<Happening>, x: Name)
    requires hs != [] && before == hs[..|hs| - 1] && h == hs[|hs| - 1] && !Updates(h, x) && h.OnNamespace?
    requires Ordered(RunTo(s, before)) && Legal(RunTo(s, before), h) && Grown(s, before, x) && Live(h.after, x)
    requires forall b | Reach(RunTo(s, before).world.links, x, b) :: Reach(h.after.links, x, b)
    ensures Grown(s, hs, x)
  {
    if x in Stale(s, hs) {
      if x in Stale(s, before) {
        var b :| Gained(s, before, x, b);
        assert Gained(s, hs, x, b);
      } else {
        var b := MoreAbove(RunTo(s, before), h, x);
        assert Gained(s, hs, x, b);
      }
    }
  }

  lemma MoreAbove(s: System, h: Happening, x: Name) returns (b: Name)
    requires Ordered(s) && h.OnNamespace? && Legal(s, h) && x in Shaken(s.world, h.after)
    requires Live(s.world, x) && Live(h.after, x)
    requires forall b | Reach(s.world.links, x, b) :: Reach(h.after.links, x, b)
    ensures Reach(h.after.links, x, b) && !Reach(s.world.links, x, b)
  {
    if forall b :: Reach(s.world.links, x, b) <==> Reach(h.after.links, x, b) {
      SameAboveSameWay(s.world, h.after, h.n, x);
    }
    b :| Reach(h.after.links, x, b) && !Reach(s.world.links, x, b);
  }

  // ----- Object events within a run -----

  function Lift(es: seq<Event>): seq<Happening> {
    if es == [] then [] else Lift(es[..|es| - 1]) + [OnObject(es[|es| - 1])]
  }

  /** The legal run `hs` leads from `s` to `t`. */
  ghost predicate Leads(s: System, hs: seq<Happening>, t: System) {
    LegalRun(s, hs) && RunTo(s, hs) == t
  }

  lemma LeadsOn(s: System, hs: seq<Happening>, t: System, h: Happening)
    requires Leads(s, hs, t) && Legal(t, h)
    ensures Leads(s, hs + [h], Next(t, h))
  {
    assert (hs + [h])[..|hs|] == hs;
  }

  lemma {:induction false} RunLast(w: World, c: Cluster, es: seq<Event>)
    requires es != []
    ensures RunFrom(w, c, es) == After(w, RunFrom(w, c, es[..|es| - 1]), es[|es| - 1])
    ensures AdmissibleRun(w, c, es) <==>
      AdmissibleRun(w, c, es[..|es| - 1]) && Admissible(RunFrom(w, c, es[..|es| - 1]), es[|es| - 1])
  {
    var init, e := es[..|es| - 1], es[|es| - 1];
    assert es == init + [e];
    RunAppend(w, c, init, [e]);
    var d := RunFrom(w, c, init);
    assert [e][1..] == [] && AdmissibleRun(w, After(w, d, e), []);
    assert RunFrom(w, d, [e]) == RunFrom(w, After(w, d, e), []);
  }

  lemma {:induction false} LeadsThrough(s: System, hs: seq<Happening>, t: System, es: seq<Event>)
    requires Leads(s, hs, t) && AdmissibleRun(t.world, t.cluster, es)
    ensures Leads(s, hs + Lift(es), t.(cluster := RunFrom(t.world, t.cluster, es)))
  {
    if es == [] {
      assert hs + [] == hs;
    } else {
      var init, e := es[..|es| - 1], es[|es| - 1];
      RunLast(t.world, t.cluster, es);
      LeadsThrough(s, hs, t, init);
      LeadsOn(s, hs + Lift(init), t.(cluster := RunFrom(t.world, t.cluster, init)), OnObject(e));
      assert hs + Lift(init) + [OnObject(e)] == hs + Lift(es);
    }
  }

  /** The changes of the hierarchy in a run. */
  function Changes(gs: seq<Happening>): seq<Happening> {
    if gs == [] then []
    else Changes(gs[..|gs| - 1]) + if gs[|gs| - 1].OnObject? then [] else [gs[|gs| - 1]]
  }

  /** `gs` is the run `hs` with object events in between, and leads to `t`. */
  ghost predicate Threads(s: System, gs: seq<Happening>, hs: seq<Happening>, t: System) {
    Leads(s, gs, t) && Changes(gs) == hs && t == RunTo(s, hs).(cluster := t.cluster)
  }

  lemma {:induction false} ChangesOfLift(gs: seq<Happening>, es: seq<Event>)
    ensures Changes(gs + Lift(es)) == Changes(gs)
  {
    if es == [] {
      assert gs + [] == gs;
    } else {
      var init := es[..|es| - 1];
      var hs := gs + Lift(es);
      assert hs[..|hs| - 1] == gs + Lift(init);
      ChangesOfLift(gs, init);
    }
  }

  lemma ThreadsThrough(s: System, gs: seq<Happening>, hs: seq<Happening>, t: System, es: seq<Event>)
    requires Threads(s, gs, hs, t) && AdmissibleRun(t.world, t.cluster, es)
    ensures Threads(s, gs + Lift(es), hs, t.(cluster := RunFrom(t.world, t.cluster, es)))
  {
    LeadsThrough(s, gs, t, es);
    ChangesOfLift(gs, es);
  }

  /** A change of the hierarchy does not depend on the objects. */
  lemma StepAlike(t: System, u: System, h: Happening)
    requires t == u.(cluster := t.cluster) && !h.OnObject?
    ensures Legal(t, h) <==> Legal(u, h)
    ensures Next(t, h) == Next(u, h).(cluster := Next(t, h).cluster)
  {
  }

  lemma ThreadsOn(s: System, gs: seq<Happening>, hs: seq<Happening>, t: System, h: Happening)
    requires Threads(s, gs, hs, t) && !h.OnObject? && Legal(RunTo(s, hs), h)
    ensures Threads(s, gs + [h], hs + [h], Next(t, h)) && Legal(t, h)
  {
    StepAlike(t, RunTo(s, hs), h);
    LeadsOn(s, gs, t, h);
    assert (gs + [h])[..|gs|] == gs && (hs + [h])[..|hs|] == hs;
  }

  lemma {:induction false} EmptyRun(s: System, hs: seq<Happening>)
    requires s.cluster == EMPTY_CLUSTER && LegalRun(s, hs) && Changes(hs) == hs
    ensures Threads(s, hs, hs, RunTo(s, hs)) && RunTo(s, hs).cluster == EMPTY_CLUSTER
  {
    if hs != [] {
      var before := hs[..|hs| - 1];
      OnlyChanges(hs);
      EmptyRun(s, before);
    }
  }

  lemma {:induction false} ChangesNotLonger(hs: seq<Happening>)
    ensures |Changes(hs)| <= |hs|
  {
    if hs != [] { ChangesNotLonger(hs[..|hs| - 1]); }
  }

  lemma OnlyChanges(hs: seq<Happening>)
    requires hs != [] && Changes(hs) == hs
    ensures Changes(hs[..|hs| - 1]) == hs[..|hs| - 1] && !hs[|hs| - 1].OnObject?
  {
    ChangesNotLonger(hs[..|hs| - 1]);
  }

  // ----- A copy that nobody looks at any more -----

  /** Nothing is queued or recorded, and there is a copy at `k`. */
  ghost predicate Spoilt(c: Cluster, k: Key) {
    c.queue == {} && c.sources == map[] && k in c.store && forall x | x in c.store :: Inherited(c.store[x])
  }

  lemma SpoiltIsWrong(w: World, c: Cluster, k: Key)
    requires Spoilt(c, k)
    ensures !Settled(w, c, k)
  {
    FirstOfferFinds(w, c.sources, k, Above(w, k.ns));
  }

  /** A copy stays through every change that does not enqueue it. */
  lemma SpoiltStays(t: System, h: Happening, k: Key) returns (es: seq<Event>)
    requires Spoilt(t.cluster, k) && !h.OnObject? && !Updates(h, k.ns)
    ensures AdmissibleRun(h.after, Next(t, h).cluster, es)
    ensures Spoilt(RunFrom(h.after, Next(t, h).cluster, es), k)
  {
    es := DrainKeeps(h.after, Next(t, h).cluster, k);
  }

  lemma DrainKeeps(w: World, c: Cluster, k: Key) returns (es: seq<Event>)
    requires c.sources == map[] && k in c.store && k !in c.queue && forall x | x in c.store :: Inherited(c.store[x])
    ensures AdmissibleRun(w, c, es) && Spoilt(RunFrom(w, c, es), k)
  {
    es := DrainQuiet(w, c);
  }

  /** Only `b` holds a source, and `x` a copy, which is not queued. */
  ghost predicate Held(c: Cluster, b: Key, x: Key, o: Obj) {
    && c.sources == map[b := o] && x in c.store && x != b && x !in c.queue
    && forall y | y in c.store && y != b :: Inherited(c.store[y])
  }

  lemma HeldAfter(t: System, h: Happening, b: Key, x: Key, o: Obj)
    requires Copied(t.world, t.cluster, b, x, o) && x != b
    requires !h.OnObject? && !Updates(h, x.ns) && b.ns in h.after.present
    ensures Held(Next(t, h).cluster, b, x, o)
  {
    CopiedIsHeld(t.world, t.cluster, b, x, o);
    assert Kept(h.after, t.cluster.sources) == map[b := o];
    if h.OnRemoval? { HeldWithout(t.cluster, h.n, b, x, o); } else { HeldQueued(t, h, b, x, o); }
  }

  lemma CopiedIsHeld(w: World, c: Cluster, b: Key, x: Key, o: Obj)
    requires Copied(w, c, b, x, o) && x != b
    ensures Held(c, b, x, o)
  {
    CopyIsCanonical(o, b.ns);
  }

  lemma HeldWithout(c: Cluster, n: Name, b: Key, x: Key, o: Obj)
    requires Held(c, b, x, o) && n != x.ns
    ensures Held(Without(c, n), b, x, o)
  {
  }

  lemma HeldQueued(t: System, h: Happening, b: Key, x: Key, o: Obj)
    requires Held(t.cluster, b, x, o) && h.OnNamespace? && !Updates(h, x.ns)
    requires Kept(h.after, t.cluster.sources) == map[b := o]
    ensures Held(Next(t, h).cluster, b, x, o)
  {
  }

  /** The source goes, and its copy is not looked at. */
  lemma SourceGoes(w: World, c: Cluster, b: Key, x: Key, o: Obj) returns (es: seq<Event>)
    requires Held(c, b, x, o) && b.ns in w.present && b.ns !in w.excluded && !Below(w.links, x.ns, b.ns)
    ensures AdmissibleRun(w, c, es) && Spoilt(RunFrom(w, c, es), x)
  {
    es := DropVanishes(w, c, b);
    var d := RunFrom(w, c, es);
    assert d.sources == map[];
    var more := DrainKeeps(w, d, x);
    es := Joined(w, c, d, es, more);
  }

  /** A copy that a user makes while the namespace is halted stays. */
  lemma CopyWhileHalted(w: World, x: Key, o: Obj) returns (es: seq<Event>)
    requires Halted(w, x.ns)
    ensures AdmissibleRun(w, EMPTY_CLUSTER, es) && Spoilt(RunFrom(w, EMPTY_CLUSTER, es), x)
  {
    var copy := CopyOf(o, x.ns);
    CopyIsCanonical(o, x.ns);
    var c := Cluster(map[x := copy], map[], {x});
    assert After(w, EMPTY_CLUSTER, Put(x, copy)) == c;
    HaltedStays(w, c, x);
    OneReconcile(w, c, x);
    es := [Put(x, copy), Reconcile(x)];
    assert [Put(x, copy), Reconcile(x)][1..] == [Reconcile(x)];
  }

  lemma HaltedStays(w: World, c: Cluster, x: Key)
    requires Halted(w, x.ns) && c.sources == map[] && x in c.store && Inherited(c.store[x])
    ensures Reconciled(w, c, x) == c.(queue := c.queue - {x})
  {
    FirstOfferFinds(w, c.sources, x, Above(w, x.ns));
    assert c.sources - {x} == map[];
  }

  // ----- A run that spoils a copy -----

  /** What stays the same in every run. */
  lemma {:induction false} SameKind(s: System, hs: seq<Happening>)
    requires LegalRun(s, hs)
    ensures var w := RunTo(s, hs).world;
      w.excluded == s.world.excluded && w.propagates == s.world.propagates && w.unpropagated == s.world.unpropagated
  {
    if hs != [] { SameKind(s, hs[..|hs| - 1]); }
  }

  /** `o` can be copied to `x`. */
  ghost predicate Accepts(w: World, x: Name, o: Obj) {
    IsSourceForm(w, o) && w.propagates(o, x)
  }

  /** Where `x` loses `b`: a source in `b` is copied first, and deleted afterwards. */
  lemma SpoilAtLoss(s: System, hs: seq<Happening>, h: Happening, b: Key, x: Key, o: Obj)
    returns (gs: seq<Happening>, t: System)
    requires IsFirst(s) && s.cluster == EMPTY_CLUSTER && LegalRun(s, hs) && Changes(hs) == hs
    requires Legal(RunTo(s, hs), h) && !h.OnObject? && !Updates(h, x.ns) && b.name == x.name
    requires Loses(RunTo(s, hs).world, h.after, x.ns, b.ns) && Accepts(s.world, x.ns, o)
    ensures Threads(s, gs, hs + [h], t) && Spoilt(t.cluster, x)
  {
    var u, w := RunTo(s, hs), RunTo(s, hs).world;
    EmptyRun(s, hs);
    RunKeepsInv(s, hs);
    SameKind(s, hs);
    PairFacts(w, b, x);
    var es := CopyEverywhere(w, b, x, o);
    ThreadsThrough(s, hs, hs, u, es);
    t := u.(cluster := RunFrom(w, u.cluster, es));
    ThreadsOn(s, hs + Lift(es), hs, t, h);
    HeldAfter(t, h, b, x, o);
    var t1 := Next(t, h);
    ReachCases(w.links, x.ns, b.ns);
    var fs := SourceGoes(h.after, t1.cluster, b, x, o);
    gs := hs + Lift(es) + [h];
    ThreadsThrough(s, gs, hs + [h], t1, fs);
    gs, t := gs + Lift(fs), t1.(cluster := RunFrom(h.after, t1.cluster, fs));
  }

  lemma {:induction false} SpoilRun(s: System, hs: seq<Happening>, x: Key, o: Obj)
    returns (gs: seq<Happening>, t: System)
    requires IsFirst(s) && s.cluster == EMPTY_CLUSTER && LegalRun(s, hs) && Changes(hs) == hs
    requires LostSince(s, hs, x.ns) || HaltedSince(s, hs, x.ns)
    requires Accepts(s.world, x.ns, o)
    ensures Threads(s, gs, hs, t) && Spoilt(t.cluster, x)
  {
    if Halted(RunTo(s, hs).world, x.ns) {
      EmptyRun(s, hs);
      var es := CopyWhileHalted(RunTo(s, hs).world, x, o);
      gs, t := ThreadedThrough(s, hs, hs, RunTo(s, hs), es);
    } else {
      var before, h := hs[..|hs| - 1], hs[|hs| - 1];
      OnlyChanges(hs);
      assert before + [h] == hs;
      if b :| Loses(RunTo(s, before).world, h.after, x.ns, b) {
        gs, t := SpoilAtLoss(s, before, h, Key(b, x.name), x, o);
      } else {
        gs, t := SpoilRun(s, before, x, o);
        gs, t := SpoilOn(s, gs, before, t, h, x);
      }
    }
  }

  lemma ThreadedThrough(s: System, gs: seq<Happening>, hs: seq<Happening>, t: System, es: seq<Event>)
    returns (gs': seq<Happening>, t': System)
    requires Threads(s, gs, hs, t) && AdmissibleRun(t.world, t.cluster, es)
    ensures Threads(s, gs', hs, t') && t' == t.(cluster := RunFrom(t.world, t.cluster, es))
  {
    ThreadsThrough(s, gs, hs, t, es);
    gs', t' := gs + Lift(es), t.(cluster := RunFrom(t.world, t.cluster, es));
  }

  lemma SpoilOn(s: System, gs: seq<Happening>, hs: seq<Happening>, t: System, h: Happening, x: Key)
    returns (gs': seq<Happening>, t': System)
    requires Threads(s, gs, hs, t) && Spoilt(t.cluster, x) && !h.OnObject? && !Updates(h, x.ns)
    requires Legal(RunTo(s, hs), h)
    ensures Threads(s, gs', hs + [h], t') && Spoilt(t'.cluster, x)
  {
    ThreadsOn(s, gs, hs, t, h);
    var es := SpoiltStays(t, h, x);
    gs', t' := ThreadedThrough(s, gs + [h], hs + [h], Next(t, h), es);
  }

  // ----- A run that leaves two sources -----

  /** There are a source in `b` and an object in `x` that is no copy and is not queued. */
  ghost predicate Doubled(c: Cluster, b: Key, x: Key, o: Obj) {
    b in c.sources && c.sources[b] == o && x in c.store && !Inherited(c.store[x]) && x !in c.queue
  }

  lemma DoubledIsWrong(w: World, c: Cluster, b: Key, x: Key, o: Obj)
    requires Doubled(c, b, x, o) && Below(w.links, x.ns, b.ns) && w.propagates(o, x.ns) && b.name == x.name
    ensures !Settled(w, c, x)
  {
    AboveElements(w, x.ns, b.ns);
    FirstOfferFinds(w, c.sources, x, Above(w, x.ns));
    assert Offers(w, c.sources, x, b.ns);
  }

  lemma DoubledStays(t: System, h: Happening, b: Key, x: Key, o: Obj)
    requires Doubled(t.cluster, b, x, o) && h.OnNamespace? && !Updates(h, x.ns) && b.ns in h.after.present
    ensures Doubled(Next(t, h).cluster, b, x, o)
  {
  }

  /** While `b` is not above `x`, a source is made in both. */
  lemma TwoSources(w: World, b: Key, x: Key, o: Obj) returns (es: seq<Event>)
    requires ValidWorld(w) && Live(w, x.ns) && b != x && !Below(w.links, x.ns, b.ns) && IsSourceForm(w, o)
    requires b.ns in w.present && b.ns !in w.excluded
    ensures AdmissibleRun(w, EMPTY_CLUSTER, es) && Doubled(RunFrom(w, EMPTY_CLUSTER, es), b, x, o)
  {
    FirstOfferFinds(w, map[], b, Above(w, b.ns));
    RecordSource(w, EMPTY_CLUSTER, b, o);
    var c := Cluster(map[b := o], map[b := o], CopiesOf(w, b));
    assert RunFrom(w, EMPTY_CLUSTER, [Put(b, o), Reconcile(b)]) == c;
    OneMoreSource(w, c, b, x, o);
    es := Joined(w, EMPTY_CLUSTER, c, [Put(b, o), Reconcile(b)], [Put(x, o), Reconcile(x)]);
  }

  lemma OneMoreSource(w: World, c: Cluster, b: Key, x: Key, o: Obj)
    requires ValidWorld(w) && Live(w, x.ns) && b != x && !Below(w.links, x.ns, b.ns) && IsSourceForm(w, o)
    requires c.sources == map[b := o]
    ensures AdmissibleRun(w, c, [Put(x, o), Reconcile(x)])
    ensures Doubled(RunFrom(w, c, [Put(x, o), Reconcile(x)]), b, x, o)
  {
    LiveInTree(w, x.ns);
    forall a | a in Above(w, x.ns) ensures !Offers(w, c.sources, x, a) { AboveElements(w, x.ns, a); }
    FirstOfferFinds(w, c.sources, x, Above(w, x.ns));
    var d := After(w, c, Put(x, o));
    OneReconcile(w, d, x);
    assert [Put(x, o), Reconcile(x)][1..] == [Reconcile(x)];
    assert x !in CopiesOf(w, x);
  }

  lemma {:induction false} DoubleRun(s: System, hs: seq<Happening>, b: Key, x: Key, o: Obj)
    returns (gs: seq<Happening>, t: System)
    requires IsFirst(s) && s.cluster == EMPTY_CLUSTER && LegalRun(s, hs) && Reconciles(hs)
    requires x.ns in RunTo(s, hs).world.present && !LostSince(s, hs, x.ns) && !HaltedSince(s, hs, x.ns)
    requires Gained(s, hs, x.ns, b.ns) && Accepts(s.world, x.ns, o)
    ensures Threads(s, gs, hs, t) && Doubled(t.cluster, b, x, o)
  {
    var before, h := hs[..|hs| - 1], hs[|hs| - 1];
    assert before + [h] == hs;
    LastGrows(s, hs, x.ns, b.ns);
    if Reach(RunTo(s, before).world.links, x.ns, b.ns) {
      gs, t := DoubleRun(s, before, b, x, o);
    } else {
      gs, t := DoubleAtGain(s, before, h, b, x, o);
    }
    gs, t := DoubleOn(s, gs, before, t, h, b, x, o);
  }

  lemma DoubleOn(s: System, gs: seq<Happening>, hs: seq<Happening>, t: System, h: Happening, b: Key, x: Key, o: Obj)
    returns (gs': seq<Happening>, t': System)
    requires Threads(s, gs, hs, t) && Doubled(t.cluster, b, x, o) && h.OnNamespace? && !Updates(h, x.ns)
    requires Legal(RunTo(s, hs), h) && b.ns in h.after.present
    ensures Threads(s, gs', hs + [h], t') && Doubled(t'.cluster, b, x, o)
  {
    ThreadsOn(s, gs, hs, t, h);
    DoubledStays(t, h, b, x, o);
    gs', t' := gs + [h], Next(t, h);
  }

  /** Before the last change of a run it was the same, or `b` was not yet above. */
  lemma LastGrows(s: System, hs: seq<Happening>, x: Name, b: Name)
    requires IsFirst(s) && LegalRun(s, hs) && Reconciles(hs) && x in RunTo(s, hs).world.present
    requires !LostSince(s, hs, x) && !HaltedSince(s, hs, x) && Gained(s, hs, x, b)
    ensures hs != [] && !Updates(hs[|hs| - 1], x) && hs[|hs| - 1].OnNamespace? && Reconciles(hs[..|hs| - 1])
    ensures x in RunTo(s, hs[..|hs| - 1]).world.present && Reach(hs[|hs| - 1].after.links, x, b)
    ensures var before, h := hs[..|hs| - 1], hs[|hs| - 1]; var u := RunTo(s, before);
      && Ordered(u) && Live(u.world, x) && Live(h.after, x) && b in h.after.present
      && !LostSince(s, before, x) && !HaltedSince(s, before, x) && LegalRun(s, before) && Legal(u, h)
      && (Reach(u.world.links, x, b) ==> Gained(s, before, x, b))
  {
    RunKeepsOrdered(s, hs[..|hs| - 1]);
    RunKeepsOrdered(s, hs);
    RunGrows(s, hs, x);
    RunGrows(s, hs[..|hs| - 1], x);
    ReachSelf(RunTo(s, hs[..|hs| - 1]).world.links, x);
  }

  lemma DoubleAtGain(s: System, before: seq<Happening>, h: Happening, b: Key, x: Key, o: Obj)
    returns (gs: seq<Happening>, t: System)
    requires IsFirst(s) && s.cluster == EMPTY_CLUSTER && LegalRun(s, before) && Reconciles(before)
    requires var u := RunTo(s, before);
      && Ordered(u) && h.OnNamespace? && Legal(u, h) && Live(u.world, x.ns) && Live(h.after, x.ns)
      && Reach(h.after.links, x.ns, b.ns) && !Reach(u.world.links, x.ns, b.ns)
    requires Accepts(s.world, x.ns, o)
    ensures Threads(s, gs, before, t) && Doubled(t.cluster, b, x, o)
  {
    var u := RunTo(s, before);
    SameKind(s, before);
    GainedIsKnown(u, h, x.ns, b.ns);
    ReconcilesAreChanges(before);
    EmptyRun(s, before);
    var es := TwoSources(u.world, b, x, o);
    gs, t := ThreadedThrough(s, before, before, u, es);
  }

  /** What comes above `x` was known before. */
  lemma GainedIsKnown(s: System, h: Happening, x: Name, b: Name)
    requires Ordered(s) && h.OnNamespace? && Legal(s, h) && Live(h.after, x)
    requires Reach(h.after.links, x, b) && !Reach(s.world.links, x, b)
    ensures b in s.world.present && b !in s.world.excluded && !Below(s.world.links, x, b) && b != x
  {
    ReachSelf(s.world.links, x);
    ReachIgnoresOwnLink(s.world.links, h.after.links, h.n, x);
    ReachCases(s.world.links, x, b);
  }

  // ----- Exactly when objects are right -----

  /** Every object of `x` that is not queued after the run is right. */
  ghost predicate RightAfter(s: System, gs: seq<Happening>, x: Name) {
    var t := RunTo(s, gs);
    forall k: Key | k.ns == x && k !in t.cluster.queue :: Settled(t.world, t.cluster, k)
  }

  /** However the changes are interleaved with reconciles of objects and with what users do to them, from whatever
      is stored at the start: every object of `x` that is not queued at the end is right. */
  ghost predicate AlwaysRight(s: System, hs: seq<Happening>, x: Name) {
    forall c, gs | IsStart(c) && Interleaves(s.(cluster := c), gs, hs) :: RightAfter(s.(cluster := c), gs, x)
  }

  ghost predicate Interleaves(s: System, gs: seq<Happening>, hs: seq<Happening>) {
    LegalRun(s, gs) && Changes(gs) == hs
  }

  /** Object events change neither the hierarchy nor who is stale. */
  lemma {:induction false} SameChanges(s: System, c: Cluster, gs: seq<Happening>)
    requires LegalRun(s.(cluster := c), gs)
    ensures AlikeAfter(s.(cluster := c), gs, s, Changes(gs))
  {
    var s' := s.(cluster := c);
    if gs != [] {
      var before, h := gs[..|gs| - 1], gs[|gs| - 1];
      SameChanges(s, c, before);
      if h.OnObject? {
        NoChange(gs);
        ObjectAlike(s', gs, s, Changes(gs));
      } else {
        LastChange(gs);
        ChangeAlike(s', gs, s, Changes(gs));
      }
    }
  }

  ghost predicate AlikeAfter(s: System, gs: seq<Happening>, u: System, hs: seq<Happening>) {
    RunTo(s, gs) == RunTo(u, hs).(cluster := RunTo(s, gs).cluster) && Stale(s, gs) == Stale(u, hs)
  }

  lemma ObjectAlike(s: System, gs: seq<Happening>, u: System, hs: seq<Happening>)
    requires gs != [] && gs[|gs| - 1].OnObject? && AlikeAfter(s, gs[..|gs| - 1], u, hs)
    ensures AlikeAfter(s, gs, u, hs)
  {
  }

  lemma NoChange(gs: seq<Happening>)
    requires gs != [] && gs[|gs| - 1].OnObject?
    ensures Changes(gs) == Changes(gs[..|gs| - 1])
  {
    assert Changes(gs[..|gs| - 1]) + [] == Changes(gs[..|gs| - 1]);
  }

  lemma LastChange(gs: seq<Happening>)
    requires gs != [] && !gs[|gs| - 1].OnObject?
    ensures Changes(gs) != [] && Changes(gs)[|Changes(gs)| - 1] == gs[|gs| - 1]
    ensures Changes(gs)[..|Changes(gs)| - 1] == Changes(gs[..|gs| - 1])
  {
  }

  lemma ChangeAlike(s: System, gs: seq<Happening>, u: System, hs: seq<Happening>)
    requires gs != [] && hs != [] && gs[|gs| - 1] == hs[|hs| - 1] && !gs[|gs| - 1].OnObject?
    requires AlikeAfter(s, gs[..|gs| - 1], u, hs[..|hs| - 1])
    ensures AlikeAfter(s, gs, u, hs)
  {
    StepAlike(RunTo(s, gs[..|gs| - 1]), RunTo(u, hs[..|hs| - 1]), gs[|gs| - 1]);
  }

  lemma {:induction false} NoRecordLeft(s: System, gs: seq<Happening>)
    requires Reconciles(Changes(gs))
    ensures LeavesNoRecord(s, gs)
  {
    if gs != [] {
      var before, h := gs[..|gs| - 1], gs[|gs| - 1];
      forall i | 0 <= i < |Changes(before)| ensures Changes(before)[i].OnNamespace? {
        assert Changes(gs)[i] == Changes(before)[i];
      }
      NoRecordLeft(s, before);
      if !h.OnObject? { assert Changes(gs)[|Changes(gs)| - 1] == h; }
    }
  }

  /** Objects of a live namespace that is not stale are always right. */
  lemma NotStaleIsRight(s: System, hs: seq<Happening>, x: Name)
    requires IsFirst(s) && Reconciles(hs) && Live(RunTo(s, hs).world, x) && x !in Stale(s, hs)
    ensures AlwaysRight(s, hs, x)
  {
    forall c, gs | IsStart(c) && Interleaves(s.(cluster := c), gs, hs) ensures RightAfter(s.(cluster := c), gs, x) {
      SameChanges(s, c, gs);
      NotStaleIsRightAfter(s.(cluster := c), gs, x);
    }
  }

  lemma NotStaleIsRightAfter(s: System, gs: seq<Happening>, x: Name)
    requires IsFirst(s) && LegalRun(s, gs) && Reconciles(Changes(gs))
    requires Live(RunTo(s, gs).world, x) && x !in Stale(s, gs)
    ensures RightAfter(s, gs, x)
  {
    NoRecordLeft(s, gs);
    forall k: Key | k.ns == x && k !in RunTo(s, gs).cluster.queue
      ensures Settled(RunTo(s, gs).world, RunTo(s, gs).cluster, k)
    {
      UnshakenIsSettled(s, gs, k);
    }
  }

  /** What has lost something, or has been halted, can be made wrong, also in runs with removals; ... */
  lemma LostIsSpoilt(s: System, hs: seq<Happening>, x: Name, o: Obj)
    requires IsFirst(s) && s.cluster == EMPTY_CLUSTER && LegalRun(s, hs) && Changes(hs) == hs
    requires LostSince(s, hs, x) || HaltedSince(s, hs, x)
    requires Accepts(s.world, x, o)
    ensures !AlwaysRight(s, hs, x)
  {
    var k := Key(x, "x");
    var gs, t := SpoilRun(s, hs, k, o);
    assert s.(cluster := EMPTY_CLUSTER) == s;
    SpoiltIsWrong(t.world, t.cluster, k);
    assert Interleaves(s, gs, hs) && !RightAfter(s, gs, x);
  }

  /** ... and so can what has got something above it. */
  lemma GainIsWrong(s: System, hs: seq<Happening>, x: Name, b: Name, o: Obj)
    requires IsFirst(s) && s.cluster == EMPTY_CLUSTER && LegalRun(s, hs) && Reconciles(hs)
    requires x in RunTo(s, hs).world.present && !LostSince(s, hs, x) && !HaltedSince(s, hs, x)
    requires Gained(s, hs, x, b) && Accepts(s.world, x, o)
    ensures !AlwaysRight(s, hs, x)
  {
    var k, src := Key(x, "x"), Key(b, "x");
    var gs, t := DoubleRun(s, hs, src, k, o);
    assert s.(cluster := EMPTY_CLUSTER) == s;
    SameKind(s, hs);
    RunGrows(s, hs, x);
    ReachSelf(t.world.links, x);
    AboveThenSelf(s, hs, x);
    ReachCases(t.world.links, x, b);
    DoubledIsWrong(t.world, t.cluster, src, k, o);
    assert Interleaves(s, gs, hs) && !RightAfter(s, gs, x);
  }

  lemma {:induction false} AboveThenSelf(s: System, hs: seq<Happening>, x: Name)
    ensures AboveThen(s, hs, x, x)
  {
    ReachSelf(RunTo(s, hs).world.links, x);
    if hs != [] { AboveThenSelf(s, hs[..|hs| - 1], x); }
  }

  /** Without removals, the objects of a live namespace are always right if and only if it is not stale. */
  lemma MovingIsSettledIff(s: System, hs: seq<Happening>, x: Name, o: Obj)
    requires IsFirst(s) && s.cluster == EMPTY_CLUSTER && LegalRun(s, hs) && Reconciles(hs) && Accepts(s.world, x, o)
    requires Live(RunTo(s, hs).world, x)
    ensures AlwaysRight(s, hs, x) <==> x !in Stale(s, hs)
  {
    if x !in Stale(s, hs) {
      NotStaleIsRight(s, hs, x);
    } else if LostSince(s, hs, x) || HaltedSince(s, hs, x) {
      ReconcilesAreChanges(hs);
      LostIsSpoilt(s, hs, x, o);
    } else {
      RunKeepsOrdered(s, hs);
      LiveInTree(RunTo(s, hs).world, x);
      RunGrows(s, hs, x);
      var b :| Gained(s, hs, x, b);
      GainIsWrong(s, hs, x, b, o);
    }
  }

  lemma {:induction false} ReconcilesAreChanges(hs: seq<Happening>)
    requires Reconciles(hs)
    ensures Changes(hs) == hs
  {
    if hs != [] { ReconcilesAreChanges(hs[..|hs| - 1]); }
  }

  // ----- When nobody is stale -----

  /** No reconcile of a stale namespace goes without an update. */
  ghost predicate NeverSkipsStale(s: System, hs: seq<Happening>) {
    hs == [] ||
    (var before, h := hs[..|hs| - 1], hs[|hs| - 1];
     && NeverSkipsStale(s, before)
     && (h.OnNamespace? && !h.updates ==> h.n !in Stale(s, before)))
  }

  /** Whoever is not stale has seen its way up. */
  ghost predicate StaleShows(s: System, stale: set<Name>) {
    stale <= s.waiting && forall n | n in s.seen && n !in stale :: s.seen[n] == WayOf(s.world, n)
  }

  lemma {:induction false} StaleIsWaiting(s: System, hs: seq<Happening>)
    requires IsFirst(s) && LegalRun(s, hs) && Reconciles(hs) && NeverSkipsStale(s, hs)
    ensures StaleShows(RunTo(s, hs), Stale(s, hs))
  {
    if hs != [] {
      var before, h := hs[..|hs| - 1], hs[|hs| - 1];
      StaleIsWaiting(s, before);
      RunKeepsOrdered(s, before);
      ShakenIsTold(RunTo(s, before), h, Stale(s, before));
    }
  }

  lemma ShakenIsTold(s: System, h: Happening, stale: set<Name>)
    requires Ordered(s) && h.OnNamespace? && Legal(s, h) && StaleShows(s, stale) && (!h.updates ==> h.n !in stale)
    ensures StaleShows(Next(s, h), StaleAfter(s, h, stale))
  {
    forall x | x in Shaken(s.world, h.after) && !Updates(h, x) ensures x in h.told {
      ShakenIsDisturbed(s, h, x);
    }
    forall n | n in s.seen && n != h.n && n !in StaleAfter(s, h, stale) ensures s.seen[n] == WayOf(h.after, n) {
      assert n !in Shaken(s.world, h.after);
    }
  }

  /** So if no stale namespace is ever skipped, everything is right whenever nothing waits. */
  lemma MovingIsSettled(s: System, hs: seq<Happening>, x: Name)
    requires IsFirst(s) && LegalRun(s, hs) && Reconciles(hs) && NeverSkipsStale(s, hs)
    requires Live(RunTo(s, hs).world, x) && x !in RunTo(s, hs).waiting
    ensures AlwaysRight(s, hs, x)
  {
    StaleIsWaiting(s, hs);
    NotStaleIsRight(s, hs, x);
  }
}
