/** What the hierarchy reconciler does to the forest is a move of the hierarchy as propagation sees it. */
module PropagationBridge {
  import opened Names
  import opened ParentLinks
  import opened Cycles
  import opened Objects
  import opened ForestState
  import S = HierarchySteps
  import R = ObjectReconciler
  import P = Propagation
  import M = PropagationMoves
  import E = PropagationExact
  import opened LabelSync

  ghost predicate SameWhenKnown(s: State, t: State, n: Name) {
    forall x | x != n :: (S.Known(s, x) <==> S.Known(t, x)) && (S.Known(s, x) ==> t[x] == s[x])
  }

  lemma SyncKeepsKnown(s: State, n: Name, cfg: S.Config, excluded: set<Name>)
    requires n != NO_NAME && S.Sound(s)
    ensures SameWhenKnown(s, S.Sync(s, n, cfg, excluded), n)
  {
    S.SyncOrphans(s, n, cfg, excluded);
    S.SyncTouchesOnly(s, n, cfg, excluded);
    S.KnownBefore(s, S.Sync(s, n, cfg, excluded), n);
  }

  /** The hierarchy that propagation sees. */
  ghost function Seen(s: State, excluded: set<Name>, propagates: (Obj, Name) -> bool,
    unpropagated: set<string>): P.World {
    R.WorldOf(s, excluded, propagates, unpropagated)
  }

  /** Every namespace whose parent is not known is halted; the empty forest is like that ... */
  ghost predicate OrphansHalted(s: State) {
    forall y | y in s && s[y].parent.Some? && !S.Known(s, s[y].parent.value) :: y in Crits(s)
  }

  /** ... and a reconcile keeps it so. A removal need not. */
  lemma SyncHaltsOrphans(s: State, n: Name, cfg: S.Config, excluded: set<Name>)
    requires n != NO_NAME && S.Sound(s) && OrphansHalted(s)
    ensures OrphansHalted(S.Sync(s, n, cfg, excluded))
  {
    var t := S.Sync(s, n, cfg, excluded);
    S.SyncOrphans(s, n, cfg, excluded);
    S.SyncTouchesOnly(s, n, cfg, excluded);
    SyncKeepsKnown(s, n, cfg, excluded);
    forall y | y in t && t[y].parent.Some? && !S.Known(t, t[y].parent.value) ensures y in Crits(t) {
      if y != n {
        assert y in s && t[y] == s[y];
        assert y in Crits(s);
      }
    }
  }

  /** A reconcile of `n` is a move of `n`, and halts it if its parent is not known ... */
  lemma SyncIsMove(s: State, n: Name, cfg: S.Config, excluded: set<Name>, propagates: (Obj, Name) -> bool,
      unpropagated: set<string>)
    requires n != NO_NAME && S.Sound(s)
    requires P.Uniform(Seen(S.Sync(s, n, cfg, excluded), excluded, propagates, unpropagated))
    ensures var w, v := Seen(s, excluded, propagates, unpropagated),
        Seen(S.Sync(s, n, cfg, excluded), excluded, propagates, unpropagated);
      && M.Moves(w, v, n) && n in v.present && (n in v.links && v.links[n] !in v.present ==> n in v.crit)
  {
    var t := S.Sync(s, n, cfg, excluded);
    S.SyncTouchesOnly(s, n, cfg, excluded);
    SyncKeepsKnown(s, n, cfg, excluded);
    S.SyncOrphans(s, n, cfg, excluded);
    KnownMoves(s, t, n, excluded, propagates, unpropagated);
    if n in LinksOf(t) && !S.Known(t, LinksOf(t)[n]) { assert !S.Known(s, LinksOf(t)[n]); }
  }

  lemma KnownMoves(s: State, t: State, n: Name, excluded: set<Name>, propagates: (Obj, Name) -> bool,
      unpropagated: set<string>)
    requires S.Sound(s) && S.Sound(t) && SameWhenKnown(s, t, n) && SameOff(LinksOf(s), LinksOf(t), n)
    requires P.Uniform(Seen(t, excluded, propagates, unpropagated))
    ensures M.Moves(Seen(s, excluded, propagates, unpropagated), Seen(t, excluded, propagates, unpropagated), n)
  {
    forall x | x != n
      ensures S.Known(s, x) <==> S.Known(t, x)
      ensures S.Known(s, x) ==> (x in Crits(s) <==> x in Crits(t))
    {
    }
  }

  /** ... and so is its removal. */
  lemma RemovalIsMove(s: State, n: Name, excluded: set<Name>, propagates: (Obj, Name) -> bool,
      unpropagated: set<string>)
    requires n != NO_NAME && S.Sound(s) && S.Known(s, n)
    requires P.Uniform(Seen(S.Remove(s, n), excluded, propagates, unpropagated))
    ensures var w, v := Seen(s, excluded, propagates, unpropagated),
        Seen(S.Remove(s, n), excluded, propagates, unpropagated);
      M.Moves(w, v, n) && n !in v.present && Children(w.links, n) == ChildrenOf(s, n)
  {
    RemovedState(s, n);
    KnownMoves(s, S.Remove(s, n), n, excluded, propagates, unpropagated);
  }

  /** What the removal of `n` leaves alone; the entry of `n` is kept for its children only. */
  lemma RemovedState(s: State, n: Name)
    requires n != NO_NAME && S.Sound(s) && S.Known(s, n)
    ensures var t := S.Remove(s, n);
      && S.Sound(t) && !S.Known(t, n) && SameWhenKnown(s, t, n) && S.NothingNew(s, t, n)
      && SameOff(LinksOf(s), LinksOf(t), n) && n !in LinksOf(t) && (n in t ==> (n in Crits(t) <==> n in Crits(s)))
      && S.Externals(t) <= S.Externals(s)
  {
    S.RemoveKeepsSound(s, n);
    S.UnsetKeeps(s, n);
    RemovedInfo(s, n);
  }

  lemma RemovedInfo(s: State, n: Name)
    requires n in s && WellFormed(s)
    ensures var t := Unset(s, n);
      && (n in t ==> t[n] == Node(None, s[n].info.(present := false)))
      && (forall x | x in s && x != n && s[x].info.present :: x in t && t[x] == s[x])
  {
  }

  /** Who finds another way up has another ancestry or another halting ancestor, and so is told by the
      reconciler. */
  lemma DisturbedIsNoticed(s: State, t: State, excluded: set<Name>, propagates: (Obj, Name) -> bool,
      unpropagated: set<string>, x: Name)
    requires S.Sound(s) && S.Sound(t)
    requires M.Disturbed(Seen(s, excluded, propagates, unpropagated), Seen(t, excluded, propagates, unpropagated), x)
    ensures Ancestry(LinksOf(s), x) != Ancestry(LinksOf(t), x) || S.CritAncestor(s, x) != S.CritAncestor(t, x)
  {
    if Ancestry(LinksOf(s), x) == Ancestry(LinksOf(t), x) && S.CritAncestor(s, x) == S.CritAncestor(t, x) {
      SameWay(LinksOf(s), Crits(s), LinksOf(t), Crits(t), x);
    }
  }

  ghost function EndOf(l: Links, crit: set<Name>, x: Name): Option<Name>
    requires EveryCycleHit(l, crit)
  {
    WalkFromHit(l, crit, x);
    Up(l, x, WalkLength(l, crit, x))
  }

  /** The ancestry and the halting ancestor determine the way up. */
  lemma SameWay(l: Links, crit: set<Name>, m: Links, crit': set<Name>, x: Name)
    requires EveryCycleHit(l, crit) && EveryCycleHit(m, crit')
    requires Ancestry(l, x) == Ancestry(m, x) && EndOf(l, crit, x) == EndOf(m, crit', x)
    ensures M.WayUp(l, crit, x) == M.WayUp(m, crit', x)
  {
    WalkFromHit(l, crit, x);
    WalkFromHit(m, crit', x);
    var a := Ancestry(l, x);
    forall i: nat | i < |a| ensures Up(l, x, i) == Up(m, x, i) {
      ChainUp(l, a, |a| - 1 - i);
      ChainUp(m, a, |a| - 1 - i);
    }
    if EndOf(l, crit, x) == None {
      RunOutLength(l, crit, x);
      RunOutLength(m, crit', x);
    } else {
      NoLaterStop(l, crit, m, crit', x);
      NoLaterStop(m, crit', l, crit, x);
    }
    SameLengthSameUp(l, crit, m, crit', x, |a|);
  }

  lemma SameLengthSameUp(l: Links, crit: set<Name>, m: Links, crit': set<Name>, x: Name, k: nat)
    requires WalkEnds(l, crit, x) && WalkEnds(m, crit', x) && WalkLength(l, crit, x) == WalkLength(m, crit', x) <= k
    requires Up(l, x, WalkLength(l, crit, x)) == Up(m, x, WalkLength(m, crit', x))
    requires forall i: nat | i < k :: Up(l, x, i) == Up(m, x, i)
    ensures M.WayUp(l, crit, x) == M.WayUp(m, crit', x)
  {
    M.WayAt(l, crit, x);
    M.WayAt(m, crit', x);
  }

  /** Where the way from `x` in `l` stops, the other one has stopped, too. */
  lemma NoLaterStop(l: Links, crit: set<Name>, m: Links, crit': set<Name>, x: Name)
    requires WalkEnds(l, crit, x) && WalkEnds(m, crit', x) && Ancestry(l, x) == Ancestry(m, x)
    requires Up(l, x, WalkLength(l, crit, x)).Some?
    requires Up(l, x, WalkLength(l, crit, x)) == Up(m, x, WalkLength(m, crit', x))
    requires forall i: nat | i < |Ancestry(l, x)| :: Up(l, x, i) == Up(m, x, i)
    ensures WalkLength(m, crit', x) <= WalkLength(l, crit, x) < |Ancestry(l, x)|
  {
    var a, k := Ancestry(l, x), WalkLength(l, crit, x);
    var stop := Up(l, x, k).value;
    assert stop in crit && stop in crit' && Reach(l, x, stop);
    AncestryElements(l, x, a, stop);
    var j :| 0 <= j < |a| && a[j] == stop;
    ChainUp(l, a, j);
    assert WalkOver(l, crit, x, |a| - 1 - j);
    assert WalkOver(m, crit', x, k);
  }

  /** A way that runs out is as long as the ancestry. */
  lemma RunOutLength(l: Links, crit: set<Name>, x: Name)
    requires WalkEnds(l, crit, x) && Up(l, x, WalkLength(l, crit, x)) == None
    ensures WalkLength(l, crit, x) == |Ancestry(l, x)| && Up(l, x, |Ancestry(l, x)|) == None
  {
    var a, k := Ancestry(l, x), WalkLength(l, crit, x);
    AncestryTop(l, x);
    if a[0] in l { NeverRunsOut(l, x, k); }
    M.RunsOutAfter(l, x);
    assert WalkOver(l, crit, x, |a|);
  }

  lemma NeverRunsOut(l: Links, x: Name, k: nat)
    requires OnCycle(l, Ancestry(l, x)[0])
    ensures Up(l, x, k).Some?
  {
    var a := Ancestry(l, x);
    if k < |a| {
      ChainUp(l, a, |a| - 1 - k);
    } else {
      ChainUp(l, a, 0);
      UpAdd(l, x, |a| - 1, k - (|a| - 1));
      CycleNeverRunsOut(l, a[0], k - (|a| - 1));
    }
  }

  // ----- What labels and conditions show -----

  /** Without external namespaces on the way, the walk of the labels stops where the way up ends. */
  lemma StopsAreCrits(s: State, n: Name)
    requires Labelled(s, n) && NoneExternal(s, n)
    ensures WalkEnds(LinksOf(s), S.Stops(s), n)
    ensures WalkLength(LinksOf(s), S.Stops(s), n) == WalkLength(LinksOf(s), Crits(s), n)
  {
    var l := LinksOf(s);
    S.CritWalkStops(s, n);
    forall k: nat ensures WalkOver(l, S.Stops(s), n, k) <==> WalkOver(l, Crits(s), n, k) {
      if Up(l, n, k).Some? { assert Reach(l, n, Up(l, n, k).value); }
    }
  }

  lemma OnlyDepths(s: State, n: Name)
    requires Labelled(s, n) && NoneExternal(s, n) && WalkEnds(LinksOf(s), S.Stops(s), n)
    ensures s[n].info.labels.depths == S.Depths(LinksOf(s), S.Stops(s), n, 0)
  {
    var l, stop := LinksOf(s), S.Stops(s);
    S.StopIsSome(l, stop, n);
    assert Reach(l, n, Up(l, n, S.StopAt(l, stop, n)).value);
  }

  /** The depth labels and the halting ancestor show the way up. */
  ghost predicate Shows(a: M.Way, depths: map<Name, int>, halted: Option<Name>) {
    && a != [] && halted == a[|a| - 1] && (forall i | 0 <= i < |a| - 1 :: a[i].Some?)
    && (forall i | 0 <= i < |a| && a[i].Some? :: a[i].value in depths && depths[a[i].value] == i)
    && (forall x | x in depths :: 0 <= depths[x] < |a| && a[depths[x]] == Some(x))
  }

  /** What shows the same is the same. */
  lemma ShownIsSame(a: M.Way, b: M.Way, depths: map<Name, int>, halted: Option<Name>)
    requires Shows(a, depths, halted) && Shows(b, depths, halted)
    ensures a == b
  {
    ShownNotLonger(a, b, depths, halted);
    ShownNotLonger(b, a, depths, halted);
    forall i | 0 <= i < |a| ensures a[i] == b[i] {
      if a[i].Some? { assert b[depths[a[i].value]] == a[i]; }
    }
  }

  lemma ShownNotLonger(a: M.Way, b: M.Way, depths: map<Name, int>, halted: Option<Name>)
    requires Shows(a, depths, halted) && Shows(b, depths, halted)
    ensures |b| <= |a|
  {
    if halted.Some? {
      assert depths[halted.value] == |a| - 1 && depths[halted.value] == |b| - 1;
    } else {
      if |b| > 1 { assert b[|b| - 2].Some? && a[depths[b[|b| - 2].value]] == b[|b| - 2]; }
    }
  }

  /** What labels that are up to date show. */
  lemma LabelledShows(s: State, n: Name)
    requires S.Sound(s) && Labelled(s, n) && NoneExternal(s, n)
    ensures Shows(M.WayUp(LinksOf(s), Crits(s), n), s[n].info.labels.depths, S.CritAncestor(s, n))
  {
    StopsAreCrits(s, n);
    OnlyDepths(s, n);
    EndsAtStop(s, n);
    DepthsShow(LinksOf(s), S.Stops(s), n);
    SameLengthSameWay(LinksOf(s), S.Stops(s), Crits(s), n);
    M.WayAt(LinksOf(s), Crits(s), n);
  }

  /** If neither the labels nor the halting ancestor of a namespace have to be written, its way up is what it was. */
  lemma SameLabelsSameWay(s: State, t: State, n: Name)
    requires S.Sound(s) && S.Sound(t)
    requires Labelled(s, n) && NoneExternal(s, n) && Labelled(t, n) && NoneExternal(t, n)
    requires s[n].info.labels.depths == t[n].info.labels.depths && S.CritAncestor(s, n) == S.CritAncestor(t, n)
    ensures M.WayUp(LinksOf(s), Crits(s), n) == M.WayUp(LinksOf(t), Crits(t), n)
  {
    LabelledShows(s, n);
    LabelledShows(t, n);
    ShownIsSame(M.WayUp(LinksOf(s), Crits(s), n), M.WayUp(LinksOf(t), Crits(t), n), s[n].info.labels.depths,
      S.CritAncestor(s, n));
  }

  lemma SameLengthSameWay(l: Links, stop: set<Name>, crit: set<Name>, n: Name)
    requires WalkEnds(l, stop, n) && WalkEnds(l, crit, n) && WalkLength(l, stop, n) == WalkLength(l, crit, n)
    ensures M.WayUp(l, stop, n) == M.WayUp(l, crit, n)
  {
  }

  lemma DepthsShow(l: Links, stop: set<Name>, n: Name)
    requires WalkEnds(l, stop, n)
    ensures Shows(M.WayUp(l, stop, n), S.Depths(l, stop, n, 0), Up(l, n, WalkLength(l, stop, n)))
  {
    var a, depths := M.WayUp(l, stop, n), S.Depths(l, stop, n, 0);
    M.WayAt(l, stop, n);
    forall i | 0 <= i < |a| - 1 ensures a[i].Some? { assert !WalkOver(l, stop, n, i); }
    forall i | 0 <= i < |a| && a[i].Some? ensures a[i].value in depths && depths[a[i].value] == i {
      DepthAt(l, stop, n, i);
    }
    forall x | x in depths ensures 0 <= depths[x] < |a| && a[depths[x]] == Some(x) {
      S.DepthsExact(l, stop, n, 0, x);
      var k: nat :| S.MetAt(l, stop, n, x, k);
    }
  }

  lemma DepthAt(l: Links, stop: set<Name>, n: Name, i: nat)
    requires WalkEnds(l, stop, n) && i <= WalkLength(l, stop, n) && Up(l, n, i).Some?
    ensures var x := Up(l, n, i).value; x in S.Depths(l, stop, n, 0) && S.Depths(l, stop, n, 0)[x] == i
  {
    var x := Up(l, n, i).value;
    S.DepthsExact(l, stop, n, 0, x);
    assert S.MetAt(l, stop, n, x, i);
  }

  /** The way up goes to where the labels stop, and one step further if nobody is halted. */
  lemma EndsAtStop(s: State, n: Name)
    requires S.Sound(s) && Labelled(s, n) && NoneExternal(s, n) && WalkEnds(LinksOf(s), S.Stops(s), n)
    ensures WalkEnds(LinksOf(s), Crits(s), n)
    ensures WalkLength(LinksOf(s), Crits(s), n) ==
      S.StopAt(LinksOf(s), S.Stops(s), n) + if S.CritAncestor(s, n).Some? then 0 else 1
    ensures S.CritAncestor(s, n) == Up(LinksOf(s), n, WalkLength(LinksOf(s), Crits(s), n))
  {
    StopsAreCrits(s, n);
  }

  /** So in every run without removals each reconcile is a move. */
  lemma {:induction false} OrphansHaltedWithoutRemovals(steps: seq<S.Step>, excluded: set<Name>)
    requires forall i | 0 <= i < |steps| :: !steps[i].Disappear?
    ensures OrphansHalted(S.Run(steps, excluded))
  {
    if steps != [] {
      var init, last := steps[..|steps| - 1], steps[|steps| - 1];
      OrphansHaltedWithoutRemovals(init, excluded);
      var s := S.Run(init, excluded);
      if last.n != NO_NAME && last.Reconcile? && last.n !in excluded {
        SyncHaltsOrphans(s, last.n, last.cfg, excluded);
      }
      if last.n != NO_NAME && !last.Reconcile? { OthersHaltOrphans(s, last, excluded); }
    }
  }

  /** A removal keeps it so exactly if every child of the removed namespace is halted itself. */
  lemma RemovalHaltsOrphansIff(s: State, n: Name)
    requires S.Sound(s) && n != NO_NAME && S.Known(s, n) && OrphansHalted(s)
    ensures OrphansHalted(S.Remove(s, n)) <==> ChildrenOf(s, n) - {n} <= Crits(s)
  {
    var t := S.Remove(s, n);
    RemovedState(s, n);
    forall y | y in ChildrenOf(s, n) && y != n && y !in Crits(s) ensures !OrphansHalted(t) {
      assert S.Known(s, y);
      assert t[y] == s[y] && y !in Crits(t);
    }
    forall y | y in t && t[y].parent.Some? && !S.Known(t, t[y].parent.value) && ChildrenOf(s, n) - {n} <= Crits(s)
      ensures y in Crits(t)
    {
      assert y != n && t[y] == s[y];
      assert y in Crits(s);
    }
  }

  lemma OthersHaltOrphans(s: State, step: S.Step, excluded: set<Name>)
    requires S.Sound(s) && OrphansHalted(s) && step.n != NO_NAME && !step.Reconcile? && !step.Disappear?
    ensures OrphansHalted(S.Next(s, step, excluded))
  {
    var t := S.Next(s, step, excluded);
    forall y | y in t && t[y].parent.Some? && !S.Known(t, t[y].parent.value) ensures y in Crits(t) {
      assert y in s && t[y].parent == s[y].parent && y in Crits(s);
    }
  }
}
