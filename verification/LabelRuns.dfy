/** Labels while namespaces come, move and go: when a quiet queue of the hierarchy reconciler means that the
    labels of all known namespaces are up to date. */
module LabelRuns {
  import opened Names
  import opened ParentLinks
  import opened Cycles
  import opened Objects
  import opened ForestState
  import H = HierarchySteps
  import M = PropagationMoves
  import B = PropagationBridge
  import opened LabelSync

  /** The forest, and the namespaces in the queue of the hierarchy reconciler. */
  datatype Hierarchy = Hierarchy(state: State, waiting: set<Name>)

  /** A step on the forest that enqueues the namespaces in `told`. */
  datatype Happening = Happening(step: H.Step, told: set<Name>)

  const NOTHING: Hierarchy := Hierarchy(map[], {})

  /** A reconcile of a namespace, whether it exists or not, takes it out of the queue. */
  function Done(step: H.Step): set<Name> {
    if step.Reconcile? || step.Disappear? then {step.n} else {}
  }

  ghost function Next(s: Hierarchy, h: Happening, excluded: set<Name>): Hierarchy
    requires H.Sound(s.state)
  {
    Hierarchy(H.Next(s.state, h.step, excluded), s.waiting - Done(h.step) + h.told)
  }

  /** What `x` finds on the way up, to the first halted namespace or past the root. */
  ghost function Way(s: State, x: Name): M.Way {
    M.WayUp(LinksOf(s), Crits(s), x)
  }

  ghost predicate Disturbed(s: State, t: State, x: Name)
    requires H.Sound(s) && H.Sound(t)
  {
    Ancestry(LinksOf(s), x) != Ancestry(LinksOf(t), x) || H.CritAncestor(s, x) != H.CritAncestor(t, x)
  }

  /** The steps considered. HNC manages every namespace; a reconcile tells everyone disturbed, and a removal the
      children, which is what the reconciler does. */
  ghost predicate Legal(s: State, h: Happening, excluded: set<Name>)
    requires H.Sound(s)
  {
    h.step.n != NO_NAME &&
    match h.step
    case Reconcile(n, cfg) =>
      && n !in excluded && H.ManagedByHnc(cfg) && Separate(cfg.labels)
      && H.Sound(H.Sync(s, n, cfg, excluded))
      && forall x | x != n && x in H.Sync(s, n, cfg, excluded) && Disturbed(s, H.Sync(s, n, cfg, excluded), x) ::
        x in h.told
    case Disappear(n) => H.Known(s, n) ==> ChildrenOf(s, n) <= h.told
    case Lookup(n) => true
    case PutSources(n, sources) => true
  }

  // ----- What is right about the labels -----

  /** On the way up from `x`, step `i` leads to a parent that is not known. */
  ghost predicate CutAt(s: State, x: Name, i: nat) {
    var w := Way(s, x);
    i + 1 < |w| && w[i].Some? && w[i + 1].Some? && !H.Known(s, w[i + 1].value)
  }

  /** The labels of `x` will be looked at: a namespace on the way up waits, and its parent is not known. */
  ghost predicate Pending(s: State, waiting: set<Name>, x: Name) {
    exists i: nat :: CutAt(s, x, i) && Way(s, x)[i].value in waiting
  }

  /** The labels show a namespace that is not on the way up. */
  ghost predicate Wrong(s: State, x: Name) {
    x in s && exists p :: p in s[x].info.labels.depths && Some(p) !in Way(s, x)
  }

  ghost predicate InvFor(s: State, waiting: set<Name>, lost: set<Name>, x: Name) {
    && (Labelled(s, x) || Wrong(s, x))
    && (if x in lost then Wrong(s, x) else Labelled(s, x) || Pending(s, waiting, x))
  }

  /** The labels of those who do not wait are right or show too much; and those that show too much will be looked
      at, unless they are lost. */
  ghost predicate Inv(s: Hierarchy, lost: set<Name>) {
    && H.Sound(s.state) && H.Externals(s.state) == {}
    && forall x | H.Known(s.state, x) && x !in s.waiting :: InvFor(s.state, s.waiting, lost, x)
  }

  // ----- The way up decides whether labels are right -----

  lemma WayTail(l: Links, stop: set<Name>, x: Name)
    requires WalkEnds(l, stop, x) && x !in stop && x in l
    ensures WalkEnds(l, stop, l[x]) && M.WayUp(l, stop, l[x]) == M.WayUp(l, stop, x)[1..]
  {
    WalkStep(l, stop, x);
    M.WayAt(l, stop, x);
    M.WayAt(l, stop, l[x]);
    forall i | 0 <= i < |M.WayUp(l, stop, l[x])| ensures M.WayUp(l, stop, l[x])[i] == M.WayUp(l, stop, x)[i + 1] {
      UpFirst(l, x, i);
    }
  }

  lemma WayKind(l: Links, stop: set<Name>, x: Name)
    requires WalkEnds(l, stop, x)
    ensures var w := M.WayUp(l, stop, x);
      && |w| >= 1 && w[0] == Some(x) && (|w| == 1 <==> x in stop)
      && (x !in stop ==> w[1] == if x in l then Some(l[x]) else None)
  {
    M.WayAt(l, stop, x);
    assert Up(l, x, 0) == Some(x);
    UpFirst(l, x, 0);
    assert WalkOver(l, stop, x, 0) <==> x in stop;
  }

  lemma {:induction false} DepthsByWay(l: Links, stop: set<Name>, m: Links, stop': set<Name>, x: Name, d: nat)
    requires WalkEnds(l, stop, x) && WalkEnds(m, stop', x) && M.WayUp(l, stop, x) == M.WayUp(m, stop', x)
    ensures H.Depths(l, stop, x, d) == H.Depths(m, stop', x, d)
    decreases WalkLength(l, stop, x)
  {
    WayKind(l, stop, x);
    WayKind(m, stop', x);
    if x !in stop && x in l {
      WayTail(l, stop, x);
      WayTail(m, stop', x);
      WalkStep(l, stop, x);
      DepthsByWay(l, stop, m, stop', l[x], d + 1);
    }
  }

  /** Whoever finds the same way up has right labels in both forests or in none. */
  lemma SameWayLabelled(s: State, t: State, x: Name)
    requires H.Sound(s) && H.Sound(t) && H.Externals(s) == {} && H.Externals(t) == {}
    requires x in s && x in t && t[x].info.labels == s[x].info.labels && Way(s, x) == Way(t, x)
    ensures Labelled(s, x) <==> Labelled(t, x)
  {
    WalkFromHit(LinksOf(s), Crits(s), x);
    WalkFromHit(LinksOf(t), Crits(t), x);
    assert H.Stops(s) == Crits(s) && H.Stops(t) == Crits(t);
    LabelsAreDepths(s, x);
    LabelsAreDepths(t, x);
    DepthsByWay(LinksOf(s), Crits(s), LinksOf(t), Crits(t), x, 0);
  }

  lemma SameWayWrong(s: State, t: State, x: Name)
    requires x in s && x in t && t[x].info.labels == s[x].info.labels && Way(s, x) == Way(t, x)
    ensures Wrong(s, x) <==> Wrong(t, x)
  {
  }

  lemma DepthsOfWay(s: State, x: Name)
    requires H.Sound(s) && H.Externals(s) == {} && Labelled(s, x)
    ensures WalkEnds(LinksOf(s), Crits(s), x)
    ensures s[x].info.labels.depths == H.Depths(LinksOf(s), Crits(s), x, 0)
  {
    assert H.Stops(s) == Crits(s);
    LabelsAreDepths(s, x);
  }

  lemma LabelledIsNotWrong(s: State, x: Name)
    requires H.Sound(s) && H.Externals(s) == {} && Labelled(s, x)
    ensures !Wrong(s, x)
  {
    DepthsOfWay(s, x);
    M.WayAt(LinksOf(s), Crits(s), x);
    forall p | p in s[x].info.labels.depths ensures Some(p) in Way(s, x) {
      H.DepthsExact(LinksOf(s), Crits(s), x, 0, p);
      var k: nat :| H.MetAt(LinksOf(s), Crits(s), x, p, k);
      assert Way(s, x)[k] == Some(p);
    }
  }

  // ----- A reconcile -----

  /** `n`, which was not known, appears while `x` has wrong labels and the child of `n` that `x` has been cut off
      at has not been halted; nobody who waits will tell `x` then. */
  ghost predicate Behind(s: State, waiting: set<Name>, n: Name, x: Name) {
    && !H.Known(s, n) && H.Known(s, x) && x != n && x !in waiting && !Labelled(s, x)
    && forall i: nat | CutAt(s, x, i) && Way(s, x)[i].value in waiting :: Way(s, x)[i + 1] == Some(n)
  }

  /** The lost namespaces: left behind, and not reconciled since. */
  ghost function LostAfter(s: Hierarchy, h: Happening, excluded: set<Name>, lost: set<Name>): set<Name>
    requires H.Sound(s.state)
  {
    if h.step.Reconcile? then
      lost - {h.step.n} + set x | x in s.state && Behind(s.state, Next(s, h, excluded).waiting, h.step.n, x)
    else lost
  }

  lemma SyncedState(s: State, n: Name, cfg: H.Config, excluded: set<Name>)
    requires n != NO_NAME && H.Sound(s) && H.ManagedByHnc(cfg) && H.Externals(s) == {}
    ensures var t := H.Sync(s, n, cfg, excluded);
      H.Sound(t) && H.Known(t, n) && H.Externals(t) == {} && B.SameWhenKnown(s, t, n)
  {
    H.SyncTouchesOnly(s, n, cfg, excluded);
    B.SyncKeepsKnown(s, n, cfg, excluded);
    var t := H.Sync(s, n, cfg, excluded);
    forall x | x in t ensures t[x].info.external.Keys == {} {
      assert x in s ==> x !in H.Externals(s);
    }
  }

  /** Those who are not told find what they found before, and are cut off where they were, except at `n`. */
  lemma Undisturbed(s: State, t: State, n: Name, x: Name)
    requires H.Sound(s) && H.Sound(t) && !Disturbed(s, t, x) && H.Known(t, n) && B.SameWhenKnown(s, t, n)
    ensures Way(s, x) == Way(t, x)
    ensures forall i: nat :: CutAt(t, x, i) <==> CutAt(s, x, i) && Way(s, x)[i + 1] != Some(n)
  {
    B.SameWay(LinksOf(s), Crits(s), LinksOf(t), Crits(t), x);
    forall i: nat ensures CutAt(t, x, i) <==> CutAt(s, x, i) && Way(s, x)[i + 1] != Some(n) {
      var w := Way(s, x);
      if i + 1 < |w| && w[i + 1].Some? && w[i + 1].value != n {
        assert H.Known(s, w[i + 1].value) <==> H.Known(t, w[i + 1].value);
      }
    }
  }

  /** Whoever passes `n` on the way up does not pass a parent of `n` that is not known. */
  lemma ReconciledIsNotCut(s: State, n: Name, cfg: H.Config, excluded: set<Name>, x: Name, i: nat)
    requires n != NO_NAME && H.Sound(s) && H.Known(s, n) && H.Sound(H.Sync(s, n, cfg, excluded))
    requires Way(s, x) == Way(H.Sync(s, n, cfg, excluded), x) && CutAt(s, x, i)
    ensures Way(s, x)[i] != Some(n)
  {
    var t := H.Sync(s, n, cfg, excluded);
    H.SyncOrphans(s, n, cfg, excluded);
    WalkFromHit(LinksOf(t), Crits(t), x);
    M.WayAt(LinksOf(t), Crits(t), x);
    assert !WalkOver(LinksOf(t), Crits(t), x, i);
  }

  /** What a reconcile of `n` leaves of `x`, which is not told. */
  ghost predicate Unmoved(s: State, t: State, n: Name, x: Name) {
    && H.Sound(s) && H.Sound(t) && H.Known(s, x) && H.Known(t, x) && Way(s, x) == Way(t, x)
    && (Labelled(s, x) <==> Labelled(t, x)) && (Wrong(s, x) <==> Wrong(t, x))
    && forall i: nat :: CutAt(t, x, i) <==> CutAt(s, x, i) && Way(s, x)[i + 1] != Some(n)
  }

  lemma UntoldIsUnmoved(s: State, h: Happening, excluded: set<Name>, x: Name)
    requires H.Sound(s) && H.Externals(s) == {} && h.step.Reconcile? && Legal(s, h, excluded)
    requires H.Known(H.Sync(s, h.step.n, h.step.cfg, excluded), x) && x !in h.told && x != h.step.n
    ensures Unmoved(s, H.Sync(s, h.step.n, h.step.cfg, excluded), h.step.n, x)
  {
    var n, t := h.step.n, H.Sync(s, h.step.n, h.step.cfg, excluded);
    SyncedState(s, n, h.step.cfg, excluded);
    Undisturbed(s, t, n, x);
    SameWayLabelled(s, t, x);
    SameWayWrong(s, t, x);
  }

  /** If `n` was known, whoever waited to look at the labels of `x` still does. */
  lemma KnownLeavesNobody(s: State, h: Happening, excluded: set<Name>, waiting: set<Name>, x: Name)
    requires H.Sound(s) && H.Externals(s) == {} && h.step.Reconcile? && Legal(s, h, excluded)
    requires H.Known(s, h.step.n) && Pending(s, waiting, x)
    requires Unmoved(s, H.Sync(s, h.step.n, h.step.cfg, excluded), h.step.n, x)
    ensures Pending(H.Sync(s, h.step.n, h.step.cfg, excluded), waiting - {h.step.n} + h.told, x)
  {
    var n, t := h.step.n, H.Sync(s, h.step.n, h.step.cfg, excluded);
    var i: nat :| CutAt(s, x, i) && Way(s, x)[i].value in waiting;
    ReconciledIsNotCut(s, n, h.step.cfg, excluded, x, i);
    assert Way(s, x)[i + 1] != Some(n);
    assert CutAt(t, x, i);
  }

  /** After a reconcile the labels of `x` are right or will be looked at, exactly if it is not left behind. */
  lemma ReconcileLeavesIff(s: Hierarchy, h: Happening, excluded: set<Name>, lost: set<Name>, x: Name)
    requires Inv(s, lost) && h.step.Reconcile? && Legal(s.state, h, excluded)
    requires var u := Next(s, h, excluded); H.Known(u.state, x) && x !in u.waiting && x != h.step.n && x !in lost
    ensures var u := Next(s, h, excluded);
      Labelled(u.state, x) || Pending(u.state, u.waiting, x) <==> !Behind(s.state, u.waiting, h.step.n, x)
  {
    var u := Next(s, h, excluded);
    UntoldIsUnmoved(s.state, h, excluded, x);
    if H.Known(s.state, h.step.n) && !Labelled(s.state, x) {
      KnownLeavesNobody(s.state, h, excluded, s.waiting, x);
    }
  }

  lemma ReconcileKeepsInv(s: Hierarchy, h: Happening, excluded: set<Name>, lost: set<Name>)
    requires Inv(s, lost) && h.step.Reconcile? && Legal(s.state, h, excluded)
    ensures Inv(Next(s, h, excluded), LostAfter(s, h, excluded, lost))
  {
    var n, u := h.step.n, Next(s, h, excluded);
    SyncedState(s.state, n, h.step.cfg, excluded);
    SyncedIsLabelled(s.state, n, h.step.cfg, excluded);
    forall x | H.Known(u.state, x) && x !in u.waiting && x != n
      ensures InvFor(u.state, u.waiting, LostAfter(s, h, excluded, lost), x)
    {
      ReconcileKeepsFor(s, h, excluded, lost, x);
    }
  }

  lemma ReconcileKeepsFor(s: Hierarchy, h: Happening, excluded: set<Name>, lost: set<Name>, x: Name)
    requires Inv(s, lost) && h.step.Reconcile? && Legal(s.state, h, excluded)
    requires var u := Next(s, h, excluded); H.Known(u.state, x) && x !in u.waiting && x != h.step.n
    ensures var u := Next(s, h, excluded); InvFor(u.state, u.waiting, LostAfter(s, h, excluded, lost), x)
  {
    UntoldIsUnmoved(s.state, h, excluded, x);
    if x !in lost { ReconcileLeavesIff(s, h, excluded, lost, x); }
  }

  // ----- A removal -----

  lemma WaysSame(l: Links, crit: set<Name>, m: Links, crit': set<Name>, x: Name)
    requires WalkEnds(l, crit, x) && WalkEnds(m, crit', x)
    requires forall i: nat | i <= WalkLength(l, crit, x) ::
      Up(m, x, i) == Up(l, x, i) && (Up(l, x, i).Some? ==> (Up(l, x, i).value in crit <==> Up(l, x, i).value in crit'))
    ensures M.WayUp(l, crit, x) == M.WayUp(m, crit', x)
  {
    var k := WalkLength(l, crit, x);
    forall i: nat | i <= k ensures WalkOver(m, crit', x, i) <==> WalkOver(l, crit, x, i) {
      assert Up(m, x, i) == Up(l, x, i);
    }
    assert WalkLength(m, crit', x) == k;
    M.WayAt(l, crit, x);
    M.WayAt(m, crit', x);
  }

  /** On the way up from `x`, `n` is passed at step `i`. */
  ghost predicate PassesAt(s: State, x: Name, n: Name, i: nat) {
    var w := Way(s, x);
    i + 1 < |w| && w[i] == Some(n) && w[i + 1].Some?
  }

  ghost predicate Passes(s: State, x: Name, n: Name) {
    exists i: nat :: PassesAt(s, x, n, i)
  }

  /** Whoever did not pass `n` finds what it found before. */
  lemma RemovalSparesOthers(s: State, n: Name, x: Name)
    requires n != NO_NAME && H.Sound(s) && H.Known(s, n) && H.Known(s, x) && x != n && !Passes(s, x, n)
    ensures Way(s, x) == Way(H.Remove(s, n), x)
  {
    B.RemovedState(s, n);
    var t := H.Remove(s, n);
    var l, m := LinksOf(s), LinksOf(t);
    WalkFromHit(l, Crits(s), x);
    WalkFromHit(m, Crits(t), x);
    M.WayAt(l, Crits(s), x);
    var k := WalkLength(l, Crits(s), x);
    forall i: nat | i <= k ensures Up(m, x, i) == Up(l, x, i) { UpBefore(s, n, x, i); }
    forall i: nat | i <= k && Up(l, x, i).Some?
      ensures Up(l, x, i).value in Crits(s) <==> Up(l, x, i).value in Crits(t)
    {
      WalkStaysIn(t, x, i);
    }
    WaysSame(l, Crits(s), m, Crits(t), x);
  }

  lemma UpBefore(s: State, n: Name, x: Name, i: nat)
    requires n != NO_NAME && H.Sound(s) && H.Known(s, n) && WalkEnds(LinksOf(s), Crits(s), x)
    requires i <= WalkLength(LinksOf(s), Crits(s), x) && forall j: nat | j < i :: !PassesAt(s, x, n, j)
    ensures Up(LinksOf(H.Remove(s, n)), x, i) == Up(LinksOf(s), x, i)
  {
    var l, m := LinksOf(s), LinksOf(H.Remove(s, n));
    RemovedLinks(s, n);
    if n in l {
      forall j: nat | j < i ensures Up(l, x, j) != Some(n) { NotPassed(s, n, x, j); }
      UpAvoiding(l, m, n, x, i);
    } else {
      assert l == m;
    }
  }

  lemma NotPassed(s: State, n: Name, x: Name, j: nat)
    requires WalkEnds(LinksOf(s), Crits(s), x) && j < WalkLength(LinksOf(s), Crits(s), x) && !PassesAt(s, x, n, j)
    requires n in LinksOf(s)
    ensures Up(LinksOf(s), x, j) != Some(n)
  {
    M.WayAt(LinksOf(s), Crits(s), x);
  }

  lemma RemovedLinks(s: State, n: Name)
    requires n != NO_NAME && H.Sound(s) && H.Known(s, n)
    ensures SameOff(LinksOf(s), LinksOf(H.Remove(s, n)), n) && n !in LinksOf(H.Remove(s, n))
  {
    B.RemovedState(s, n);
  }

  lemma {:induction false} FirstPass(s: State, x: Name, n: Name, i: nat) returns (j: nat)
    requires PassesAt(s, x, n, i)
    ensures FirstPassAt(s, x, n, j)
  {
    if k: nat :| k < i && PassesAt(s, x, n, k) { j := FirstPass(s, x, n, k); } else { j := i; }
  }

  /** `i` is where `x` passes `n` for the first time. */
  ghost predicate FirstPassAt(s: State, x: Name, n: Name, i: nat) {
    PassesAt(s, x, n, i) && forall j: nat | j < i :: !PassesAt(s, x, n, j)
  }

  lemma NotOverYet(s: State, n: Name, x: Name, i: nat, j: nat)
    requires n != NO_NAME && H.Sound(s) && H.Known(s, n) && H.Known(s, x) && x != n && FirstPassAt(s, x, n, i) && j <= i
    ensures var t := H.Remove(s, n);
      Up(LinksOf(t), x, j) == Up(LinksOf(s), x, j) && !WalkOver(LinksOf(t), Crits(t), x, j)
  {
    B.RemovedState(s, n);
    var t := H.Remove(s, n);
    WalkFromHit(LinksOf(s), Crits(s), x);
    M.WayAt(LinksOf(s), Crits(s), x);
    UpBefore(s, n, x, j);
    assert !WalkOver(LinksOf(s), Crits(s), x, j);
    WalkStaysIn(t, x, j);
  }

  lemma CutWalk(s: State, n: Name, x: Name, i: nat)
    requires n != NO_NAME && H.Sound(s) && H.Known(s, n) && H.Known(s, x) && x != n && FirstPassAt(s, x, n, i)
    ensures var t := H.Remove(s, n);
      && WalkEnds(LinksOf(t), Crits(t), x) && WalkLength(LinksOf(t), Crits(t), x) == i + 1
      && Up(LinksOf(t), x, i + 1) == None && forall j: nat | j <= i :: Up(LinksOf(t), x, j) == Up(LinksOf(s), x, j)
  {
    var t := H.Remove(s, n);
    RemovedLink(s, n);
    forall j: nat | j <= i
      ensures Up(LinksOf(t), x, j) == Up(LinksOf(s), x, j) && !WalkOver(LinksOf(t), Crits(t), x, j)
    {
      NotOverYet(s, n, x, i, j);
    }
    PassedOver(s, x, n, i);
    assert Up(LinksOf(t), x, i) == Some(n);
    assert WalkOver(LinksOf(t), Crits(t), x, i + 1);
  }

  /** Whoever passed `n` now finds nothing behind it. */
  lemma CutWay(s: State, n: Name, x: Name, i: nat)
    requires n != NO_NAME && H.Sound(s) && H.Known(s, n) && H.Known(s, x) && x != n && FirstPassAt(s, x, n, i)
    ensures var t := H.Remove(s, n); Way(t, x) == Way(s, x)[..i + 1] + [None] && Up(LinksOf(t), x, i + 1) == None
  {
    var t := H.Remove(s, n);
    CutWalk(s, n, x, i);
    WalkFromHit(LinksOf(s), Crits(s), x);
    M.WayAt(LinksOf(s), Crits(s), x);
    M.WayAt(LinksOf(t), Crits(t), x);
  }

  lemma RemovedLink(s: State, n: Name)
    requires n != NO_NAME && H.Sound(s) && H.Known(s, n)
    ensures H.Sound(H.Remove(s, n)) && n !in LinksOf(H.Remove(s, n)) && !H.Known(H.Remove(s, n), n)
  {
    B.RemovedState(s, n);
  }

  /** It is cut off at a child of `n`, which is told, ... */
  lemma CutIsPending(s: State, n: Name, x: Name, i: nat, waiting: set<Name>)
    requires n != NO_NAME && H.Sound(s) && H.Known(s, n) && H.Known(s, x) && x != n && ChildrenOf(s, n) <= waiting
    requires FirstPassAt(s, x, n, i)
    ensures Pending(H.Remove(s, n), waiting, x)
  {
    RemovedLink(s, n);
    CutWay(s, n, x, i);
    WalkFromHit(LinksOf(s), Crits(s), x);
    M.WayAt(LinksOf(s), Crits(s), x);
    assert Up(LinksOf(s), x, 0) == Some(x);
    var c := Up(LinksOf(s), x, i - 1).value;
    assert c in ChildrenOf(s, n);
    assert CutAt(H.Remove(s, n), x, i - 1);
  }

  /** ... and its labels still show the parent of `n`, which it does not find any more. */
  lemma CutIsWrong(s: State, n: Name, x: Name, i: nat)
    requires n != NO_NAME && H.Sound(s) && H.Externals(s) == {} && H.Known(s, n) && H.Known(s, x) && x != n
    requires FirstPassAt(s, x, n, i) && Labelled(s, x)
    ensures Wrong(H.Remove(s, n), x)
  {
    B.RemovedState(s, n);
    CutWay(s, n, x, i);
    var p := NotMetBefore(s, x, n, i);
    assert Some(p) !in Way(H.Remove(s, n), x);
  }

  lemma NotMetBefore(s: State, x: Name, n: Name, i: nat) returns (p: Name)
    requires H.Sound(s) && H.Externals(s) == {} && PassesAt(s, x, n, i) && Labelled(s, x)
    ensures p in s[x].info.labels.depths && Some(p) !in Way(s, x)[..i + 1]
  {
    DepthsOfWay(s, x);
    PassedOver(s, x, n, i);
    p := Up(LinksOf(s), x, i + 1).value;
    MetOnce(LinksOf(s), Crits(s), x, p, i + 1);
    M.WayAt(LinksOf(s), Crits(s), x);
  }

  lemma PassedOver(s: State, x: Name, n: Name, i: nat)
    requires H.Sound(s) && PassesAt(s, x, n, i)
    ensures WalkEnds(LinksOf(s), Crits(s), x) && i + 1 <= WalkLength(LinksOf(s), Crits(s), x)
    ensures Up(LinksOf(s), x, i) == Some(n) && Up(LinksOf(s), x, i + 1).Some?
  {
    WalkFromHit(LinksOf(s), Crits(s), x);
    M.WayAt(LinksOf(s), Crits(s), x);
  }

  /** Whoever is met on the way up is met once, and the depths show it. */
  lemma MetOnce(l: Links, stop: set<Name>, x: Name, p: Name, k: nat)
    requires WalkEnds(l, stop, x) && k <= WalkLength(l, stop, x) && Up(l, x, k) == Some(p)
    ensures p in H.Depths(l, stop, x, 0) && forall j: nat | j < k :: Up(l, x, j) != Some(p)
  {
    H.DepthsExact(l, stop, x, 0, p);
    assert H.MetAt(l, stop, x, p, k);
    forall j: nat | j < k ensures Up(l, x, j) != Some(p) {
      if Up(l, x, j) == Some(p) { assert H.MetAt(l, stop, x, p, j); }
    }
  }

  /** A removal leaves the labels of a namespace right exactly if it did not pass the removed one on the way up. */
  lemma RemovalKeepsLabelsIff(s: State, n: Name, x: Name)
    requires n != NO_NAME && H.Sound(s) && H.Externals(s) == {} && H.Known(s, n) && H.Known(s, x) && x != n
    requires Labelled(s, x)
    ensures Labelled(H.Remove(s, n), x) <==> !Passes(s, x, n)
  {
    B.RemovedState(s, n);
    if i: nat :| PassesAt(s, x, n, i) {
      var j := FirstPass(s, x, n, i);
      CutIsWrong(s, n, x, j);
      if Labelled(H.Remove(s, n), x) { LabelledIsNotWrong(H.Remove(s, n), x); }
    } else {
      RemovalSparesOthers(s, n, x);
      SameWayLabelled(s, H.Remove(s, n), x);
    }
  }

  lemma RemovalKeepsFor(s: State, n: Name, waiting: set<Name>, waiting': set<Name>, lost: set<Name>, x: Name)
    requires n != NO_NAME && H.Sound(s) && H.Externals(s) == {} && H.Known(s, n) && H.Known(s, x) && x != n
    requires InvFor(s, waiting, lost, x) && waiting - {n} <= waiting' && ChildrenOf(s, n) <= waiting'
    ensures InvFor(H.Remove(s, n), waiting', lost, x)
  {
    if i: nat :| PassesAt(s, x, n, i) {
      var j := FirstPass(s, x, n, i);
      CutKeepsFor(s, n, waiting', lost, x, j);
    } else {
      var t := H.Remove(s, n);
      B.RemovedState(s, n);
      RemovalSparesOthers(s, n, x);
      SameWayLabelled(s, t, x);
      SameWayWrong(s, t, x);
      if Pending(s, waiting, x) { StaysPending(s, n, waiting, waiting', x); }
    }
  }

  lemma CutKeepsFor(s: State, n: Name, waiting: set<Name>, lost: set<Name>, x: Name, i: nat)
    requires n != NO_NAME && H.Sound(s) && H.Externals(s) == {} && H.Known(s, n) && H.Known(s, x) && x != n
    requires FirstPassAt(s, x, n, i) && ChildrenOf(s, n) <= waiting && (Labelled(s, x) || Wrong(s, x))
    ensures InvFor(H.Remove(s, n), waiting, lost, x)
  {
    CutIsPending(s, n, x, i, waiting);
    if Labelled(s, x) { CutIsWrong(s, n, x, i); } else { CutStaysWrong(s, n, x, i); }
  }

  lemma CutStaysWrong(s: State, n: Name, x: Name, i: nat)
    requires n != NO_NAME && H.Sound(s) && H.Known(s, n) && H.Known(s, x) && x != n
    requires FirstPassAt(s, x, n, i) && Wrong(s, x)
    ensures Wrong(H.Remove(s, n), x)
  {
    B.RemovedState(s, n);
    CutWay(s, n, x, i);
    var p :| p in s[x].info.labels.depths && Some(p) !in Way(s, x);
    assert Some(p) !in Way(H.Remove(s, n), x);
  }

  /** A removal keeps the invariant: who passed `n` is cut off at a child of `n`, and this child is told. */
  lemma RemovalKeepsInv(s: Hierarchy, h: Happening, excluded: set<Name>, lost: set<Name>)
    requires Inv(s, lost) && h.step.Disappear? && Legal(s.state, h, excluded) && H.Known(s.state, h.step.n)
    ensures Inv(Next(s, h, excluded), lost)
  {
    var n, u := h.step.n, Next(s, h, excluded);
    B.RemovedState(s.state, n);
    forall x | H.Known(u.state, x) && x !in u.waiting ensures InvFor(u.state, u.waiting, lost, x) {
      RemovalKeepsFor(s.state, n, s.waiting, u.waiting, lost, x);
    }
  }

  lemma StaysPending(s: State, n: Name, waiting: set<Name>, waiting': set<Name>, x: Name)
    requires n != NO_NAME && H.Sound(s) && H.Known(s, n) && waiting - {n} <= waiting'
    requires !Passes(s, x, n) && Pending(s, waiting, x) && Way(s, x) == Way(H.Remove(s, n), x)
    ensures Pending(H.Remove(s, n), waiting', x)
  {
    RemovedKnown(s, n);
    var i: nat :| CutAt(s, x, i) && Way(s, x)[i].value in waiting;
    assert !PassesAt(s, x, n, i);
    assert CutAt(H.Remove(s, n), x, i);
  }

  lemma RemovedKnown(s: State, n: Name)
    requires n != NO_NAME && H.Sound(s) && H.Known(s, n)
    ensures H.Sound(H.Remove(s, n)) && forall x | H.Known(H.Remove(s, n), x) :: H.Known(s, x)
    ensures H.Externals(H.Remove(s, n)) <= H.Externals(s)
  {
    B.RemovedState(s, n);
  }

  // ----- Runs -----

  /** Steps that change neither links nor conditions nor labels change nothing here. */
  lemma SameForestKeepsInv(s: Hierarchy, t: Hierarchy, lost: set<Name>)
    requires Inv(s, lost) && H.Sound(t.state) && H.Externals(t.state) == {}
    requires LinksOf(t.state) == LinksOf(s.state) && Crits(t.state) == Crits(s.state)
    requires forall x :: H.Known(t.state, x) <==> H.Known(s.state, x)
    requires forall x | H.Known(t.state, x) :: t.state[x].info.labels == s.state[x].info.labels
    requires forall x | x in s.waiting && x in LinksOf(s.state) :: x in t.waiting
    requires forall x | H.Known(s.state, x) && x in s.waiting :: x in t.waiting
    ensures Inv(t, lost)
  {
    forall x | H.Known(t.state, x) && x !in t.waiting ensures InvFor(t.state, t.waiting, lost, x) {
      SameWayLabelled(s.state, t.state, x);
      SameWayWrong(s.state, t.state, x);
      if i: nat :| CutAt(s.state, x, i) && Way(s.state, x)[i].value in s.waiting {
        WalkFromHit(LinksOf(s.state), Crits(s.state), x);
        M.WayAt(LinksOf(s.state), Crits(s.state), x);
        assert CutAt(t.state, x, i);
      }
    }
  }

  lemma OtherKeepsInv(s: Hierarchy, h: Happening, excluded: set<Name>, lost: set<Name>)
    requires Inv(s, lost) && Legal(s.state, h, excluded)
    requires !h.step.Reconcile? && (h.step.Disappear? ==> !H.Known(s.state, h.step.n))
    ensures Inv(Next(s, h, excluded), lost)
  {
    var n, u := h.step.n, Next(s, h, excluded);
    H.TouchKeeps(s.state, n);
    TouchedInfo(s.state, n);
    if h.step.PutSources? { PutInfo(Touch(s.state, n), n, h.step.sources); }
    SameForestKeepsInv(s, u, lost);
  }

  lemma TouchedInfo(s: State, n: Name)
    requires H.Sound(s) && H.Externals(s) == {} && n != NO_NAME
    ensures var t := Touch(s, n);
      && H.Sound(t) && H.Externals(t) == {} && n in t && (forall x :: H.Known(t, x) <==> H.Known(s, x))
      && forall x | H.Known(t, x) :: t[x] == s[x]
  {
    H.StepKeepsSound(s, H.Lookup(n), {});
    forall x | x in Touch(s, n) ensures Touch(s, n)[x].info.external.Keys == {} {
      assert x in s ==> x !in H.Externals(s);
    }
  }

  lemma PutInfo(s: State, n: Name, sources: map<Kind, map<string, Obj>>)
    requires H.Sound(s) && H.Externals(s) == {} && n in s
    ensures var t := H.WithInfo(s, n, s[n].info.(sources := sources));
      && H.Sound(t) && H.Externals(t) == {} && LinksOf(t) == LinksOf(s) && Crits(t) == Crits(s)
      && (forall x :: H.Known(t, x) <==> H.Known(s, x))
      && forall x | H.Known(t, x) :: t[x].info.labels == s[x].info.labels
  {
    H.OtherInfoKeepsSound(s, n, s[n].info.(sources := sources));
    var t := H.WithInfo(s, n, s[n].info.(sources := sources));
    forall x | x in t ensures t[x].info.external.Keys == {} { assert x !in H.Externals(s); }
  }

  lemma StepKeepsInv(s: Hierarchy, h: Happening, excluded: set<Name>, lost: set<Name>)
    requires Inv(s, lost) && Legal(s.state, h, excluded)
    ensures Inv(Next(s, h, excluded), LostAfter(s, h, excluded, lost))
  {
    if h.step.Reconcile? {
      ReconcileKeepsInv(s, h, excluded, lost);
    } else if h.step.Disappear? && H.Known(s.state, h.step.n) {
      RemovalKeepsInv(s, h, excluded, lost);
    } else {
      OtherKeepsInv(s, h, excluded, lost);
    }
  }

  ghost function RunTo(hs: seq<Happening>, excluded: set<Name>): (s: Hierarchy)
    ensures H.Sound(s.state)
  {
    if hs == [] then
      assert H.Sound(map[]);
      NOTHING
    else
      var s := RunTo(hs[..|hs| - 1], excluded);
      H.StepKeepsSound(s.state, hs[|hs| - 1].step, excluded);
      Next(s, hs[|hs| - 1], excluded)
  }

  ghost predicate LegalRun(hs: seq<Happening>, excluded: set<Name>) {
    hs == [] ||
    (LegalRun(hs[..|hs| - 1], excluded) && Legal(RunTo(hs[..|hs| - 1], excluded).state, hs[|hs| - 1], excluded))
  }

  /** The namespaces that are lost after a run. */
  ghost function Lost(hs: seq<Happening>, excluded: set<Name>): set<Name> {
    if hs == [] then {}
    else
      LostAfter(RunTo(hs[..|hs| - 1], excluded), hs[|hs| - 1], excluded, Lost(hs[..|hs| - 1], excluded))
  }

  lemma {:induction false} RunKeepsInv(hs: seq<Happening>, excluded: set<Name>)
    requires LegalRun(hs, excluded)
    ensures Inv(RunTo(hs, excluded), Lost(hs, excluded))
  {
    if hs != [] {
      var before := hs[..|hs| - 1];
      RunKeepsInv(before, excluded);
      StepKeepsInv(RunTo(before, excluded), hs[|hs| - 1], excluded, Lost(before, excluded));
    }
  }

  /** In every run of reconciles and removals, in any order: whenever the queue is empty, the labels of a known
      namespace are right if and only if it is not lost. */
  lemma QuietLabelsIff(hs: seq<Happening>, excluded: set<Name>, x: Name)
    requires LegalRun(hs, excluded) && RunTo(hs, excluded).waiting == {} && H.Known(RunTo(hs, excluded).state, x)
    ensures Labelled(RunTo(hs, excluded).state, x) <==> x !in Lost(hs, excluded)
  {
    RunKeepsInv(hs, excluded);
    var s := RunTo(hs, excluded).state;
    if Labelled(s, x) { LabelledIsNotWrong(s, x); }
  }

  // ----- Runs that lose nobody -----

  /** If every child of a namespace that appears has been halted, nobody is left behind. */
  lemma HaltedChildrenLoseNobody(s: Hierarchy, h: Happening, excluded: set<Name>, lost: set<Name>)
    requires Inv(s, lost) && Legal(s.state, h, excluded)
    requires H.Known(s.state, h.step.n) || ChildrenOf(s.state, h.step.n) <= Crits(s.state)
    ensures LostAfter(s, h, excluded, lost) <= lost
  {
    var n, waiting := h.step.n, Next(s, h, excluded).waiting;
    forall x | Behind(s.state, waiting, n, x) ensures x in lost {
      if x !in lost {
        var i: nat :| CutAt(s.state, x, i) && Way(s.state, x)[i].value in s.waiting;
        WayGoesOn(s.state, x, i);
      }
    }
  }

  /** Nobody is halted before the end of the way up. */
  lemma WayGoesOn(s: State, x: Name, i: nat)
    requires H.Sound(s) && CutAt(s, x, i)
    ensures var c := Way(s, x)[i].value; c !in Crits(s) && c in LinksOf(s) && Some(LinksOf(s)[c]) == Way(s, x)[i + 1]
  {
    WalkFromHit(LinksOf(s), Crits(s), x);
    M.WayAt(LinksOf(s), Crits(s), x);
    assert !WalkOver(LinksOf(s), Crits(s), x, i);
  }

  ghost function StepsOf(hs: seq<Happening>): seq<H.Step> {
    if hs == [] then [] else StepsOf(hs[..|hs| - 1]) + [hs[|hs| - 1].step]
  }

  lemma {:induction false} SameForest(hs: seq<Happening>, excluded: set<Name>)
    ensures RunTo(hs, excluded).state == H.Run(StepsOf(hs), excluded)
    ensures |StepsOf(hs)| == |hs| && forall i | 0 <= i < |hs| :: StepsOf(hs)[i] == hs[i].step
  {
    if hs != [] {
      SameForest(hs[..|hs| - 1], excluded);
      assert StepsOf(hs)[..|hs| - 1] == StepsOf(hs[..|hs| - 1]);
    }
  }

  lemma {:induction false} WithoutRemovalsNobodyIsLost(hs: seq<Happening>, excluded: set<Name>)
    requires LegalRun(hs, excluded) && forall i | 0 <= i < |hs| :: !hs[i].step.Disappear?
    ensures Lost(hs, excluded) == {}
  {
    if hs != [] {
      var before, h := hs[..|hs| - 1], hs[|hs| - 1];
      WithoutRemovalsNobodyIsLost(before, excluded);
      RunKeepsInv(before, excluded);
      SameForest(before, excluded);
      B.OrphansHaltedWithoutRemovals(StepsOf(before), excluded);
      HaltedChildrenLoseNobody(RunTo(before, excluded), h, excluded, {});
    }
  }

  /** Without removals a quiet queue means that all labels are right. */
  lemma QuietIsReady(hs: seq<Happening>, excluded: set<Name>)
    requires LegalRun(hs, excluded) && forall i | 0 <= i < |hs| :: !hs[i].step.Disappear?
    requires RunTo(hs, excluded).waiting == {}
    ensures Ready(RunTo(hs, excluded).state)
  {
    RunKeepsInv(hs, excluded);
    WithoutRemovalsNobodyIsLost(hs, excluded);
    InvIsReady(RunTo(hs, excluded));
  }

  lemma InvIsReady(s: Hierarchy)
    requires Inv(s, {}) && s.waiting == {}
    ensures Ready(s.state)
  {
    forall x | x in s.state && s.state[x].info.present ensures Labelled(s.state, x) {
      assert H.Known(s.state, x);
    }
  }

  /** Every step is the first reconcile of a namespace that HNC manages. */
  ghost predicate Grows(steps: seq<H.Step>, excluded: set<Name>) {
    steps == [] ||
    (var init, last := steps[..|steps| - 1], steps[|steps| - 1];
     && Grows(init, excluded) && last.Reconcile? && last.n != NO_NAME && last.n !in excluded
     && last.n !in H.Run(init, excluded) && H.ManagedByHnc(last.cfg) && Separate(last.cfg.labels))
  }

  /** The same steps, telling nobody. */
  function Silently(steps: seq<H.Step>): (hs: seq<Happening>)
    ensures |hs| == |steps| && forall i | 0 <= i < |hs| :: hs[i] == Happening(steps[i], {})
  {
    seq(|steps|, i requires 0 <= i < |steps| => Happening(steps[i], {}))
  }

  /** A namespace to which nobody refers disturbs nobody. */
  lemma NewcomerDisturbsNobody(s: State, n: Name, cfg: H.Config, excluded: set<Name>, x: Name)
    requires n != NO_NAME && H.Sound(s) && n !in s && x != n && x in H.Sync(s, n, cfg, excluded)
    requires H.Sound(H.Sync(s, n, cfg, excluded))
    ensures !Disturbed(s, H.Sync(s, n, cfg, excluded), x)
  {
    var u := H.AfterCrit(s, n, cfg, excluded);
    H.SyncKeepsSound(s, n, cfg, excluded);
    WalkFromHit(LinksOf(u), Crits(u), n);
    if u[n].info.external.Keys == {} {
      H.LabelsKeepSets(u, n, Labels(H.TreeLabels(u, n), cfg.labels.others));
    }
    if Disturbed(s, H.Sync(s, n, cfg, excluded), x) {
      H.WhoIsAffected(s, n, cfg, excluded, x);
      NobodyBelow(s, n, x);
    }
  }

  lemma NobodyBelow(s: State, n: Name, x: Name)
    requires Closed(s) && n !in s
    ensures x !in Descendants(LinksOf(s), n)
  {
    var l := LinksOf(s);
    if x in Descendants(l, n) {
      var k: nat :| Up(l, l[x], k) == Some(n);
      UpFirst(l, x, k);
      WalkStaysIn(s, x, k + 1);
    }
  }

  /** A namespace seen for the first time leaves the labels of all others up to date, and gets its own. */
  lemma NewcomerKeepsReady(s: State, n: Name, cfg: H.Config, excluded: set<Name>)
    requires Ready(s) && n !in s && n != NO_NAME && n !in excluded && H.ManagedByHnc(cfg) && Separate(cfg.labels)
    ensures Ready(H.Sync(s, n, cfg, excluded))
  {
    var t := H.Sync(s, n, cfg, excluded);
    SyncedState(s, n, cfg, excluded);
    SyncedIsLabelled(s, n, cfg, excluded);
    NewcomerIsLegal(s, H.Reconcile(n, cfg), excluded);
    forall x | x in t && t[x].info.present && x != n ensures Labelled(t, x) {
      UntoldIsUnmoved(s, Happening(H.Reconcile(n, cfg), {}), excluded, x);
    }
  }

  lemma {:induction false} GrowsSilently(steps: seq<H.Step>, excluded: set<Name>)
    requires Grows(steps, excluded)
    ensures LegalRun(Silently(steps), excluded)
    ensures RunTo(Silently(steps), excluded) == Hierarchy(H.Run(steps, excluded), {})
  {
    if steps != [] {
      var init, last := steps[..|steps| - 1], steps[|steps| - 1];
      GrowsSilently(init, excluded);
      NewcomerIsLegal(H.Run(init, excluded), last, excluded);
      SilentlyInit(steps);
      LastLegal(Silently(steps), Silently(init), last, H.Run(init, excluded), excluded);
    }
  }

  lemma SilentlyInit(steps: seq<H.Step>)
    requires steps != []
    ensures Silently(steps)[..|steps| - 1] == Silently(steps[..|steps| - 1])
  {
  }

  lemma LastLegal(hs: seq<Happening>, before: seq<Happening>, step: H.Step, s: State, excluded: set<Name>)
    requires hs != [] && hs[..|hs| - 1] == before && hs[|hs| - 1] == Happening(step, {})
    requires LegalRun(before, excluded) && RunTo(before, excluded) == Hierarchy(s, {})
    requires H.Sound(s) && Legal(s, Happening(step, {}), excluded)
    ensures LegalRun(hs, excluded) && RunTo(hs, excluded) == Next(Hierarchy(s, {}), Happening(step, {}), excluded)
  {
  }

  lemma NewcomerIsLegal(s: State, step: H.Step, excluded: set<Name>)
    requires H.Sound(s) && step.Reconcile? && step.n != NO_NAME && step.n !in excluded && step.n !in s
    requires H.ManagedByHnc(step.cfg) && Separate(step.cfg.labels)
    ensures Legal(s, Happening(step, {}), excluded)
    ensures Next(Hierarchy(s, {}), Happening(step, {}), excluded) == Hierarchy(H.Next(s, step, excluded), {})
  {
    H.SyncTouchesOnly(s, step.n, step.cfg, excluded);
    forall x | x != step.n && x in H.Sync(s, step.n, step.cfg, excluded)
      ensures !Disturbed(s, H.Sync(s, step.n, step.cfg, excluded), x)
    {
      NewcomerDisturbsNobody(s, step.n, step.cfg, excluded, x);
    }
  }

  /** For instance, namespaces that are reconciled for the first time, each before anyone refers to it, all get the
      right labels. */
  lemma GrownIsReady(steps: seq<H.Step>, excluded: set<Name>)
    requires Grows(steps, excluded)
    ensures Ready(H.Run(steps, excluded))
  {
    GrowsSilently(steps, excluded);
    forall i | 0 <= i < |steps| ensures !steps[i].Disappear? { GrowsOnly(steps, excluded, i); }
    QuietIsReady(Silently(steps), excluded);
  }

  lemma {:induction false} GrowsOnly(steps: seq<H.Step>, excluded: set<Name>, i: nat)
    requires Grows(steps, excluded) && i < |steps|
    ensures steps[i].Reconcile?
  {
    if i < |steps| - 1 { GrowsOnly(steps[..|steps| - 1], excluded, i); }
  }

  /** For instance, a root and a namespace below it. */
  lemma RootAndChild(a: Name, b: Name, excluded: set<Name>) returns (steps: seq<H.Step>)
    requires a != b && a != NO_NAME && b != NO_NAME && {a, b, NO_NAME} !! excluded
    ensures Grows(steps, excluded)
    ensures var s := H.Run(steps, excluded);
      && Ready(s) && LinksOf(s) == map[b := a] && Crits(s) == {} && s.Keys == {a, b}
      && s[a].info.present && s[b].info.present
  {
    var x, y;
    steps, x, y := TwoMore([], a, NO_NAME, b, excluded);
    GrownIsReady(steps, excluded);
    RootAndChildState(H.Run(steps, excluded), a, b, x, y);
  }

  lemma RootAndChildState(s: State, a: Name, b: Name, x: Node, y: Node)
    requires a != b && s == map[][a := x][b := y] && x.parent == None && y.parent == Some(a)
    requires x.info.conditions == [] && y.info.conditions == []
    ensures LinksOf(s) == map[b := a] && Crits(s) == {} && s.Keys == {a, b} && s[a] == x && s[b] == y
  {
    assert s.Keys == {a, b};
  }

  lemma OneStep(init: seq<H.Step>, step: H.Step, n: Name, p: Name, excluded: set<Name>) returns (t: State)
    requires Grows(init, excluded) && step == H.Reconcile(n, Under(p)) && n != NO_NAME && n !in excluded
      && p !in excluded
    requires var s := H.Run(init, excluded); n !in s && (p == NO_NAME || (p in s && s[p].info.present))
    ensures Grows(init + [step], excluded) && t == H.Run(init + [step], excluded)
    ensures n in t && t == H.Run(init, excluded)[n := t[n]]
    ensures t[n].info.present && t[n].parent == H.Named(p) && t[n].info.conditions == []
  {
    var s := H.Run(init, excluded);
    var all := init + [step];
    assert all[..|all| - 1] == init && all[|all| - 1] == step;
    NewcomerJoins(s, n, p, excluded);
    t := H.Sync(s, n, Under(p), excluded);
    assert H.Next(s, step, excluded) == t;
  }

  /** Two newcomers, one below the other. */
  lemma TwoMore(init: seq<H.Step>, n: Name, q: Name, d: Name, excluded: set<Name>)
    returns (steps: seq<H.Step>, x: Node, y: Node)
    requires Grows(init, excluded) && n != d && NO_NAME !in {n, d} && {n, d, q} !! excluded
    requires var s := H.Run(init, excluded); n !in s && d !in s && (q == NO_NAME || H.Known(s, q))
    ensures Grows(steps, excluded) && H.Run(steps, excluded) == H.Run(init, excluded)[n := x][d := y]
    ensures x.parent == H.Named(q) && x.info.present && x.info.conditions == []
    ensures y.parent == Some(n) && y.info.present && y.info.conditions == []
  {
    var first, second := H.Reconcile(n, Under(q)), H.Reconcile(d, Under(n));
    var s1 := OneStep(init, first, n, q, excluded);
    var s2 := OneStep(init + [first], second, d, n, excluded);
    steps, x, y := init + [first] + [second], s1[n], s2[d];
  }
}
