/** When the tree-depth labels that the forest has recorded are up to date. */
module LabelSync {
  import opened Names
  import opened Text
  import opened ParentLinks
  import opened Objects
  import opened Cycles
  import opened ForestState
  import H = HierarchySteps

  const DEPTH_SUFFIX := ".tree.hnc.x-k8s.io/depth"

  /** The labels other than those of the tree have other keys, as `syncLabel` sees to. */
  predicate Separate(labels: Labels) {
    forall k | k in labels.others :: !HasSuffix(k, DEPTH_SUFFIX)
  }

  /** The labels of `n` are up to date. */
  ghost predicate Labelled(s: State, n: Name) {
    && n in s && WalkEnds(LinksOf(s), Crits(s), n)
    && s[n].info.labels.depths == H.TreeLabels(s, n) && Separate(s[n].info.labels)
  }

  ghost predicate NoneExternal(s: State, n: Name) {
    forall a | Reach(LinksOf(s), n, a) :: a !in H.Externals(s)
  }

  /** `a` is `n` or one of its ancestors up to and including the first halted one. */
  ghost predicate InChain(s: State, n: Name, a: Name)
    requires WalkEnds(LinksOf(s), Crits(s), n)
  {
    H.CritWalkStops(s, n);
    exists k: nat :: H.MetAt(LinksOf(s), H.Stops(s), n, a, k)
  }

  /** The labels are exactly ancestor name -> distance, cut at and including the first halted one. */
  lemma LabelsAreTheChain(s: State, n: Name, a: Name)
    requires Labelled(s, n) && NoneExternal(s, n)
    ensures a in s[n].info.labels.depths <==> InChain(s, n, a)
    ensures InChain(s, n, a) ==> var d := s[n].info.labels.depths[a]; d >= 0 && Up(LinksOf(s), n, d) == Some(a)
  {
    var l, stop := LinksOf(s), H.Stops(s);
    H.CritWalkStops(s, n);
    H.StopIsSome(l, stop, n);
    var top := Up(l, n, H.StopAt(l, stop, n)).value;
    assert Reach(l, n, top);
    assert H.TreeLabels(s, n) == H.Depths(l, stop, n, 0);
    H.DepthsExact(l, stop, n, 0, a);
  }

  /** The walk for the labels of `n` ends at `top` after `k` links: `top` is halted, external or a root, and nobody
      before it is. */
  ghost predicate WalkStopsAt(s: State, n: Name, top: Name, k: nat) {
    var l := LinksOf(s);
    && top in s && Up(l, n, k) == Some(top) && (top in Crits(s) || s[top].info.external != map[] || top !in l)
    && forall j: nat | j < k :: GoesOn(s, Up(l, n, j))
  }

  ghost predicate GoesOn(s: State, a: Option<Name>) {
    a.Some? && a.value !in Crits(s) && (a.value in s ==> s[a.value].info.external == map[])
  }

  /** The labels that `top` hands on: its external ones, unless it is halted. */
  ghost function HandedOn(s: State, top: Name): map<Name, int>
    requires top in s
  {
    if top in Crits(s) then map[] else s[top].info.external
  }

  /** `x` is met on the walk. */
  ghost predicate UpTo(l: Links, n: Name, x: Name, k: nat) {
    exists j: nat :: j <= k && Up(l, n, j) == Some(x)
  }

  /** `n` is labelled with exactly what is met on the walk and what the last one hands on; the latter with as much more
      as the walk is long, the others with their distances. */
  ghost predicate LabelledBelow(m: map<Name, int>, s: State, n: Name, top: Name, k: nat)
    requires top in s
  {
    var l, ext := LinksOf(s), HandedOn(s, top);
    && (forall x :: x in m <==> x in ext || UpTo(l, n, x, k))
    && (forall x | x in ext :: x in m && m[x] == k + ext[x])
    && (forall x, j: nat | j <= k && Up(l, n, j) == Some(x) && x !in ext :: x in m && m[x] == j)
  }

  lemma StopsAfter(s: State, n: Name, top: Name, k: nat)
    requires WalkStopsAt(s, n, top, k) && WalkEnds(LinksOf(s), Crits(s), n)
    ensures WalkEnds(LinksOf(s), H.Stops(s), n) && H.StopAt(LinksOf(s), H.Stops(s), n) == k
  {
    var l, stop := LinksOf(s), H.Stops(s);
    H.CritWalkStops(s, n);
    forall j: nat | j < k ensures !WalkOver(l, stop, n, j) { assert GoesOn(s, Up(l, n, j)); }
    if top in stop {
      assert WalkOver(l, stop, n, k);
    } else {
      assert Up(l, n, k + 1) == None;
      assert !WalkOver(l, stop, n, k) && WalkOver(l, stop, n, k + 1);
    }
  }

  lemma TreeLabelsBelow(s: State, n: Name, top: Name, k: nat)
    requires n in s && WalkEnds(LinksOf(s), Crits(s), n) && WalkStopsAt(s, n, top, k)
    ensures LabelledBelow(H.TreeLabels(s, n), s, n, top, k)
  {
    StopsAfter(s, n, top, k);
    H.TreeLabelsAre(s, n, top, k);
    DepthsBelow(H.Depths(LinksOf(s), H.Stops(s), n, 0), s, n, top, k);
  }

  lemma DepthsBelow(d: map<Name, int>, s: State, n: Name, top: Name, k: nat)
    requires top in s && WalkEnds(LinksOf(s), H.Stops(s), n) && H.StopAt(LinksOf(s), H.Stops(s), n) == k
    requires d == H.Depths(LinksOf(s), H.Stops(s), n, 0)
    ensures LabelledBelow(d + H.Shifted(HandedOn(s, top), k), s, n, top, k)
  {
    var l := LinksOf(s);
    forall x
      ensures x in d <==> UpTo(l, n, x, k)
      ensures forall j: nat | j <= k && Up(l, n, j) == Some(x) :: x in d && d[x] == j
    {
      DepthsUpTo(l, H.Stops(s), n, k, x);
    }
  }

  lemma DepthsUpTo(l: Links, stop: set<Name>, n: Name, k: nat, x: Name)
    requires WalkEnds(l, stop, n) && H.StopAt(l, stop, n) == k
    ensures x in H.Depths(l, stop, n, 0) <==> UpTo(l, n, x, k)
    ensures forall j: nat | j <= k && Up(l, n, j) == Some(x) ::
      x in H.Depths(l, stop, n, 0) && H.Depths(l, stop, n, 0)[x] == j
  {
    H.DepthsExact(l, stop, n, 0, x);
    if x in H.Depths(l, stop, n, 0) {
      var j: nat :| H.MetAt(l, stop, n, x, j);
      assert j <= k && Up(l, n, j) == Some(x);
    }
    if UpTo(l, n, x, k) {
      var j: nat :| j <= k && Up(l, n, j) == Some(x);
      assert H.MetAt(l, stop, n, x, j);
    }
    forall j: nat | j <= k && Up(l, n, j) == Some(x)
      ensures x in H.Depths(l, stop, n, 0) && H.Depths(l, stop, n, 0)[x] == j
    {
      assert H.MetAt(l, stop, n, x, j);
    }
  }

  /** After its own reconcile a namespace has these labels, also below an external one. */
  lemma SyncedLabels(s: State, n: Name, cfg: H.Config, excluded: set<Name>, top: Name, k: nat)
    requires n != NO_NAME && H.Sound(s) && H.ManagedByHnc(cfg)
    requires WalkStopsAt(H.Sync(s, n, cfg, excluded), n, top, k)
    ensures var t := H.Sync(s, n, cfg, excluded); n in t && LabelledBelow(t[n].info.labels.depths, t, n, top, k)
  {
    H.SyncWritesLabels(s, n, cfg, excluded);
    TreeLabelsBelow(H.Sync(s, n, cfg, excluded), n, top, k);
  }

  /** The forest is sound, no namespace is external, and the labels of all known namespaces are up to date. */
  ghost predicate Ready(s: State) {
    H.Sound(s) && H.Externals(s) == {} && forall n | n in s && s[n].info.present :: Labelled(s, n)
  }

  // ----- How labels get up to date -----

  /** After its own reconcile the labels of a namespace that HNC manages are up to date. */
  lemma SyncedIsLabelled(s: State, n: Name, cfg: H.Config, excluded: set<Name>)
    requires n != NO_NAME && H.Sound(s) && H.ManagedByHnc(cfg) && Separate(cfg.labels)
    ensures Labelled(H.Sync(s, n, cfg, excluded), n)
  {
    H.SyncWritesLabels(s, n, cfg, excluded);
  }

  lemma LabelsAreDepths(s: State, n: Name)
    requires n in s && H.Externals(s) == {} && WalkEnds(LinksOf(s), Crits(s), n) && WalkEnds(LinksOf(s), H.Stops(s), n)
    ensures H.TreeLabels(s, n) == H.Depths(LinksOf(s), H.Stops(s), n, 0)
  {
    H.StopIsSome(LinksOf(s), H.Stops(s), n);
  }

  // ----- A simple configuration -----

  /** A configuration that asks for a parent and nothing else. */
  function Under(p: Name): H.Config {
    H.Config("", NO_NAME, false, p, false, [], Labels(map[], map[]), false)
  }

  const FRESH: Info := BLANK.(manager := META_GROUP)

  lemma FirstStages(s: State, n: Name, p: Name)
    requires n !in s && n != NO_NAME
    ensures H.AfterSubnamespace(s, n, Under(p)) == s[n := Node(None, FRESH)] && H.ParentFor(s, n, Under(p)) == p
  {
  }

  lemma ParentStage(s: State, n: Name, p: Name, excluded: set<Name>)
    requires n in s && s[n] == Node(None, FRESH) && MissingAreRoots(s) && p !in excluded && p != n
    requires p == NO_NAME || (p in s && s[p].info.present)
    requires NO_NAME !in s
    ensures H.SyncParent(s, n, p, excluded) == s[n := Node(H.Named(p), FRESH)]
  {
  }

  lemma LastStages(s: State, n: Name, p: Name)
    requires n in s && s[n].info == FRESH && !OnCycle(LinksOf(s), n)
    ensures H.SyncCrit(H.SyncSpec(s, n, Under(p)), n, Under(p)) == s[n := Node(s[n].parent, FRESH.(present := true))]
  {
    var t := H.SyncSpec(s, n, Under(p));
    assert LinksOf(t) == LinksOf(s);
  }

  lemma NoCycleAtNewcomer(s: State, n: Name, p: Name)
    requires Closed(s) && n !in s && (p == NO_NAME || p in s)
    ensures var t := s[n := Node(H.Named(p), FRESH)];
      LinksOf(t) == (if p == NO_NAME then LinksOf(s) else LinksOf(s)[n := p]) && !OnCycle(LinksOf(t), n)
  {
    var l := LinksOf(s);
    if p != NO_NAME {
      CycleMadeIff(l, n, p);
      if Reach(l, p, n) {
        var k: nat :| Up(l, p, k) == Some(n);
        WalkStaysIn(s, p, k);
      }
    }
  }

  lemma NewcomerStages(s: State, n: Name, p: Name, excluded: set<Name>)
    requires H.Sound(s) && n !in s && n != NO_NAME && p !in excluded
    requires p == NO_NAME || (p in s && s[p].info.present)
    ensures H.AfterCrit(s, n, Under(p), excluded) == s[n := Node(H.Named(p), FRESH.(present := true))]
  {
    FirstStages(s, n, p);
    H.EarlyStagesKeepLinks(s, n, Under(p));
    NoCycleAtNewcomer(s, n, p);
    ParentStage(s[n := Node(None, FRESH)], n, p, excluded);
    Overwritten(s, n, Node(None, FRESH), Node(H.Named(p), FRESH));
    LastStages(s[n := Node(H.Named(p), FRESH)], n, p);
    Overwritten(s, n, Node(H.Named(p), FRESH), Node(H.Named(p), FRESH.(present := true)));
  }

  lemma Overwritten(s: State, n: Name, x: Node, y: Node)
    ensures s[n := x][n := y] == s[n := y]
  {
  }

  /** A newcomer under a known parent joins it and is not halted; nothing else changes. */
  lemma NewcomerJoins(s: State, n: Name, p: Name, excluded: set<Name>)
    requires H.Sound(s) && n !in s && n != NO_NAME && p !in excluded
    requires p == NO_NAME || (p in s && s[p].info.present)
    ensures var t := H.Sync(s, n, Under(p), excluded);
      n in t && t == s[n := Node(H.Named(p), FRESH.(present := true, labels := t[n].info.labels))]
  {
    var u := s[n := Node(H.Named(p), FRESH.(present := true))];
    NewcomerStages(s, n, p, excluded);
    H.SyncKeepsSound(s, n, Under(p), excluded);
    WalkFromHit(LinksOf(u), Crits(u), n);
    OnlyLabels(u, n, Under(p));
    Overwritten(s, n, u[n], H.SyncLabel(u, n, Under(p))[n]);
  }

  /** A namespace that is in the forest, under the parent it has. */
  function Refreshed(info: Info): Info {
    info.(conditions := [], manager := META_GROUP, external := map[], isSub := false, present := true,
      anchors := [], cascading := false)
  }

  lemma RefreshedStages(s: State, n: Name, p: Name, excluded: set<Name>)
    requires H.Sound(s) && n in s && n != NO_NAME && p !in excluded && s[n].parent == H.Named(p)
    requires p == NO_NAME || (p != n && p in s && s[p].info.present)
    requires !OnCycle(LinksOf(s), n)
    ensures H.AfterCrit(s, n, Under(p), excluded) == s[n := Node(s[n].parent, Refreshed(s[n].info))]
  {
    var i := s[n].info.(conditions := [], manager := META_GROUP, external := map[], isSub := false);
    var s1 := s[n := Node(s[n].parent, i)];
    RefreshedFirst(s, n, p);
    H.EarlyStagesKeepLinks(s, n, Under(p));
    RefreshedParent(s1, n, p, excluded);
    RefreshedLast(s1, n, p);
  }

  lemma RefreshedFirst(s: State, n: Name, p: Name)
    requires n in s && n != NO_NAME
    ensures H.ParentFor(s, n, Under(p)) == p
    ensures H.AfterSubnamespace(s, n, Under(p)) ==
      s[n := Node(s[n].parent, s[n].info.(conditions := [], manager := META_GROUP, external := map[], isSub := false))]
  {
  }

  lemma RefreshedParent(s: State, n: Name, p: Name, excluded: set<Name>)
    requires n in s && MissingAreRoots(s) && p !in excluded && s[n].parent == H.Named(p)
    requires p == NO_NAME || (p in s && s[p].info.present)
    requires s[n].info.external.Keys == {} && NO_NAME !in s
    ensures H.SyncParent(s, n, p, excluded) == s
  {
  }

  lemma RefreshedLast(s: State, n: Name, p: Name)
    requires n in s && !OnCycle(LinksOf(s), n)
    ensures H.SyncCrit(H.SyncSpec(s, n, Under(p)), n, Under(p)) ==
      s[n := Node(s[n].parent, s[n].info.(present := true, anchors := [], cascading := false))]
  {
    assert LinksOf(H.SyncSpec(s, n, Under(p))) == LinksOf(s);
  }

  /** The last stage changes nothing but the labels. */
  lemma OnlyLabels(s: State, n: Name, cfg: H.Config)
    requires n in s && WalkEnds(LinksOf(s), Crits(s), n)
    ensures var t := H.SyncLabel(s, n, cfg);
      n in t && t == s[n := Node(s[n].parent, s[n].info.(labels := t[n].info.labels))]
  {
  }

  /** A reconcile that finds the same parent changes no link, and halts nobody. */
  lemma RefreshedStays(s: State, n: Name, p: Name, excluded: set<Name>)
    requires H.Sound(s) && n in s && n != NO_NAME && p !in excluded && s[n].parent == H.Named(p)
    requires p == NO_NAME || (p != n && p in s && s[p].info.present)
    requires !OnCycle(LinksOf(s), n)
    ensures var t := H.Sync(s, n, Under(p), excluded);
      n in t && t == s[n := Node(s[n].parent, Refreshed(s[n].info).(labels := t[n].info.labels))]
  {
    var u := s[n := Node(s[n].parent, Refreshed(s[n].info))];
    RefreshedStages(s, n, p, excluded);
    H.SyncKeepsSound(s, n, Under(p), excluded);
    WalkFromHit(LinksOf(u), Crits(u), n);
    OnlyLabels(u, n, Under(p));
    Overwritten(s, n, u[n], H.SyncLabel(u, n, Under(p))[n]);
  }
}
