/** A namespace with a parent that is removed and comes back as a root: what the namespaces further down miss. */
module LabelReturns {
  import opened Names
  import opened ParentLinks
  import opened Cycles
  import opened Objects
  import opened ForestState
  import H = HierarchySteps
  import M = PropagationMoves
  import B = PropagationBridge
  import opened LabelSync
  import opened LabelRuns

  // ----- A line of namespaces -----

  /** A line of namespaces, of which the second has the given parent, without conditions. */
  ghost predicate Line(s: State, p: Name, r: Name, c: Name, g: Name, over: Option<Name>) {
    && H.Sound(s) && H.Externals(s) == {} && Crits(s) == {} && s.Keys == {p, r, c, g}
    && s[p].parent == None && s[r].parent == over && s[c].parent == Some(r) && s[g].parent == Some(c)
    && H.Known(s, p) && H.Known(s, c) && H.Known(s, g)
  }

  predicate Four(p: Name, r: Name, c: Name, g: Name) {
    p != r && p != c && p != g && r != c && r != g && c != g && NO_NAME !in {p, r, c, g}
  }

  lemma NoCycleInLine(s: State, p: Name, r: Name, c: Name, g: Name, over: Option<Name>, n: Name)
    requires Four(p, r, c, g) && Line(s, p, r, c, g, over) && over in {None, Some(p)}
    ensures !OnCycle(LinksOf(s), n)
  {
    var l := LinksOf(s);
    OffCycle(l, p);
    OffCycle(l, r);
    OffCycle(l, c);
    OffCycle(l, g);
    if n !in s { OffCycle(l, n); }
  }

  /** In the whole line, `g` passes `r`. */
  lemma PassesInLine(s: State, p: Name, r: Name, c: Name, g: Name)
    requires Four(p, r, c, g) && Line(s, p, r, c, g, Some(p))
    ensures PassesAt(s, g, r, 2)
  {
    var l := LinksOf(s);
    WalkFromHit(l, Crits(s), g);
    M.WayAt(l, Crits(s), g);
    assert Up(l, g, 0) == Some(g);
    assert Up(l, g, 1) == Some(c) && Up(l, g, 2) == Some(r) && Up(l, g, 3) == Some(p) && Up(l, g, 4) == None;
    forall k: nat | k < 4 ensures !WalkOver(l, Crits(s), g, k) {
      assert k == 0 || k == 1 || k == 2 || k == 3;
    }
    assert WalkOver(l, Crits(s), g, 4);
  }

  /** Nobody is disturbed where no link and no condition that halts changes. */
  lemma SameSetsDisturbNobody(s: State, t: State, x: Name)
    requires H.Sound(s) && H.Sound(t) && LinksOf(t) == LinksOf(s) && Crits(t) == Crits(s)
    ensures !Disturbed(s, t, x) && Way(s, x) == Way(t, x)
  {
  }

  lemma RefreshedSets(s: State, n: Name, labels: Labels)
    requires n in s && Crits(s) == {}
    ensures var t := s[n := Node(s[n].parent, Refreshed(s[n].info).(labels := labels))];
      LinksOf(t) == LinksOf(s) && Crits(t) == {}
  {
  }

  /** A reconcile that finds the same parent, with nobody halted. */
  lemma RefreshedQuietly(s: State, n: Name, q: Name, excluded: set<Name>, told: set<Name>)
    requires H.Sound(s) && H.Externals(s) == {} && Crits(s) == {} && n in s && !OnCycle(LinksOf(s), n)
    requires n != NO_NAME && n !in excluded && q !in excluded && n != q
    requires s[n].parent == H.Named(q) && (q == NO_NAME || H.Known(s, q))
    ensures var t := H.Sync(s, n, Under(q), excluded);
      && Legal(s, Happening(H.Reconcile(n, Under(q)), told), excluded) && H.Sound(t) && H.Externals(t) == {}
      && LinksOf(t) == LinksOf(s) && Crits(t) == {} && H.Known(t, n)
      && t == s[n := Node(s[n].parent, t[n].info)]
  {
    var t := H.Sync(s, n, Under(q), excluded);
    RefreshedStays(s, n, q, excluded);
    SyncedState(s, n, Under(q), excluded);
    RefreshedSets(s, n, t[n].info.labels);
    forall x ensures !Disturbed(s, t, x) { SameSetsDisturbNobody(s, t, x); }
  }

  /** A reconcile of a member of the line that finds the same parent tells nobody, and leaves `g` as it is. */
  lemma LineRefreshed(s: State, p: Name, r: Name, c: Name, g: Name, over: Option<Name>, n: Name, q: Name,
      excluded: set<Name>, told: set<Name>)
    requires Four(p, r, c, g) && Line(s, p, r, c, g, over) && over in {None, Some(p)}
    requires n in {p, r, c} && s[n].parent == H.Named(q) && (q == NO_NAME || H.Known(s, q))
    requires n !in excluded && q !in excluded && n != q
    ensures var t := H.Sync(s, n, Under(q), excluded);
      && Legal(s, Happening(H.Reconcile(n, Under(q)), told), excluded)
      && Line(t, p, r, c, g, over) && H.Known(t, n) && (forall x | H.Known(s, x) :: H.Known(t, x))
      && (Labelled(t, g) <==> Labelled(s, g))
  {
    var t := H.Sync(s, n, Under(q), excluded);
    NoCycleInLine(s, p, r, c, g, over, n);
    RefreshedQuietly(s, n, q, excluded, told);
    SameSetsDisturbNobody(s, t, g);
    SameWayLabelled(s, t, g);
    StillLine(s, t, p, r, c, g, over, n);
  }

  lemma StillLine(s: State, t: State, p: Name, r: Name, c: Name, g: Name, over: Option<Name>, n: Name)
    requires Four(p, r, c, g) && Line(s, p, r, c, g, over) && n in s && n in t && H.Known(t, n)
    requires t == s[n := Node(s[n].parent, t[n].info)] && H.Sound(t) && H.Externals(t) == {} && Crits(t) == {}
    ensures Line(t, p, r, c, g, over) && forall x | H.Known(s, x) :: H.Known(t, x)
  {
    assert t.Keys == s.Keys;
  }

  /** Removing `r` cuts the line. */
  lemma LineCut(s: State, p: Name, r: Name, c: Name, g: Name)
    requires Four(p, r, c, g) && Line(s, p, r, c, g, Some(p)) && H.Known(s, r) && Labelled(s, g)
    ensures Line(H.Remove(s, r), p, r, c, g, None) && !Labelled(H.Remove(s, r), g)
  {
    PassesInLine(s, p, r, c, g);
    RemovalKeepsLabelsIff(s, r, g);
    StillCutLine(s, p, r, c, g);
  }

  lemma OnlyChild(s: State, p: Name, r: Name, c: Name, g: Name)
    requires Four(p, r, c, g) && s.Keys == {p, r, c, g}
    requires s[p].parent == None && s[r].parent == Some(p) && s[c].parent == Some(r) && s[g].parent == Some(c)
    ensures ChildrenOf(s, r) == {c}
  {
  }

  lemma StillCutLine(s: State, p: Name, r: Name, c: Name, g: Name)
    requires Four(p, r, c, g) && Line(s, p, r, c, g, Some(p)) && H.Known(s, r)
    ensures Line(H.Remove(s, r), p, r, c, g, None)
  {
    var t := H.Remove(s, r);
    B.RemovedState(s, r);
    B.RemovedInfo(s, r);
    assert t[c] == s[c] && ParentIn(t, c);
    assert t.Keys == {p, r, c, g};
    assert Crits(t) == {};
  }

  lemma LineGrows(p: Name, r: Name, c: Name, g: Name, excluded: set<Name>) returns (steps: seq<H.Step>)
    requires Four(p, r, c, g) && {p, r, c, g, NO_NAME} !! excluded
    ensures Grows(steps, excluded)
    ensures var s := H.Run(steps, excluded); Line(s, p, r, c, g, Some(p)) && H.Known(s, r) && Labelled(s, g)
  {
    var x, y, z, v;
    steps, x, y := TwoMore([], p, NO_NAME, r, excluded);
    TwoEntries(p, r, x, y);
    steps, z, v := TwoMore(steps, c, r, g, excluded);
    GrownIsReady(steps, excluded);
    GrownLine(H.Run(steps, excluded), p, r, c, g, x, y, z, v);
  }

  lemma TwoEntries(p: Name, r: Name, x: Node, y: Node)
    requires p != r
    ensures var s: State := map[][p := x][r := y]; s.Keys == {p, r} && s[p] == x && s[r] == y
  {
  }

  lemma GrownLine(s: State, p: Name, r: Name, c: Name, g: Name, x: Node, y: Node, z: Node, v: Node)
    requires Four(p, r, c, g) && s == map[][p := x][r := y][c := z][g := v] && Ready(s)
    requires x.parent == None && y.parent == Some(p) && z.parent == Some(r) && v.parent == Some(c)
    requires x.info.present && y.info.present && z.info.present && v.info.present
    requires x.info.conditions == [] && y.info.conditions == [] && z.info.conditions == [] && v.info.conditions == []
    ensures Line(s, p, r, c, g, Some(p)) && H.Known(s, r) && Labelled(s, g)
  {
    FourEntries(s, p, r, c, g, x, y, z, v);
    ReadyParts(s, g);
    EntriesInLine(s, p, r, c, g);
  }

  lemma ReadyParts(s: State, g: Name)
    requires Ready(s) && H.Known(s, g)
    ensures H.Sound(s) && H.Externals(s) == {} && Labelled(s, g)
  {
  }

  lemma FourEntries(s: State, p: Name, r: Name, c: Name, g: Name, x: Node, y: Node, z: Node, v: Node)
    requires Four(p, r, c, g) && s == map[][p := x][r := y][c := z][g := v]
    ensures s.Keys == {p, r, c, g} && s[p] == x && s[r] == y && s[c] == z && s[g] == v
  {
  }

  lemma EntriesInLine(s: State, p: Name, r: Name, c: Name, g: Name)
    requires s.Keys == {p, r, c, g} && H.Sound(s) && H.Externals(s) == {}
    requires s[p].parent == None && s[r].parent == Some(p) && s[c].parent == Some(r) && s[g].parent == Some(c)
    requires s[p].info.present && s[r].info.present && s[c].info.present && s[g].info.present
    requires s[p].info.conditions == [] && s[r].info.conditions == [] && s[c].info.conditions == []
    requires s[g].info.conditions == []
    ensures Line(s, p, r, c, g, Some(p)) && H.Known(s, r)
  {
    NobodyHalted(s);
  }

  lemma NobodyHalted(s: State)
    requires forall n | n in s :: s[n].info.conditions == []
    ensures Crits(s) == {}
  {
  }

  lemma LegalOn(hs: seq<Happening>, h: Happening, excluded: set<Name>)
    requires LegalRun(hs, excluded) && Legal(RunTo(hs, excluded).state, h, excluded)
    ensures LegalRun(hs + [h], excluded) && RunTo(hs + [h], excluded) == Next(RunTo(hs, excluded), h, excluded)
  {
    assert (hs + [h])[..|hs|] == hs;
  }

  lemma LineRemoved(hs: seq<Happening>, p: Name, r: Name, c: Name, g: Name, excluded: set<Name>)
    returns (hs': seq<Happening>)
    requires Four(p, r, c, g) && LegalRun(hs, excluded)
    requires var s := RunTo(hs, excluded);
      s.waiting == {} && Line(s.state, p, r, c, g, Some(p)) && H.Known(s.state, r) && Labelled(s.state, g)
    ensures LegalRun(hs', excluded)
    ensures var s := RunTo(hs', excluded);
      s.waiting == {p, c} && Line(s.state, p, r, c, g, None) && !Labelled(s.state, g)
  {
    var s := RunTo(hs, excluded).state;
    var h := Happening(H.Disappear(r), {p, c});
    OnlyChild(s, p, r, c, g);
    LineCut(s, p, r, c, g);
    LegalOn(hs, h, excluded);
    hs' := hs + [h];
  }

  lemma LineReconciled(hs: seq<Happening>, p: Name, r: Name, c: Name, g: Name, n: Name, q: Name, told: set<Name>,
      excluded: set<Name>) returns (hs': seq<Happening>)
    requires Four(p, r, c, g) && LegalRun(hs, excluded) && n in {p, r, c} && n !in excluded && q !in excluded && n != q
    requires var s := RunTo(hs, excluded).state;
      && Line(s, p, r, c, g, None) && !Labelled(s, g)
      && s[n].parent == H.Named(q) && (q == NO_NAME || H.Known(s, q))
    ensures LegalRun(hs', excluded)
    ensures var s, t := RunTo(hs, excluded), RunTo(hs', excluded);
      && t.waiting == s.waiting - {n} + told && Line(t.state, p, r, c, g, None) && !Labelled(t.state, g)
      && H.Known(t.state, n) && forall x | H.Known(s.state, x) :: H.Known(t.state, x)
  {
    var h := Happening(H.Reconcile(n, Under(q)), told);
    LineRefreshed(RunTo(hs, excluded).state, p, r, c, g, None, n, q, excluded, told);
    LegalOn(hs, h, excluded);
    hs' := hs + [h];
  }

  /** Below a namespace that has a parent, is removed, and comes back as a root before its child has been reconciled,
      the namespaces further down are never told: their labels go on to show what used to be above. */
  lemma ReturnLosesGrandchild(p: Name, r: Name, c: Name, g: Name, excluded: set<Name>) returns (hs: seq<Happening>)
    requires Four(p, r, c, g) && {p, r, c, g, NO_NAME} !! excluded
    ensures LegalRun(hs, excluded) && g in Lost(hs, excluded)
    ensures var s := RunTo(hs, excluded); s.waiting == {} && H.Known(s.state, g) && !Labelled(s.state, g)
  {
    var steps := LineGrows(p, r, c, g, excluded);
    GrowsSilently(steps, excluded);
    hs := LineRemoved(Silently(steps), p, r, c, g, excluded);
    hs := LineReconciled(hs, p, r, c, g, r, NO_NAME, {c}, excluded);
    hs := LineReconciled(hs, p, r, c, g, c, r, {}, excluded);
    hs := LineReconciled(hs, p, r, c, g, p, NO_NAME, {}, excluded);
    assert RunTo(hs, excluded).waiting == {};
    QuietLabelsIff(hs, excluded, g);
  }
}
