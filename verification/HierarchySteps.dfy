/** The locked sections of the hierarchy reconciler as steps on the name-level forest, and what every
    run of such steps keeps. */
module HierarchySteps {
  import opened Names
  import opened ParentLinks
  import opened Objects
  import opened Cycles
  import opened ForestState

  /** What a reconcile reads from the namespace and from its hierarchy configuration. */
  datatype Config = Config(
    managedBy: string,
    subnamespaceOf: Name,
    deleting: bool,
    parent: Name,
    cascading: bool,
    anchors: seq<Name>,
    labels: Labels,
    deletingCRD: bool)

  ghost function WithInfo(s: State, n: Name, info: Info): State
    requires n in s
  {
    s[n := Node(s[n].parent, info)]
  }

  ghost function AddCondition(s: State, n: Name, reason: Reason, tp: ConditionType): State
    requires n in s
  {
    WithInfo(s, n, s[n].info.(conditions := s[n].info.conditions + [Condition(tp, reason)]))
  }

  predicate ManagedByHnc(cfg: Config) {
    cfg.managedBy == "" || cfg.managedBy == META_GROUP
  }

  /** The first lines of `syncWithForest` and `syncExternalNamespace`. */
  ghost function SyncExternal(s: State, n: Name, cfg: Config): State
    requires n in s
  {
    WithInfo(s, n, ExternalInfo(s[n].info.(conditions := []), n, cfg))
  }

  function ExternalInfo(info: Info, n: Name, cfg: Config): Info {
    if ManagedByHnc(cfg) then info.(manager := META_GROUP, external := map[])
    else info.(manager := cfg.managedBy, external := cfg.labels.depths[n := 0])
  }

  /** The subnamespace-of annotation, ignored while the namespace is being deleted. */
  function Owner(cfg: Config): Name {
    if cfg.subnamespaceOf != NO_NAME && cfg.deleting then NO_NAME else cfg.subnamespaceOf
  }

  /** `syncSubnamespaceParent`: its effect on the forest ... */
  ghost function SyncSubnamespace(s: State, n: Name, cfg: Config): State
    requires n in s
  {
    var o := Owner(cfg);
    if s[n].info.external.Keys != {} || o == NO_NAME then WithInfo(s, n, s[n].info.(isSub := false))
    else
      var s1 := Touch(WithInfo(s, n, s[n].info.(isSub := true)), o);
      if n in s1[o].info.anchors then s1 else AddCondition(s1, n, AnchorMissing, BadConfiguration)
  }

  /** ... and on the configured parent. */
  function ConfiguredParent(external: bool, cfg: Config): Name {
    if external || Owner(cfg) == NO_NAME then cfg.parent else Owner(cfg)
  }

  function Named(p: Name): Option<Name> {
    if p == NO_NAME then None else Some(p)
  }

  /** The condition that `syncParent` puts on `n`, if any. */
  ghost function ParentCondition(s: State, n: Name, p: Name, excluded: set<Name>): State
    requires n in s
  {
    if p in excluded then AddCondition(s, n, IllegalParent, ActivitiesHalted)
    else if p in s && !s[p].info.present then AddCondition(s, n, ParentMissing, ActivitiesHalted)
    else s
  }

  /** `syncParent`. */
  ghost function SyncParent(s: State, n: Name, p: Name, excluded: set<Name>): State
    requires n in s && MissingAreRoots(s)
  {
    if s[n].info.external.Keys != {} then Reparent(s, n, None)
    else
      var s1 := ParentCondition(Touch(s, p), n, p, excluded);
      if s1[n].parent == Named(p) then s1 else Reparent(s1, n, Named(p))
  }

  /** `markExisting`, `syncAnchors` and the cascading-deletion flag. */
  ghost function SyncSpec(s: State, n: Name, cfg: Config): State
    requires n in s
  {
    WithInfo(s, n, s[n].info.(present := true, anchors := cfg.anchors, cascading := cfg.cascading))
  }

  /** `syncCritConditions`. */
  ghost function SyncCrit(s: State, n: Name, cfg: Config): State
    requires n in s
  {
    var s1 := if OnCycle(LinksOf(s), n) then AddCondition(s, n, InCycle, ActivitiesHalted) else s;
    if cfg.deletingCRD then AddCondition(s1, n, DeletingCRD, ActivitiesHalted) else s1
  }

  // ----- Tree-depth labels -----

  ghost function Externals(s: State): set<Name> {
    set n | n in s && s[n].info.external.Keys != {}
  }

  /** Where the walk of `syncLabel` stops. */
  ghost function Stops(s: State): set<Name> {
    Crits(s) + Externals(s)
  }

  /** Ancestor name -> distance, along the walk from `n` up to and including its stop. */
  ghost function Depths(l: Links, stop: set<Name>, n: Name, d: nat): map<Name, int>
    requires WalkEnds(l, stop, n)
    decreases WalkLength(l, stop, n)
  {
    if n in stop || n !in l then map[n := d]
    else
      WalkStep(l, stop, n);
      map[n := d] + Depths(l, stop, l[n], d + 1)
  }

  /** The number of links to the last namespace of the walk. */
  ghost function StopAt(l: Links, stop: set<Name>, n: Name): nat
    requires WalkEnds(l, stop, n)
  {
    var k := WalkLength(l, stop, n);
    if Up(l, n, k).None? then k - 1 else k
  }

  lemma StopIsSome(l: Links, stop: set<Name>, n: Name)
    requires WalkEnds(l, stop, n)
    ensures Up(l, n, StopAt(l, stop, n)).Some?
  {
    var k := WalkLength(l, stop, n);
    if Up(l, n, k).None? {
      assert Up(l, n, 0) == Some(n);
      assert !WalkOver(l, stop, n, k - 1);
    }
  }

  /** The tree-depth labels of `n` according to the forest. */
  ghost function TreeLabels(s: State, n: Name): map<Name, int>
    requires n in s && WalkEnds(LinksOf(s), Crits(s), n)
  {
    var l, stop := LinksOf(s), Stops(s);
    CritWalkStops(s, n);
    StopIsSome(l, stop, n);
    var k := StopAt(l, stop, n);
    var top := Up(l, n, k).value;
    Depths(l, stop, n, 0) +
    (if top in s && top !in Crits(s) then Shifted(s[top].info.external, k) else map[])
  }

  function Shifted(m: map<Name, int>, k: int): map<Name, int> {
    map x | x in m :: m[x] + k
  }

  lemma CritWalkStops(s: State, n: Name)
    requires WalkEnds(LinksOf(s), Crits(s), n)
    ensures WalkEnds(LinksOf(s), Stops(s), n)
  {
    var k: nat :| WalkOver(LinksOf(s), Crits(s), n, k);
    assert WalkOver(LinksOf(s), Stops(s), n, k);
  }

  /** `a` is met after `k` links on the walk from `n`, before or where it stops. */
  ghost predicate MetAt(l: Links, stop: set<Name>, n: Name, a: Name, k: nat)
    requires WalkEnds(l, stop, n)
  {
    k <= StopAt(l, stop, n) && Up(l, n, k) == Some(a)
  }

  /** Without an external ancestor, the labels are exactly ancestor name -> distance, cut at and
      including the first critical one. */
  lemma {:induction false} DepthsExact(l: Links, stop: set<Name>, n: Name, d: nat, a: Name)
    requires WalkEnds(l, stop, n)
    ensures a in Depths(l, stop, n, d) <==> exists k: nat :: MetAt(l, stop, n, a, k)
    ensures forall k: nat | MetAt(l, stop, n, a, k) ::
      a in Depths(l, stop, n, d) && Depths(l, stop, n, d)[a] == d + k
    decreases WalkLength(l, stop, n)
  {
    var m := Depths(l, stop, n, d);
    var last := StopAt(l, stop, n);
    StopIsSome(l, stop, n);
    assert Up(l, n, 0) == Some(n);
    if n in stop || n !in l {
      assert WalkOver(l, stop, n, 0) || WalkOver(l, stop, n, 1);
      assert last == 0;
      if a == n { assert MetAt(l, stop, n, a, 0); }
    } else {
      WalkStep(l, stop, n);
      assert !WalkOver(l, stop, n, 0);
      var p := l[n];
      DepthsExact(l, stop, p, d + 1, a);
      StopStep(l, stop, n);
      NotMetAgain(l, stop, n, last);
      forall k: nat ensures MetAt(l, stop, n, a, k + 1) <==> MetAt(l, stop, p, a, k) { UpFirst(l, n, k); }
      if a == n {
        assert MetAt(l, stop, n, a, 0);
      } else if a in m {
        var k: nat :| MetAt(l, stop, p, a, k);
        assert MetAt(l, stop, n, a, k + 1);
      }
      forall k: nat | MetAt(l, stop, n, a, k) ensures a in m && m[a] == d + k {
        if k > 0 { assert MetAt(l, stop, n, a, k - 1 + 1) && MetAt(l, stop, p, a, k - 1); }
      }
    }
  }

  /** A walk that ends does not come back to where it started. */
  lemma NotMetAgain(l: Links, stop: set<Name>, n: Name, last: nat)
    requires WalkEnds(l, stop, n) && n !in stop
    ensures forall k: nat | k > 0 :: k <= WalkLength(l, stop, n) ==> Up(l, n, k) != Some(n)
  {
    var w := WalkLength(l, stop, n);
    forall k: nat | 0 < k <= w ensures Up(l, n, k) != Some(n) {
      if Up(l, n, k) == Some(n) {
        UpAdd(l, n, k, w - k);
        assert WalkOver(l, stop, n, w - k);
      }
    }
  }

  /** The loop of `syncLabel` has come from `n` to `a` by `k` links and has collected `m`. */
  ghost predicate Walking(l: Links, stop: set<Name>, n: Name, a: Name, k: nat, m: map<Name, int>)
    requires WalkEnds(l, stop, n)
  {
    && WalkEnds(l, stop, a) && Up(l, n, k) == Some(a)
    && m + Depths(l, stop, a, k) == Depths(l, stop, n, 0)
    && StopAt(l, stop, n) == k + StopAt(l, stop, a)
  }

  lemma WalkStarts(l: Links, stop: set<Name>, n: Name)
    requires WalkEnds(l, stop, n)
    ensures Walking(l, stop, n, n, 0, map[])
  {
    assert Up(l, n, 0) == Some(n);
  }

  /** One turn of the loop: where it stops, the depths are complete ... */
  lemma WalkStops(l: Links, stop: set<Name>, n: Name, a: Name, k: nat, m: map<Name, int>)
    requires WalkEnds(l, stop, n) && Walking(l, stop, n, a, k, m)
    requires a in stop || a !in l
    ensures Depths(l, stop, n, 0) == m[a := k] && StopAt(l, stop, n) == k && Up(l, n, k) == Some(a)
  {
    StopsAtOnce(l, stop, a);
    assert Depths(l, stop, a, k) == map[a := k];
  }

  lemma StopsAtOnce(l: Links, stop: set<Name>, a: Name)
    requires WalkEnds(l, stop, a) && (a in stop || a !in l)
    ensures StopAt(l, stop, a) == 0
  {
    assert Up(l, a, 0) == Some(a);
    if a in stop {
      assert WalkOver(l, stop, a, 0);
    } else {
      assert !WalkOver(l, stop, a, 0) && WalkOver(l, stop, a, 1);
    }
  }

  /** ... and otherwise it goes on to the parent. */
  lemma WalkGoesOn(l: Links, stop: set<Name>, n: Name, a: Name, k: nat, m: map<Name, int>)
    requires WalkEnds(l, stop, n) && Walking(l, stop, n, a, k, m)
    requires a !in stop && a in l
    ensures Walking(l, stop, n, l[a], k + 1, m[a := k])
    ensures WalkLength(l, stop, a) == WalkLength(l, stop, l[a]) + 1
  {
    WalkStep(l, stop, a);
    StopStep(l, stop, a);
    DepthsStep(l, stop, a, k, m);
  }

  lemma DepthsStep(l: Links, stop: set<Name>, a: Name, k: nat, m: map<Name, int>)
    requires WalkEnds(l, stop, a) && a !in stop && a in l && WalkEnds(l, stop, l[a])
    ensures m[a := k] + Depths(l, stop, l[a], k + 1) == m + Depths(l, stop, a, k)
  {
    assert Depths(l, stop, a, k) == map[a := k] + Depths(l, stop, l[a], k + 1);
  }

  lemma TreeLabelsAre(s: State, n: Name, a: Name, k: nat)
    requires n in s && a in s && WalkEnds(LinksOf(s), Crits(s), n) && WalkEnds(LinksOf(s), Stops(s), n)
    requires StopAt(LinksOf(s), Stops(s), n) == k && Up(LinksOf(s), n, k) == Some(a)
    ensures TreeLabels(s, n) ==
      if a in Externals(s) && a !in Crits(s)
      then Depths(LinksOf(s), Stops(s), n, 0) + Shifted(s[a].info.external, k)
      else Depths(LinksOf(s), Stops(s), n, 0)
  {
  }

  lemma StopStep(l: Links, stop: set<Name>, n: Name)
    requires WalkEnds(l, stop, n) && n !in stop && n in l
    ensures WalkEnds(l, stop, l[n]) && StopAt(l, stop, n) == StopAt(l, stop, l[n]) + 1
  {
    WalkStep(l, stop, n);
    UpFirst(l, n, WalkLength(l, stop, l[n]));
    StopIsSome(l, stop, l[n]);
  }

  /** `syncLabel`, for a walk that ends. */
  ghost function SyncLabel(s: State, n: Name, cfg: Config): State
    requires n in s && WalkEnds(LinksOf(s), Crits(s), n)
  {
    if s[n].info.external.Keys != {} then s
    else WithInfo(s, n, s[n].info.(labels := Labels(TreeLabels(s, n), cfg.labels.others)))
  }

  // ----- The locked sections -----

  /** `syncWithForest`, stage by stage: what is read from the namespace, ... */
  ghost function AfterExternal(s: State, n: Name, cfg: Config): State
    requires n != NO_NAME
  {
    SyncExternal(Touch(s, n), n, cfg)
  }

  /** ... the subnamespace annotation, ... */
  ghost function AfterSubnamespace(s: State, n: Name, cfg: Config): State
    requires n != NO_NAME
  {
    SyncSubnamespace(AfterExternal(s, n, cfg), n, cfg)
  }

  ghost function ParentFor(s: State, n: Name, cfg: Config): Name
    requires n != NO_NAME
  {
    ConfiguredParent(AfterExternal(s, n, cfg)[n].info.external.Keys != {}, cfg)
  }

  /** ... the parent and the rest of the configuration, ... */
  ghost function AfterParent(s: State, n: Name, cfg: Config, excluded: set<Name>): State
    requires n != NO_NAME && WellFormed(s)
  {
    EarlyStagesKeepLinks(s, n, cfg);
    SyncSpec(SyncParent(AfterSubnamespace(s, n, cfg), n, ParentFor(s, n, cfg), excluded), n, cfg)
  }

  /** ... and the critical conditions. */
  ghost function AfterCrit(s: State, n: Name, cfg: Config, excluded: set<Name>): State
    requires n != NO_NAME && WellFormed(s)
  {
    SyncCrit(AfterParent(s, n, cfg, excluded), n, cfg)
  }

  /** `syncWithForest`. */
  ghost function Sync(s: State, n: Name, cfg: Config, excluded: set<Name>): State
    requires n != NO_NAME && Sound(s)
  {
    var s1 := AfterCrit(s, n, cfg, excluded);
    SyncKeepsSound(s, n, cfg, excluded);
    WalkFromHit(LinksOf(s1), Crits(s1), n);
    SyncLabel(s1, n, cfg)
  }

  /** `onMissingNamespace`. */
  ghost function Remove(s: State, n: Name): State
    requires n != NO_NAME && WellFormed(s)
  {
    var s1 := Touch(s, n);
    if s1[n].info.present then Unset(s1, n) else s1
  }

  /** What holds whenever the forest lock is free: no dangling parent, no parent of a missing
      namespace, no parent of an external namespace, and a halted member on every cycle. */
  ghost predicate Sound(s: State) {
    && WellFormed(s)
    && (forall n | n in s && s[n].info.external.Keys != {} :: s[n].parent.None?)
    && EveryCycleHit(LinksOf(s), Crits(s))
  }

  /** `t` is `s` with other information about `n` only, and perhaps more blank entries. */
  ghost predicate SameShape(s: State, t: State, n: Name) {
    && n in t && s.Keys <= t.Keys
    && t[n].parent == (if n in s then s[n].parent else None)
    && (n in s ==> t[n].info.present == s[n].info.present)
    && (forall x | x in s && x != n :: t[x] == s[x])
    && (forall x | x in t && x !in s && x != n :: t[x] == EMPTY)
    && NO_NAME !in t
  }

  lemma ShapeKept(s: State, t: State, n: Name)
    requires SameShape(s, t, n) && WellFormed(s)
    ensures WellFormed(t) && LinksOf(t) == LinksOf(s)
    ensures forall x | x != n :: x in Crits(t) <==> x in Crits(s)
  {
    ShapeKeepsLinks(s, t, n);
    forall x | x in t ensures ParentIn(t, x) {
      if x in s { assert ParentIn(s, x); }
    }
  }

  lemma ShapeKeepsLinks(s: State, t: State, n: Name)
    requires SameShape(s, t, n)
    ensures LinksOf(t) == LinksOf(s)
  {
  }

  lemma EarlyStagesKeepLinks(s: State, n: Name, cfg: Config)
    requires n != NO_NAME && WellFormed(s)
    ensures var t := AfterSubnamespace(s, n, cfg);
      n in t && WellFormed(t) && LinksOf(t) == LinksOf(s) && forall x | x != n :: x in Crits(t) <==> x in Crits(s)
  {
    var t1 := AfterExternal(s, n, cfg);
    ExternalKeepsShape(s, n, cfg);
    ShapeKept(s, t1, n);
    SubnamespaceKeepsShape(t1, n, cfg);
    ShapeKept(t1, AfterSubnamespace(s, n, cfg), n);
  }

  lemma ExternalKeepsShape(s: State, n: Name, cfg: Config)
    requires n != NO_NAME && NO_NAME !in s
    ensures SameShape(s, AfterExternal(s, n, cfg), n)
  {
  }

  lemma SubnamespaceKeepsShape(s: State, n: Name, cfg: Config)
    requires n in s && NO_NAME !in s
    ensures SameShape(s, SyncSubnamespace(s, n, cfg), n)
  {
  }

  /** Off `n`, `t` has nothing that `s` has not, apart from blank entries. */
  ghost predicate NothingNew(s: State, t: State, n: Name) {
    forall x | x in t && x != n :: if x in s then t[x] == s[x] else t[x] == EMPTY
  }

  /** Off `n`, every critical namespace with a parent is still there. */
  ghost predicate CritsSurvive(s: State, t: State, n: Name) {
    forall x | x in Crits(s) && x in LinksOf(s) && x != n :: x in Crits(t)
  }

  lemma TouchKeeps(s: State, p: Name)
    requires WellFormed(s)
    ensures WellFormed(Touch(s, p)) && LinksOf(Touch(s, p)) == LinksOf(s) && Crits(Touch(s, p)) == Crits(s)
  {
    forall x | x in Touch(s, p) ensures ParentIn(Touch(s, p), x) {
      if x in s { assert ParentIn(s, x); }
    }
  }

  lemma ReparentKeeps(s: State, n: Name, p: Option<Name>)
    requires n in s && WellFormed(s) && (p.Some? ==> p.value in s) && p != s[n].parent
    ensures var t := Reparent(s, n, p);
      && n in t && t[n] == Node(p, s[n].info) && Closed(t) && NothingNew(s, t, n) && CritsSurvive(s, t, n)
      && SameOff(LinksOf(s), LinksOf(t), n)
  {
    ReparentClosedIff(s, n, p);
    ReparentCrits(s, n, p);
    ReparentLinks(s, n, p);
    if DropsOldParent(s, n) {
      assert s[n].parent.value !in LinksOf(s);
    }
  }

  /** What one change of the parent of `n` leaves alone. */
  ghost predicate OnlyRelinks(s: State, t: State, n: Name) {
    && n in s && n in t && Closed(t) && NothingNew(s, t, n) && CritsSurvive(s, t, n)
    && SameOff(LinksOf(s), LinksOf(t), n)
  }

  /** New information about `n` alone, or a blank entry, changes no link. */
  lemma InfoOnlyRelinks(s: State, t: State, n: Name)
    requires n in s && n in t && Closed(s) && t.Keys == s.Keys && t[n].parent == s[n].parent
    requires forall x | x in s && x != n :: t[x] == s[x]
    ensures OnlyRelinks(s, t, n) && LinksOf(t) == LinksOf(s)
  {
    forall x | x in t ensures ParentIn(t, x) { assert ParentIn(s, x); }
  }

  lemma TouchOnlyRelinks(s: State, n: Name, p: Name)
    requires n in s && WellFormed(s)
    ensures OnlyRelinks(s, Touch(s, p), n) && WellFormed(Touch(s, p)) && Touch(s, p)[n] == s[n]
  {
    TouchKeeps(s, p);
  }

  lemma ParentConditionKeeps(s: State, n: Name, p: Name, excluded: set<Name>)
    requires n in s && WellFormed(s)
    ensures var t := ParentCondition(s, n, p, excluded);
      && OnlyRelinks(s, t, n) && WellFormed(t) && t.Keys == s.Keys
      && t[n].parent == s[n].parent && t[n].info.external == s[n].info.external
  {
    InfoOnlyRelinks(s, ParentCondition(s, n, p, excluded), n);
  }

  lemma SyncParentKeeps(s: State, n: Name, p: Name, excluded: set<Name>)
    requires n in s && WellFormed(s)
    ensures var t := SyncParent(s, n, p, excluded);
      && OnlyRelinks(s, t, n) && t[n].info.external == s[n].info.external
      && (t[n].info.external.Keys != {} ==> t[n].parent == None)
  {
    if s[n].info.external.Keys != {} {
      if s[n].parent == None {
        assert Reparent(s, n, None) == s;
      } else {
        ReparentKeeps(s, n, None);
      }
    } else {
      var s0 := Touch(s, p);
      var s1 := ParentCondition(s0, n, p, excluded);
      TouchOnlyRelinks(s, n, p);
      ParentConditionKeeps(s0, n, p, excluded);
      RelinksCompose(s, s0, s1, n);
      if s1[n].parent != Named(p) {
        ReparentKeeps(s1, n, Named(p));
        RelinksCompose(s, s1, Reparent(s1, n, Named(p)), n);
      }
    }
  }

  lemma RelinksCompose(s: State, t: State, u: State, n: Name)
    requires OnlyRelinks(s, t, n) && OnlyRelinks(t, u, n) && (s.Keys <= t.Keys || u.Keys <= t.Keys)
    ensures OnlyRelinks(s, u, n)
  {
  }

  lemma EarlyStagesRelink(s: State, n: Name, cfg: Config)
    requires n != NO_NAME && WellFormed(s)
    ensures OnlyRelinks(Touch(s, n), AfterSubnamespace(s, n, cfg), n)
  {
    var s0 := Touch(s, n);
    TouchKeeps(s, n);
    EarlyStagesKeepLinks(s, n, cfg);
  }

  lemma LateStagesRelink(s: State, n: Name, cfg: Config)
    requires n in s && Closed(s)
    ensures var t := SyncCrit(SyncSpec(s, n, cfg), n, cfg);
      && OnlyRelinks(s, t, n) && t[n].info.present && t[n].parent == s[n].parent
      && t[n].info.external == s[n].info.external
      && (OnCycle(LinksOf(t), n) ==> n in Crits(t))
  {
    var s1 := SyncSpec(s, n, cfg);
    var t := SyncCrit(s1, n, cfg);
    InfoOnlyRelinks(s, t, n);
    InfoOnlyRelinks(s, s1, n);
    if OnCycle(LinksOf(t), n) { SyncCritMarks(s1, n, cfg); }
  }

  lemma MiddleStagesRelink(s0: State, s: State, n: Name, p: Name, cfg: Config, excluded: set<Name>)
    requires OnlyRelinks(s0, s, n) && WellFormed(s) && s0.Keys <= s.Keys
    ensures var t := SyncCrit(SyncSpec(SyncParent(s, n, p, excluded), n, cfg), n, cfg);
      && OnlyRelinks(s0, t, n) && t[n].info.present
      && (t[n].info.external.Keys != {} ==> t[n].parent == None)
      && (OnCycle(LinksOf(t), n) ==> n in Crits(t))
  {
    var s3 := SyncParent(s, n, p, excluded);
    SyncParentKeeps(s, n, p, excluded);
    LateStagesRelink(s3, n, cfg);
    RelinksCompose(s0, s, s3, n);
    RelinksCompose(s0, s3, SyncCrit(SyncSpec(s3, n, cfg), n, cfg), n);
  }

  /** One reconcile changes the link of no other namespace, and leaves `n` present, parentless if it
      is external, and critical if it is on a cycle. */
  lemma SyncRelinks(s: State, n: Name, cfg: Config, excluded: set<Name>)
    requires n != NO_NAME && WellFormed(s)
    ensures var t := AfterCrit(s, n, cfg, excluded);
      && OnlyRelinks(Touch(s, n), t, n) && t[n].info.present
      && (t[n].info.external.Keys != {} ==> t[n].parent == None)
      && (OnCycle(LinksOf(t), n) ==> n in Crits(t))
  {
    EarlyStagesKeepLinks(s, n, cfg);
    EarlyStagesRelink(s, n, cfg);
    MiddleStagesRelink(Touch(s, n), AfterSubnamespace(s, n, cfg), n, ParentFor(s, n, cfg), cfg, excluded);
  }

  /** A reconcile keeps the forest sound. */
  lemma SyncKeepsSound(s: State, n: Name, cfg: Config, excluded: set<Name>)
    requires n != NO_NAME && Sound(s)
    ensures n in AfterCrit(s, n, cfg, excluded) && Sound(AfterCrit(s, n, cfg, excluded))
  {
    SyncRelinks(s, n, cfg, excluded);
    TouchKeeps(s, n);
    RelinkedIsSound(s, AfterCrit(s, n, cfg, excluded), n);
  }

  lemma RelinkedIsSound(s: State, t: State, n: Name)
    requires Sound(s) && WellFormed(Touch(s, n)) && LinksOf(Touch(s, n)) == LinksOf(s) && Crits(Touch(s, n)) == Crits(s)
    requires OnlyRelinks(Touch(s, n), t, n) && t[n].info.present
    requires t[n].info.external.Keys != {} ==> t[n].parent == None
    requires OnCycle(LinksOf(t), n) ==> n in Crits(t)
    ensures Sound(t)
  {
    RelinkKeepsHit(LinksOf(s), Crits(s), LinksOf(t), Crits(t), n);
  }

  lemma SyncCritMarks(s: State, n: Name, cfg: Config)
    requires n in s && OnCycle(LinksOf(s), n)
    ensures n in Crits(SyncCrit(s, n, cfg))
  {
    var cs := SyncCrit(s, n, cfg)[n].info.conditions;
    assert IsCrit(cs[|s[n].info.conditions|]);
  }

  /** Writing labels or source objects keeps the forest sound. */
  lemma OtherInfoKeepsSound(s: State, n: Name, info: Info)
    requires n in s && Sound(s)
    requires info.present == s[n].info.present && info.conditions == s[n].info.conditions
    requires info.external == s[n].info.external
    ensures Sound(WithInfo(s, n, info))
    ensures LinksOf(WithInfo(s, n, info)) == LinksOf(s) && Crits(WithInfo(s, n, info)) == Crits(s)
  {
    var t := WithInfo(s, n, info);
    forall x | x in t ensures ParentIn(t, x) { assert ParentIn(s, x); }
    assert LinksOf(t) == LinksOf(s);
    assert Crits(t) == Crits(s);
  }

  lemma UnsetKeeps(s: State, n: Name)
    requires n in s && WellFormed(s)
    ensures var t := Unset(s, n);
      && WellFormed(t) && NothingNew(s, t, n) && CritsSurvive(s, t, n)
      && SameOff(LinksOf(s), LinksOf(t), n) && n !in LinksOf(t)
      && (n in t ==> t[n].info.external == s[n].info.external)
  {
    var s1 := Reparent(s, n, None);
    ReparentClosedIff(s, n, None);
    ReparentCrits(s, n, None);
    ReparentLinks(s, n, None);
    var t := Unset(s, n);
    forall x | x in t ensures ParentIn(t, x) { assert ParentIn(s1, x); }
  }

  /** The removal of a namespace keeps the forest sound. */
  lemma RemoveKeepsSound(s: State, n: Name)
    requires n != NO_NAME && Sound(s)
    ensures Sound(Remove(s, n))
  {
    var s0 := Touch(s, n);
    TouchKeeps(s, n);
    if s0[n].info.present {
      UnsetKeeps(s0, n);
      var t := Remove(s, n);
      assert !OnCycle(LinksOf(t), n);
      RelinkKeepsHit(LinksOf(s), Crits(s), LinksOf(t), Crits(t), n);
    }
  }

  lemma EarlyStagesExternal(s: State, n: Name, cfg: Config)
    requires n != NO_NAME && WellFormed(s)
    ensures var t := AfterSubnamespace(s, n, cfg);
      n in t && (t[n].info.external.Keys == {} <==> ManagedByHnc(cfg)) && NothingNew(s, t, n)
  {
    assert !ManagedByHnc(cfg) ==> n in cfg.labels.depths[n := 0];
  }

  /** One reconcile in the eyes of the others: only `n` has changed, and there may be blank entries. */
  lemma SyncTouchesOnly(s: State, n: Name, cfg: Config, excluded: set<Name>)
    requires n != NO_NAME && Sound(s)
    ensures var t := Sync(s, n, cfg, excluded);
      && Sound(t) && n in t && t[n].info.present && SameOff(LinksOf(s), LinksOf(t), n) && NothingNew(s, t, n)
      && (t[n].info.external.Keys == {} <==> ManagedByHnc(cfg))
  {
    var t := AfterCrit(s, n, cfg, excluded);
    StagesTouchOnly(s, n, cfg, excluded);
    WalkFromHit(LinksOf(t), Crits(t), n);
    if t[n].info.external.Keys == {} {
      OtherInfoKeepsSound(t, n, t[n].info.(labels := Labels(TreeLabels(t, n), cfg.labels.others)));
    }
  }

  lemma StagesTouchOnly(s: State, n: Name, cfg: Config, excluded: set<Name>)
    requires n != NO_NAME && Sound(s)
    ensures var t := AfterCrit(s, n, cfg, excluded);
      && Sound(t) && n in t && t[n].info.present && SameOff(LinksOf(s), LinksOf(t), n) && NothingNew(s, t, n)
      && (t[n].info.external.Keys == {} <==> ManagedByHnc(cfg))
  {
    TouchKeeps(s, n);
    SyncRelinks(s, n, cfg, excluded);
    SyncKeepsSound(s, n, cfg, excluded);
    EarlyStagesExternal(s, n, cfg);
    EarlyStagesKeepLinks(s, n, cfg);
    LateStagesExternal(AfterSubnamespace(s, n, cfg), n, ParentFor(s, n, cfg), cfg, excluded);
  }

  lemma LateStagesExternal(s: State, n: Name, p: Name, cfg: Config, excluded: set<Name>)
    requires n in s && WellFormed(s)
    ensures var t := SyncCrit(SyncSpec(SyncParent(s, n, p, excluded), n, cfg), n, cfg);
      n in t && t[n].info.external == s[n].info.external
  {
    SyncParentKeeps(s, n, p, excluded);
  }

  /** After `syncLabel` the recorded labels of a namespace that HNC manages are those of the tree. */
  lemma SyncWritesLabels(s: State, n: Name, cfg: Config, excluded: set<Name>)
    requires n != NO_NAME && Sound(s) && ManagedByHnc(cfg)
    ensures var t := Sync(s, n, cfg, excluded);
      && n in t && WalkEnds(LinksOf(t), Crits(t), n)
      && t[n].info.labels == Labels(TreeLabels(t, n), cfg.labels.others)
  {
    var s1, t := AfterCrit(s, n, cfg, excluded), Sync(s, n, cfg, excluded);
    SyncTouchesOnly(s, n, cfg, excluded);
    SyncKeepsSound(s, n, cfg, excluded);
    WalkFromHit(LinksOf(s1), Crits(s1), n);
    LabelsKeepTree(s1, n, Labels(TreeLabels(s1, n), cfg.labels.others));
  }

  /** Recording labels does not change the tree that they describe. */
  lemma LabelsKeepTree(s: State, n: Name, labels: Labels)
    requires n in s && WalkEnds(LinksOf(s), Crits(s), n)
    ensures var t := WithInfo(s, n, s[n].info.(labels := labels));
      && WalkEnds(LinksOf(t), Crits(t), n) && TreeLabels(t, n) == TreeLabels(s, n)
  {
    LabelsKeepSets(s, n, labels);
    SameTreeLabels(s, WithInfo(s, n, s[n].info.(labels := labels)), n);
  }

  lemma LabelsKeepSets(s: State, n: Name, labels: Labels)
    requires n in s
    ensures var t := WithInfo(s, n, s[n].info.(labels := labels));
      LinksOf(t) == LinksOf(s) && Crits(t) == Crits(s) && Externals(t) == Externals(s)
      && t.Keys == s.Keys && forall x | x in s :: t[x].info.external == s[x].info.external
  {
  }

  lemma SameTreeLabels(s: State, t: State, n: Name)
    requires n in s && WalkEnds(LinksOf(s), Crits(s), n)
    requires LinksOf(t) == LinksOf(s) && Crits(t) == Crits(s) && Externals(t) == Externals(s)
    requires t.Keys == s.Keys && forall x | x in s :: t[x].info.external == s[x].info.external
    ensures TreeLabels(t, n) == TreeLabels(s, n)
  {
  }

  // ----- Known namespaces and orphans -----

  /** Off `n`, every known namespace is still there, unchanged. */
  ghost predicate KnownStay(s: State, t: State, n: Name) {
    forall x | x in s && x != n && s[x].info.present :: x in t && t[x] == s[x]
  }

  lemma EarlyStagesKeepKnown(s: State, n: Name, cfg: Config)
    requires n != NO_NAME && WellFormed(s)
    ensures KnownStay(s, AfterSubnamespace(s, n, cfg), n)
  {
    ExternalKeepsShape(s, n, cfg);
    SubnamespaceKeepsShape(AfterExternal(s, n, cfg), n, cfg);
  }

  lemma ParentKeepsKnown(s: State, n: Name, p: Name, excluded: set<Name>)
    requires n in s && MissingAreRoots(s)
    ensures KnownStay(s, SyncParent(s, n, p, excluded), n)
  {
    if s[n].info.external.Keys == {} {
      var s1 := ParentCondition(Touch(s, p), n, p, excluded);
      ConditionKeepsKnown(s, n, p, excluded);
      if s1[n].parent != Named(p) { ReparentKeepsKnown(s1, n, Named(p)); }
    } else {
      ReparentKeepsKnown(s, n, None);
    }
  }

  lemma ConditionKeepsKnown(s: State, n: Name, p: Name, excluded: set<Name>)
    requires n in s && MissingAreRoots(s)
    ensures var s1 := ParentCondition(Touch(s, p), n, p, excluded);
      n in s1 && MissingAreRoots(s1) && KnownStay(s, s1, n)
  {
  }

  lemma ReparentKeepsKnown(s: State, n: Name, p: Option<Name>)
    requires n in s && MissingAreRoots(s)
    ensures KnownStay(s, Reparent(s, n, p), n)
  {
  }

  /** A namespace under a parent that is not known is halted by its own reconcile. */
  lemma OrphanIsMarked(s: State, n: Name, p: Name, excluded: set<Name>)
    requires n in s && MissingAreRoots(s) && NO_NAME !in s
    ensures var t := SyncParent(s, n, p, excluded);
      && n in t
      && (t[n].parent.Some? && (t[n].parent.value !in s || !s[t[n].parent.value].info.present) ==>
        HasCrit(t[n].info.conditions))
  {
    if s[n].info.external.Keys == {} {
      var s1 := ParentCondition(Touch(s, p), n, p, excluded);
      var cs := s1[n].info.conditions;
      if p in excluded || (p in Touch(s, p) && !Touch(s, p)[p].info.present) {
        assert IsCrit(cs[|cs| - 1]);
      }
    }
  }

  lemma LateStagesKeepMark(s: State, n: Name, cfg: Config)
    requires n in s
    ensures var t := SyncCrit(SyncSpec(s, n, cfg), n, cfg);
      && n in t && t[n].parent == s[n].parent && (HasCrit(s[n].info.conditions) ==> HasCrit(t[n].info.conditions))
      && KnownStay(s, t, n) && t.Keys == s.Keys
  {
    var cs := s[n].info.conditions;
    var t := SyncCrit(SyncSpec(s, n, cfg), n, cfg);
    assert cs <= t[n].info.conditions;
    if i :| 0 <= i < |cs| && IsCrit(cs[i]) { assert IsCrit(t[n].info.conditions[i]); }
  }

  /** After a reconcile of `n` the others that were known are as they were, and `n` is halted if its
      parent is not known. */
  lemma SyncOrphans(s: State, n: Name, cfg: Config, excluded: set<Name>)
    requires n != NO_NAME && Sound(s)
    ensures var t := Sync(s, n, cfg, excluded);
      && n in t && KnownStay(s, t, n)
      && (t[n].parent.Some? && t[n].parent.value != n && !Known(s, t[n].parent.value) ==> n in Crits(t))
  {
    var s2, p := AfterSubnamespace(s, n, cfg), ParentFor(s, n, cfg);
    EarlyStagesKeepLinks(s, n, cfg);
    EarlyStagesKeepKnown(s, n, cfg);
    EarlyStagesExternal(s, n, cfg);
    ParentKeepsKnown(s2, n, p, excluded);
    OrphanIsMarked(s2, n, p, excluded);
    var s3 := SyncParent(s2, n, p, excluded);
    LateStagesKeepMark(s3, n, cfg);
    SyncTouchesOnly(s, n, cfg, excluded);
    KnownBefore(s, s2, n);
  }

  ghost predicate Known(s: State, x: Name) {
    x in s && s[x].info.present
  }

  lemma KnownBefore(s: State, t: State, n: Name)
    requires NothingNew(s, t, n)
    ensures forall x | x != n && Known(t, x) :: Known(s, x)
  {
  }

  // ----- Runs -----

  /** Everything that happens to the forest under its lock. */
  datatype Step =
    | Reconcile(n: Name, cfg: Config)
    | Disappear(n: Name)
    | Lookup(n: Name)
    | PutSources(n: Name, sources: map<Kind, map<string, Obj>>)

  /** Excluded namespaces are never reconciled; `Lookup` is any other use of `Forest.Get`. */
  ghost function Next(s: State, step: Step, excluded: set<Name>): State
    requires Sound(s)
  {
    if step.n == NO_NAME then s
    else match step
      case Reconcile(n, cfg) => if n in excluded then s else Sync(s, n, cfg, excluded)
      case Disappear(n) => Remove(s, n)
      case Lookup(n) => Touch(s, n)
      case PutSources(n, sources) => WithInfo(Touch(s, n), n, Touch(s, n)[n].info.(sources := sources))
  }

  lemma StepKeepsSound(s: State, step: Step, excluded: set<Name>)
    requires Sound(s)
    ensures Sound(Next(s, step, excluded))
  {
    var n := step.n;
    if n != NO_NAME {
      TouchKeeps(s, n);
      assert Sound(Touch(s, n));
      match step
      case Reconcile(_, cfg) =>
        if n !in excluded {
          SyncKeepsSound(s, n, cfg, excluded);
          var s1 := AfterCrit(s, n, cfg, excluded);
          if s1[n].info.external.Keys == {} {
            WalkFromHit(LinksOf(s1), Crits(s1), n);
            OtherInfoKeepsSound(s1, n, s1[n].info.(labels := Labels(TreeLabels(s1, n), cfg.labels.others)));
          }
        }
      case Disappear(_) => RemoveKeepsSound(s, n);
      case Lookup(_) =>
      case PutSources(_, sources) =>
        OtherInfoKeepsSound(Touch(s, n), n, Touch(s, n)[n].info.(sources := sources));
    }
  }

  /** The forest after a run of steps from the empty forest. */
  ghost function Run(steps: seq<Step>, excluded: set<Name>): (s: State)
    ensures Sound(s)
  {
    if steps == [] then
      assert Sound(map[]);
      map[]
    else
      StepKeepsSound(Run(steps[..|steps| - 1], excluded), steps[|steps| - 1], excluded);
      Next(Run(steps[..|steps| - 1], excluded), steps[|steps| - 1], excluded)
  }

  /** In every reachable forest every parent cycle contains a locally halted namespace, so the
      walks that have no protection against cycles end, from every namespace. */
  lemma ReachableWalksEnd(steps: seq<Step>, excluded: set<Name>, n: Name)
    ensures var s := Run(steps, excluded);
      && (OnCycle(LinksOf(s), n) ==> exists m :: m in Crits(s) && Reach(LinksOf(s), n, m))
      && WalkEnds(LinksOf(s), Crits(s), n) && WalkEnds(LinksOf(s), Stops(s), n)
  {
    var s := Run(steps, excluded);
    WalkFromHit(LinksOf(s), Crits(s), n);
    CritWalkStops(s, n);
  }

  // ----- Who must be told -----

  /** What `GetCritAncestor` answers. */
  ghost function CritAncestor(s: State, x: Name): Option<Name>
    requires EveryCycleHit(LinksOf(s), Crits(s))
  {
    WalkFromHit(LinksOf(s), Crits(s), x);
    Up(LinksOf(s), x, WalkLength(LinksOf(s), Crits(s), x))
  }

  /** Walks that see the same links and the same critical namespaces end alike. */
  lemma WalkUntouched(l: Links, crit: set<Name>, m: Links, crit': set<Name>, x: Name)
    requires WalkEnds(l, crit, x) && WalkEnds(m, crit', x)
    requires forall k: nat :: Up(m, x, k) == Up(l, x, k)
    requires forall k: nat | Up(l, x, k).Some? :: Up(l, x, k).value in crit <==> Up(l, x, k).value in crit'
    ensures Up(l, x, WalkLength(l, crit, x)) == Up(m, x, WalkLength(m, crit', x))
  {
    forall k: nat ensures WalkOver(l, crit, x, k) <==> WalkOver(m, crit', x, k) {
      assert Up(m, x, k) == Up(l, x, k);
    }
    var j, k := WalkLength(l, crit, x), WalkLength(m, crit', x);
    assert WalkOver(m, crit', x, j) && WalkOver(l, crit, x, k);
    assert Up(m, x, j) == Up(l, x, j);
  }

  /** Whose ancestry or whose halting ancestor can be changed by a reconcile of `n`: only
      descendants of `n`, and only if the parent of `n` changed or `n` itself was halted or resumed. */
  lemma WhoIsAffected(s: State, n: Name, cfg: Config, excluded: set<Name>, x: Name)
    requires n != NO_NAME && Sound(s) && Sound(AfterCrit(s, n, cfg, excluded))
    requires x != n && x in AfterCrit(s, n, cfg, excluded)
    requires var t := AfterCrit(s, n, cfg, excluded);
      Ancestry(LinksOf(s), x) != Ancestry(LinksOf(t), x) || CritAncestor(s, x) != CritAncestor(t, x)
    ensures var t := AfterCrit(s, n, cfg, excluded);
      && x in Descendants(LinksOf(s), n) && x in Descendants(LinksOf(t), n)
      && (LinksOf(s) != LinksOf(t) || (n in Crits(s) <==> n !in Crits(t)))
  {
    var t := AfterCrit(s, n, cfg, excluded);
    var l, m := LinksOf(s), LinksOf(t);
    SyncRelinks(s, n, cfg, excluded);
    TouchKeeps(s, n);
    ReachIgnoresOwnLink(l, m, n, x);
    ReachCases(l, x, n);
    ReachCases(m, x, n);
    if !Reach(l, x, n) {
      AncestryUnchanged(l, m, n, x);
      forall k: nat ensures Up(m, x, k) == Up(l, x, k) { UpUnchanged(l, m, n, x, k); }
      SeesTheSame(s, t, n, x);
    } else if l == m && (n in Crits(s) <==> n in Crits(t)) {
      SeesTheSame(s, t, n, x);
    }
  }

  /** The walk from `x` meets the same names before and after, and `n` only if nothing about it changed. */
  lemma SeesTheSame(s: State, t: State, n: Name, x: Name)
    requires Sound(s) && Sound(t) && x in t
    requires forall y | y in t && y != n :: if y in s then t[y] == s[y] else t[y] == EMPTY
    requires forall k: nat :: Up(LinksOf(t), x, k) == Up(LinksOf(s), x, k)
    requires (n in Crits(s) <==> n in Crits(t)) || !Reach(LinksOf(s), x, n)
    ensures CritAncestor(s, x) == CritAncestor(t, x)
  {
    var l, m := LinksOf(s), LinksOf(t);
    WalkFromHit(l, Crits(s), x);
    WalkFromHit(m, Crits(t), x);
    forall k: nat | Up(l, x, k).Some? ensures Up(l, x, k).value in Crits(s) <==> Up(l, x, k).value in Crits(t) {
      assert Up(m, x, k) == Up(l, x, k);
      WalkStaysIn(t, x, k);
    }
    WalkUntouched(l, Crits(s), m, Crits(t), x);
  }
}
