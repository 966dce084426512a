/** What a reconcile makes of a namespace, in terms of what it reads. */
module SyncedEntry {
  import opened Names
  import opened ParentLinks
  import opened Objects
  import opened Cycles
  import opened ForestState
  import opened HierarchySteps

  /** HNC manages the namespace. */
  predicate Ours(cfg: Config) {
    cfg.managedBy == "" || cfg.managedBy == META_GROUP
  }

  /** The annotation says that this is a subnamespace, and the namespace is not being deleted. */
  predicate Owned(cfg: Config) {
    Ours(cfg) && cfg.subnamespaceOf != NO_NAME && !cfg.deleting
  }

  /** The parent it should have: the owner of a subnamespace, or the configured one. */
  function Wanted(cfg: Config): Name {
    if Owned(cfg) then cfg.subnamespaceOf else cfg.parent
  }

  ghost function AnchorsOf(s: State, n: Name): seq<Name> {
    if n in s then s[n].info.anchors else []
  }

  ghost function When(b: bool, c: Condition): seq<Condition> {
    if b then [c] else []
  }

  /** A subnamespace whose owner has no anchor for it is badly configured. */
  ghost function OwnerConditions(s: State, n: Name, cfg: Config): seq<Condition> {
    When(Owned(cfg) && n !in AnchorsOf(s, cfg.subnamespaceOf), Condition(BadConfiguration, AnchorMissing))
  }

  /** A namespace is halted because its parent is excluded or not known, ... */
  ghost function ParentConditions(known: bool, p: Name, excluded: set<Name>): seq<Condition> {
    When(p in excluded, Condition(ActivitiesHalted, IllegalParent))
    + When(p !in excluded && p != NO_NAME && !known, Condition(ActivitiesHalted, ParentMissing))
  }

  /** ... because it is on a cycle, or because the CRD is being deleted. */
  ghost function CritConditions(onCycle: bool, cfg: Config): seq<Condition> {
    When(onCycle, Condition(ActivitiesHalted, InCycle))
    + When(cfg.deletingCRD, Condition(ActivitiesHalted, ForestState.DeletingCRD))
  }

  ghost function ConditionsAfter(s: State, t: State, n: Name, cfg: Config, excluded: set<Name>): seq<Condition> {
    OwnerConditions(s, n, cfg)
    + (if Ours(cfg) then ParentConditions(Known(s, Wanted(cfg)), Wanted(cfg), excluded) else [])
    + CritConditions(OnCycle(LinksOf(t), n), cfg)
  }

  /** The entry of `n` after a reconcile that leads from `s` to `t`. */
  ghost predicate Takes(s: State, t: State, n: Name, cfg: Config, excluded: set<Name>) {
    && n in t
    && t[n].parent == (if Ours(cfg) && Wanted(cfg) != NO_NAME then Some(Wanted(cfg)) else None)
    && var i := t[n].info;
      && i.present && i.cascading == cfg.cascading && i.anchors == cfg.anchors && i.isSub == Owned(cfg)
      && i.sources == (if n in s then s[n].info.sources else map[])
      && i.conditions == ConditionsAfter(s, t, n, cfg, excluded)
      && i.manager == (if Ours(cfg) then META_GROUP else cfg.managedBy)
      && i.external == (if Ours(cfg) then map[] else cfg.labels.depths[n := 0])
      && (Ours(cfg) ==> i.labels.others == cfg.labels.others)
      && (!Ours(cfg) ==> i.labels == if n in s then s[n].info.labels else Labels(map[], map[]))
  }

  lemma Added(cs: seq<Condition>, b: bool, c: Condition)
    ensures cs + When(b, c) == if b then cs + [c] else cs
  {
  }

  lemma AddedTwice(cs: seq<Condition>, a: bool, c: Condition, b: bool, d: Condition)
    ensures cs + (When(a, c) + When(b, d)) == (cs + When(a, c)) + When(b, d)
    ensures (cs + When(a, c)) + When(b, d) ==
      if a then (if b then cs + [c] + [d] else cs + [c]) else if b then cs + [d] else cs
  {
    Added(cs, a, c);
    Added(cs + When(a, c), b, d);
  }

  /** What is read from the namespace, ... */
  lemma ExternalTaken(s: State, n: Name, cfg: Config)
    requires n != NO_NAME && NO_NAME !in s
    ensures var t := AfterExternal(s, n, cfg);
      && n in t && NO_NAME !in t && (t[n].info.external.Keys != {} <==> !Ours(cfg))
      && t[n] == Touch(s, n)[n].(info := Touch(s, n)[n].info.(conditions := [],
           manager := if Ours(cfg) then META_GROUP else cfg.managedBy,
           external := if Ours(cfg) then map[] else cfg.labels.depths[n := 0]))
      && forall o :: AnchorsOf(t, o) == AnchorsOf(s, o)
  {
    assert n in cfg.labels.depths[n := 0];
  }

  /** ... its subnamespace annotation, ... */
  lemma OwnerTaken(s: State, n: Name, cfg: Config)
    requires n in s && NO_NAME !in s && (s[n].info.external.Keys != {} <==> !Ours(cfg))
    ensures var t := SyncSubnamespace(s, n, cfg);
      && n in t && t[n] == s[n].(info := s[n].info.(isSub := Owned(cfg),
           conditions := s[n].info.conditions + OwnerConditions(s, n, cfg)))
  {
    Added(s[n].info.conditions, Owned(cfg) && n !in AnchorsOf(s, cfg.subnamespaceOf),
      Condition(BadConfiguration, AnchorMissing));
  }

  lemma FirstTaken(s: State, n: Name, cfg: Config)
    requires n != NO_NAME && NO_NAME !in s
    ensures var t, i := AfterSubnamespace(s, n, cfg), Touch(s, n)[n].info;
      && n in t && t[n].parent == Touch(s, n)[n].parent && ParentFor(s, n, cfg) == Wanted(cfg)
      && (t[n].info.external.Keys != {} <==> !Ours(cfg))
      && t[n].info == i.(isSub := Owned(cfg),
           manager := if Ours(cfg) then META_GROUP else cfg.managedBy,
           external := if Ours(cfg) then map[] else cfg.labels.depths[n := 0],
           conditions := OwnerConditions(s, n, cfg))
  {
    ExternalTaken(s, n, cfg);
    OwnerTaken(AfterExternal(s, n, cfg), n, cfg);
    assert OwnerConditions(AfterExternal(s, n, cfg), n, cfg) == OwnerConditions(s, n, cfg);
    assert [] + OwnerConditions(s, n, cfg) == OwnerConditions(s, n, cfg);
  }

  /** ... the parent, ... */
  lemma ParentTaken(s: State, n: Name, p: Name, excluded: set<Name>)
    requires n in s && MissingAreRoots(s) && NO_NAME !in s
    ensures var t := SyncParent(s, n, p, excluded);
      && n in t && t[n] == if s[n].info.external.Keys != {} then Node(None, s[n].info)
        else Node(Named(p), s[n].info.(conditions := s[n].info.conditions + ParentConditions(Known(s, p), p, excluded)))
  {
    var cs := s[n].info.conditions;
    AddedTwice(cs, p in excluded, Condition(ActivitiesHalted, IllegalParent),
      p !in excluded && p != NO_NAME && !Known(s, p), Condition(ActivitiesHalted, ParentMissing));
    if s[n].info.external.Keys == {} {
      var s1 := ParentCondition(Touch(s, p), n, p, excluded);
      assert s1[n] == s[n].(info := s[n].info.(conditions := cs + ParentConditions(Known(s, p), p, excluded)));
    }
  }

  /** Whatever was known before, apart from `n`, still is, and nothing else. */
  lemma SameKnown(s: State, n: Name, cfg: Config, p: Name)
    requires n != NO_NAME && NO_NAME !in s
    ensures Known(AfterSubnamespace(s, n, cfg), p) <==> Known(s, p)
  {
    ExternalKeepsShape(s, n, cfg);
    SubnamespaceKeepsShape(AfterExternal(s, n, cfg), n, cfg);
  }

  lemma MiddleTaken(s: State, n: Name, cfg: Config, excluded: set<Name>)
    requires n != NO_NAME && Sound(s)
    ensures var t := AfterParent(s, n, cfg, excluded);
      && n in t && (t[n].info.external.Keys != {} <==> !Ours(cfg))
      && t[n].parent == (if Ours(cfg) && Wanted(cfg) != NO_NAME then Some(Wanted(cfg)) else None)
      && t[n].info == Touch(s, n)[n].info.(isSub := Owned(cfg), present := true,
           anchors := cfg.anchors, cascading := cfg.cascading,
           manager := if Ours(cfg) then META_GROUP else cfg.managedBy,
           external := if Ours(cfg) then map[] else cfg.labels.depths[n := 0],
           conditions := OwnerConditions(s, n, cfg)
             + if Ours(cfg) then ParentConditions(Known(s, Wanted(cfg)), Wanted(cfg), excluded) else [])
  {
    FirstTaken(s, n, cfg);
    EarlyStagesKeepLinks(s, n, cfg);
    ParentTaken(AfterSubnamespace(s, n, cfg), n, Wanted(cfg), excluded);
    SpecTaken(SyncParent(AfterSubnamespace(s, n, cfg), n, Wanted(cfg), excluded), n, cfg);
    SameKnown(s, n, cfg, Wanted(cfg));
    assert OwnerConditions(s, n, cfg) + [] == OwnerConditions(s, n, cfg);
  }

  lemma SpecTaken(s: State, n: Name, cfg: Config)
    requires n in s
    ensures n in SyncSpec(s, n, cfg) && SyncSpec(s, n, cfg)[n] == s[n].(info := s[n].info.(present := true,
      anchors := cfg.anchors, cascading := cfg.cascading))
  {
  }

  lemma StagesTaken(s: State, n: Name, cfg: Config, excluded: set<Name>)
    requires n != NO_NAME && Sound(s)
    ensures var t := AfterCrit(s, n, cfg, excluded);
      && n in t && t[n].parent == AfterParent(s, n, cfg, excluded)[n].parent
      && (t[n].info.external.Keys != {} <==> !Ours(cfg))
      && t[n].info == AfterParent(s, n, cfg, excluded)[n].info.(conditions := ConditionsAfter(s, t, n, cfg, excluded))
  {
    MiddleTaken(s, n, cfg, excluded);
    CritTaken(AfterParent(s, n, cfg, excluded), n, cfg);
  }

  lemma CritTaken(s: State, n: Name, cfg: Config)
    requires n in s
    ensures var t := SyncCrit(s, n, cfg);
      && LinksOf(t) == LinksOf(s) && n in t && t[n].parent == s[n].parent
      && t[n].info == s[n].info.(conditions := s[n].info.conditions + CritConditions(OnCycle(LinksOf(t), n), cfg))
  {
    AddedTwice(s[n].info.conditions, OnCycle(LinksOf(s), n), Condition(ActivitiesHalted, InCycle),
      cfg.deletingCRD, Condition(ActivitiesHalted, ForestState.DeletingCRD));
    assert LinksOf(SyncCrit(s, n, cfg)) == LinksOf(s);
  }

  /** What a reconcile makes of the entry of `n`: its parent, its conditions and everything else that is read from the
      namespace and its configuration. The depth labels are the subject of `LabelSync.TreeLabelsBelow`. */
  lemma SyncTakes(s: State, n: Name, cfg: Config, excluded: set<Name>)
    requires n != NO_NAME && Sound(s)
    ensures Takes(s, Sync(s, n, cfg, excluded), n, cfg, excluded)
  {
    var u, t := AfterCrit(s, n, cfg, excluded), Sync(s, n, cfg, excluded);
    MiddleTaken(s, n, cfg, excluded);
    StagesTaken(s, n, cfg, excluded);
    SyncKeepsSound(s, n, cfg, excluded);
    WalkFromHit(LinksOf(u), Crits(u), n);
    LabelTaken(u, n, cfg);
  }

  lemma LabelTaken(s: State, n: Name, cfg: Config)
    requires n in s && WalkEnds(LinksOf(s), Crits(s), n)
    ensures var t := SyncLabel(s, n, cfg);
      && LinksOf(t) == LinksOf(s) && n in t && t[n].parent == s[n].parent
      && t[n].info == s[n].info.(labels := t[n].info.labels)
      && (s[n].info.external.Keys == {} ==> t[n].info.labels.others == cfg.labels.others)
      && (s[n].info.external.Keys != {} ==> t[n].info.labels == s[n].info.labels)
  {
    assert LinksOf(SyncLabel(s, n, cfg)) == LinksOf(s);
  }

  /** So it is halted exactly if its parent is excluded or not known, if it is on a cycle, or if the CRD is being
      deleted. */
  lemma HaltedIff(s: State, n: Name, cfg: Config, excluded: set<Name>)
    requires n != NO_NAME && Sound(s)
    ensures var t := Sync(s, n, cfg, excluded);
      n in Crits(t) <==>
        || (Ours(cfg) && (Wanted(cfg) in excluded || (Wanted(cfg) != NO_NAME && !Known(s, Wanted(cfg)))))
        || OnCycle(LinksOf(t), n) || cfg.deletingCRD
  {
    SyncTakes(s, n, cfg, excluded);
    var t := Sync(s, n, cfg, excluded);
    var a, d := OwnerConditions(s, n, cfg), CritConditions(OnCycle(LinksOf(t), n), cfg);
    var b := if Ours(cfg) then ParentConditions(Known(s, Wanted(cfg)), Wanted(cfg), excluded) else [];
    CritIn(a + b, d);
    CritIn(a, b);
    FewConditions(s, n, cfg, OnCycle(LinksOf(t), n), Known(s, Wanted(cfg)), Wanted(cfg), excluded);
  }

  lemma FewConditions(s: State, n: Name, cfg: Config, onCycle: bool, known: bool, p: Name, excluded: set<Name>)
    ensures !HasCrit(OwnerConditions(s, n, cfg))
    ensures HasCrit(ParentConditions(known, p, excluded)) <==> p in excluded || (p != NO_NAME && !known)
    ensures HasCrit(CritConditions(onCycle, cfg)) <==> onCycle || cfg.deletingCRD
  {
    var b, d := ParentConditions(known, p, excluded), CritConditions(onCycle, cfg);
    if b != [] { assert IsCrit(b[0]); }
    if d != [] { assert IsCrit(d[0]); }
  }

  lemma CritIn(a: seq<Condition>, b: seq<Condition>)
    ensures HasCrit(a + b) <==> HasCrit(a) || HasCrit(b)
  {
    if i :| 0 <= i < |a + b| && IsCrit((a + b)[i]) {
      if i < |a| { assert IsCrit(a[i]); } else { assert IsCrit(b[i - |a|]); }
    }
    if i :| 0 <= i < |a| && IsCrit(a[i]) { assert IsCrit((a + b)[i]); }
    if i :| 0 <= i < |b| && IsCrit(b[i]) { assert IsCrit((a + b)[|a| + i]); }
  }
}
