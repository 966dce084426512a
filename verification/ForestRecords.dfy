/** What the forest records about sources goes with the entries of namespaces. */
module ForestRecords {
  import opened Names
  import opened ParentLinks
  import opened Cycles
  import opened Objects
  import opened ForestState
  import S = HierarchySteps
  import R = ObjectReconciler
  import P = Propagation
  import M = PropagationMoves
  import B = PropagationBridge

  /** Sources are recorded only for namespaces that are known or have children. */
  ghost predicate NoneLoose(s: State) {
    forall x | x in s && s[x].info.sources != map[] :: S.Known(s, x) || ChildrenOf(s, x) != {}
  }

  // ----- What a reconcile does to them -----

  lemma EarlyKeepSources(s: State, n: Name, cfg: S.Config)
    requires n != NO_NAME && NO_NAME !in s
    ensures var t := S.AfterSubnamespace(s, n, cfg);
      && n in t && t[n].info.sources == Touch(s, n)[n].info.sources && t[n].parent == Touch(s, n)[n].parent
      && forall x | x in s && x != n :: x in t && t[x] == s[x]
  {
    S.ExternalKeepsShape(s, n, cfg);
    S.SubnamespaceKeepsShape(S.AfterExternal(s, n, cfg), n, cfg);
    SubnamespaceKeepsSources(S.AfterExternal(s, n, cfg), n, cfg);
  }

  lemma SubnamespaceKeepsSources(s: State, n: Name, cfg: S.Config)
    requires n in s && NO_NAME !in s
    ensures var t := S.SyncSubnamespace(s, n, cfg); n in t && t[n].info.sources == s[n].info.sources
  {
  }

  /** A parent that is not known, and is left by its only child, is dropped. */
  lemma ReparentDrops(s: State, n: Name, p: Option<Name>, x: Name)
    requires n in s && MissingAreRoots(s) && x != n && p != s[n].parent
    ensures var t := Reparent(s, n, p);
      && n in t && t[n] == Node(p, s[n].info)
      && (x in s && !S.Known(s, x) && ChildrenOf(s, x) != {} && ChildrenOf(t, x) == {} ==> x !in t)
  {
    var t := Reparent(s, n, p);
    if x in s && !S.Known(s, x) && ChildrenOf(s, x) != {} && ChildrenOf(t, x) == {} {
      forall c | c in ChildrenOf(s, x) && c != n ensures c !in t || t[c].parent != Some(x) {
        assert c !in ChildrenOf(t, x);
      }
      var c :| c in ChildrenOf(s, x);
      assert ChildrenOf(s, x) == {n};
    }
  }

  lemma ParentDrops(s: State, n: Name, p: Name, excluded: set<Name>, x: Name)
    requires n in s && WellFormed(s) && x != n
    ensures var t := S.SyncParent(s, n, p, excluded);
      && n in t && t[n].info.sources == s[n].info.sources
      && (x in s && !S.Known(s, x) && ChildrenOf(s, x) != {} && ChildrenOf(t, x) == {} ==> x !in t)
  {
    if s[n].info.external.Keys != {} {
      if s[n].parent != None { ReparentDrops(s, n, None, x); }
    } else {
      var s1 := S.ParentCondition(Touch(s, p), n, p, excluded);
      ConditionKeepsChildren(s, n, p, excluded, x);
      if s1[n].parent != S.Named(p) { ReparentDrops(s1, n, S.Named(p), x); }
    }
  }

  lemma ConditionKeepsChildren(s: State, n: Name, p: Name, excluded: set<Name>, x: Name)
    requires n in s && WellFormed(s) && x != n
    ensures var t := S.ParentCondition(Touch(s, p), n, p, excluded);
      && n in t && MissingAreRoots(t) && t[n].info.sources == s[n].info.sources && ChildrenOf(t, x) == ChildrenOf(s, x)
      && (x in s ==> x in t && t[x] == s[x])
  {
  }

  lemma LateKeepSources(s: State, n: Name, cfg: S.Config, x: Name)
    requires n in s && x != n
    ensures var t := S.SyncCrit(S.SyncSpec(s, n, cfg), n, cfg);
      && n in t && t[n].info.sources == s[n].info.sources && ChildrenOf(t, x) == ChildrenOf(s, x)
      && (x in t <==> x in s)
  {
  }

  lemma LabelKeepsSources(s: State, n: Name, cfg: S.Config, x: Name)
    requires n in s && x != n && WalkEnds(LinksOf(s), Crits(s), n)
    ensures var t := S.SyncLabel(s, n, cfg);
      && n in t && t[n].info.sources == s[n].info.sources && ChildrenOf(t, x) == ChildrenOf(s, x)
      && (x in t <==> x in s)
  {
  }

  /** After a reconcile of `n`, a namespace that is not known and has lost its last child has no entry. */
  lemma SyncDrops(s: State, n: Name, cfg: S.Config, excluded: set<Name>, x: Name)
    requires n != NO_NAME && S.Sound(s) && x != n
    ensures var t := S.Sync(s, n, cfg, excluded);
      && n in t && t[n].info.sources == Touch(s, n)[n].info.sources
      && (x in s && !S.Known(s, x) && ChildrenOf(s, x) != {} && ChildrenOf(t, x) == {} ==> x !in t)
  {
    var s2, p := S.AfterSubnamespace(s, n, cfg), S.ParentFor(s, n, cfg);
    S.EarlyStagesKeepLinks(s, n, cfg);
    EarlyKeepSources(s, n, cfg);
    SameLinksSameChildren(s, s2, x);
    ParentDrops(s2, n, p, excluded, x);
    LateKeepSources(S.SyncParent(s2, n, p, excluded), n, cfg, x);
    var s1 := S.AfterCrit(s, n, cfg, excluded);
    S.SyncKeepsSound(s, n, cfg, excluded);
    WalkFromHit(LinksOf(s1), Crits(s1), n);
    LabelKeepsSources(s1, n, cfg, x);
  }

  lemma SameLinksSameChildren(s: State, t: State, x: Name)
    requires LinksOf(s) == LinksOf(t)
    ensures ChildrenOf(s, x) == ChildrenOf(t, x)
  {
    assert forall c :: c in ChildrenOf(s, x) <==> c in LinksOf(s) && LinksOf(s)[c] == x;
    assert forall c :: c in ChildrenOf(t, x) <==> c in LinksOf(t) && LinksOf(t)[c] == x;
  }

  /** Namespaces that are not known and have lost their last child have no entry any more. */
  ghost predicate Drops(s: State, t: State, x: Name) {
    x in s && !S.Known(s, x) && ChildrenOf(s, x) != {} && ChildrenOf(t, x) == {} ==> x !in t
  }

  // ----- Records of sources -----

  /** From `s` to `t` only the information about `n` and its parent change, and entries without use are dropped. */
  ghost predicate OnlyDrops(s: State, t: State, n: Name) {
    && Closed(t) && S.NothingNew(s, t, n) && B.SameWhenKnown(s, t, n)
    && (forall x | x != n :: Drops(s, t, x))
    && (n in t ==> t[n].info.sources == Touch(s, n)[n].info.sources && (S.Known(t, n) || ChildrenOf(t, n) != {}))
  }

  ghost predicate InUse(t: State, x: Name) {
    S.Known(t, x) || ChildrenOf(t, x) != {}
  }

  lemma UsedIsThere(t: State, x: Name)
    requires Closed(t) && InUse(t, x)
    ensures x in t
  {
    if !S.Known(t, x) {
      var c :| c in ChildrenOf(t, x);
      assert ParentIn(t, c);
    }
  }

  lemma StaysInUse(s: State, t: State, n: Name, x: Name)
    requires n != NO_NAME && NoneLoose(s) && OnlyDrops(s, t, n) && x in t && t[x].info.sources != map[]
    ensures InUse(t, x) && x in s && s[x].info.sources == t[x].info.sources
  {
    if x != n {
      assert x in s && t[x] == s[x];
      assert S.Known(s, x) <==> S.Known(t, x);
      assert Drops(s, t, x);
    }
  }

  lemma InUseIs(t: State, x: Name, excluded: set<Name>, propagates: (Obj, Name) -> bool, unpropagated: set<string>)
    ensures var w := B.Seen(t, excluded, propagates, unpropagated);
      InUse(t, x) <==> x in w.present || x in w.links.Values
  {
    forall c | c in ChildrenOf(t, x) ensures x in LinksOf(t).Values { assert LinksOf(t)[c] == x; }
    if x in LinksOf(t).Values {
      var c :| c in LinksOf(t) && LinksOf(t)[c] == x;
      assert c in ChildrenOf(t, x);
    }
  }

  lemma RecordsKept(s: State, t: State, n: Name, kind: Kind, src: map<P.Key, Obj>, excluded: set<Name>,
      propagates: (Obj, Name) -> bool, unpropagated: set<string>)
    requires n != NO_NAME && R.Records(s, kind, src) && NoneLoose(s) && OnlyDrops(s, t, n)
    ensures NoneLoose(t)
    ensures R.Records(t, kind, M.Kept(B.Seen(t, excluded, propagates, unpropagated), src))
  {
    forall x | x in t && t[x].info.sources != map[] ensures InUse(t, x) { StaysInUse(s, t, n, x); }
    var kept := M.Kept(B.Seen(t, excluded, propagates, unpropagated), src);
    forall k: P.Key ensures R.RecordedAt(t, kind, kept, k) {
      InUseIs(t, k.ns, excluded, propagates, unpropagated);
      RecordKept(s, t, n, kind, src, k);
    }
  }

  lemma RecordKept(s: State, t: State, n: Name, kind: Kind, src: map<P.Key, Obj>, k: P.Key)
    requires n != NO_NAME && R.Records(s, kind, src) && NoneLoose(s) && OnlyDrops(s, t, n)
    ensures k in src && InUse(t, k.ns) <==> k.ns in t && R.HasSource(t[k.ns].info, kind, k.name)
    ensures k in src && InUse(t, k.ns) ==>
      (k.ns in t && R.HasSource(t[k.ns].info, kind, k.name) && src[k] == t[k.ns].info.sources[kind][k.name])
  {
    assert R.RecordedAt(s, kind, src, k);
    if InUse(t, k.ns) { UsedIsThere(t, k.ns); }
    if k.ns in t && R.HasSource(t[k.ns].info, kind, k.name) { StaysInUse(s, t, n, k.ns); }
  }

  /** A reconcile keeps exactly the records that propagation keeps ... */
  lemma SyncKeepsRecords(s: State, n: Name, cfg: S.Config, excluded: set<Name>, kind: Kind, src: map<P.Key, Obj>,
      propagates: (Obj, Name) -> bool, unpropagated: set<string>)
    requires n != NO_NAME && S.Sound(s) && NoneLoose(s) && R.Records(s, kind, src)
    ensures var t := S.Sync(s, n, cfg, excluded);
      NoneLoose(t) && R.Records(t, kind, M.Kept(B.Seen(t, excluded, propagates, unpropagated), src))
  {
    var t := S.Sync(s, n, cfg, excluded);
    S.SyncTouchesOnly(s, n, cfg, excluded);
    B.SyncKeepsKnown(s, n, cfg, excluded);
    forall x | x != n ensures Drops(s, t, x) { SyncDrops(s, n, cfg, excluded, x); }
    var other := Name(n.text + "x");
    assert |other.text| != |n.text|;
    SyncDrops(s, n, cfg, excluded, other);
    RecordsKept(s, t, n, kind, src, excluded, propagates, unpropagated);
  }

  lemma RemovalDrops(s: State, n: Name)
    requires n != NO_NAME && S.Sound(s) && S.Known(s, n)
    ensures var t := S.Remove(s, n);
      && (forall x | x != n :: Drops(s, t, x))
      && (n in t ==> t[n].info.sources == s[n].info.sources && ChildrenOf(t, n) != {})
  {
    var t, s1 := S.Remove(s, n), Reparent(s, n, None);
    B.RemovedInfo(s, n);
    forall x | x != n ensures Drops(s, t, x) {
      if s[n].parent != None { ReparentDrops(s, n, None, x); }
      assert ChildrenOf(t, x) == ChildrenOf(s1, x);
    }
  }

  /** ... and so does a removal. */
  lemma RemovalKeepsRecords(s: State, n: Name, kind: Kind, src: map<P.Key, Obj>, excluded: set<Name>,
      propagates: (Obj, Name) -> bool, unpropagated: set<string>)
    requires n != NO_NAME && S.Sound(s) && S.Known(s, n) && NoneLoose(s) && R.Records(s, kind, src)
    ensures var t := S.Remove(s, n);
      NoneLoose(t) && R.Records(t, kind, M.Kept(B.Seen(t, excluded, propagates, unpropagated), src))
  {
    B.RemovedState(s, n);
    RemovalDrops(s, n);
    RecordsKept(s, S.Remove(s, n), n, kind, src, excluded, propagates, unpropagated);
  }
}
