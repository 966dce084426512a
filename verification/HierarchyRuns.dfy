/** The calls of the hierarchy reconciler are the steps of the runs about labels and about propagation. */
module HierarchyRuns {
  import opened Names
  import opened ParentLinks
  import opened Cycles
  import opened Objects
  import opened ForestState
  import opened HierarchyReconciler
  import S = HierarchySteps
  import P = Propagation
  import M = PropagationMoves
  import opened PropagationBridge
  import opened LabelSync
  import LabelRuns
  import R = ObjectReconciler
  import F = ForestRecords

  /** What propagation knows about one type of objects. */
  datatype Setting = Setting(kind: Kind, excluded: set<Name>, propagates: (Obj, Name) -> bool,
    unpropagated: set<string>)

  ghost function SeenIn(s: State, e: Setting): P.World {
    Seen(s, e.excluded, e.propagates, e.unpropagated)
  }

  /** The halting ancestor that the conditions of each namespace show, as they were last written. */
  type Reported = map<Name, Option<Name>>

  /** The known namespaces are those that have been reconciled, and what one has seen is what its labels and its
      conditions show. */
  ghost predicate Recorded(seen: map<Name, M.Way>, s: State, reported: Reported) {
    forall n {:trigger RecordedAt(seen, s, reported, n)} :: RecordedAt(seen, s, reported, n)
  }

  ghost predicate RecordedAt(seen: map<Name, M.Way>, s: State, reported: Reported, n: Name) {
    && (n in seen <==> S.Known(s, n))
    && (n in seen ==> n in reported && Shows(seen[n], s[n].info.labels.depths, reported[n]))
  }

  /** The system `u` has the hierarchy and the sources of the forest `s`, in which no namespace is external. */
  ghost predicate InStep(u: M.System, s: State, reported: Reported, e: Setting) {
    && S.Sound(s) && S.Externals(s) == {} && Recorded(u.seen, s, reported) && u.world == SeenIn(s, e)
    && F.NoneLoose(s) && R.Records(s, e.kind, u.cluster.sources)
  }

  /** At the start the forest is empty. */
  lemma StartInStep(e: Setting)
    ensures var u := M.System(SeenIn(map[], e), P.Cluster(map[], map[], {}), {}, map[]);
      M.IsFirst(u) && InStep(u, map[], map[], e)
  {
    var w := SeenIn(map[], e);
    assert S.Sound(map[]);
    assert w.links == map[] && w.present == {};
    var u := M.System(w, P.Cluster(map[], map[], {}), {}, map[]);
    forall n ensures RecordedAt(u.seen, map[], map[], n) { }
  }

  /** The objects are updated if the labels have changed, the namespace is new, or its conditions have to be
      written. */
  ghost predicate Updates(s: State, t: State, n: Name, reported: Reported)
    requires n != NO_NAME && n in t && S.Sound(t)
  {
    || Reconciler.NeedsUpdate(Touch(s, n)[n].info, t[n].info)
    || n !in reported || reported[n] != S.CritAncestor(t, n)
  }

  lemma SyncedShows(s: State, n: Name, cfg: S.Config, excluded: set<Name>)
    requires S.Sound(s) && S.Externals(s) == {} && n != NO_NAME && S.ManagedByHnc(cfg) && Separate(cfg.labels)
    ensures var t := S.Sync(s, n, cfg, excluded);
      && S.Sound(t) && S.Known(t, n) && S.Externals(t) == {} && SameWhenKnown(s, t, n)
      && Shows(M.WayUp(LinksOf(t), Crits(t), n), t[n].info.labels.depths, S.CritAncestor(t, n))
  {
    LabelRuns.SyncedState(s, n, cfg, excluded);
    SyncedIsLabelled(s, n, cfg, excluded);
    LabelledShows(S.Sync(s, n, cfg, excluded), n);
  }

  /** If nothing has to be written, the namespace sees what it saw. */
  lemma MustBeUpdated(u: M.System, s: State, t: State, reported: Reported, n: Name)
    requires Recorded(u.seen, s, reported) && n != NO_NAME && n in t && S.Sound(t) && !Updates(s, t, n, reported)
    requires Shows(M.WayUp(LinksOf(t), Crits(t), n), t[n].info.labels.depths, S.CritAncestor(t, n))
    ensures n in u.seen && u.seen[n] == M.WayUp(LinksOf(t), Crits(t), n)
  {
    assert RecordedAt(u.seen, s, reported, n);
    ShownIsSame(u.seen[n], M.WayUp(LinksOf(t), Crits(t), n), t[n].info.labels.depths, reported[n]);
  }

  lemma StaysRecorded(seen: map<Name, M.Way>, s: State, t: State, reported: Reported, n: Name)
    requires Recorded(seen, s, reported) && SameWhenKnown(s, t, n) && S.Known(t, n) && S.Sound(t)
    requires Shows(M.WayUp(LinksOf(t), Crits(t), n), t[n].info.labels.depths, S.CritAncestor(t, n))
    ensures Recorded(seen[n := M.WayUp(LinksOf(t), Crits(t), n)], t, reported[n := S.CritAncestor(t, n)])
  {
    var seen' := seen[n := M.WayUp(LinksOf(t), Crits(t), n)];
    var reported' := reported[n := S.CritAncestor(t, n)];
    forall x ensures RecordedAt(seen', t, reported', x) { assert RecordedAt(seen, s, reported, x); }
  }

  lemma StaysRecordedWithout(seen: map<Name, M.Way>, s: State, t: State, reported: Reported, n: Name)
    requires Recorded(seen, s, reported) && SameWhenKnown(s, t, n) && !S.Known(t, n)
    ensures Recorded(seen - {n}, t, reported)
  {
    var seen' := seen - {n};
    forall x ensures RecordedAt(seen', t, reported, x) { assert RecordedAt(seen, s, reported, x); }
  }

  /** A reconcile that tells whom the reconciler tells is a step of the runs. */
  lemma SyncIsLegal(u: M.System, s: State, reported: Reported, n: Name, cfg: S.Config, e: Setting,
      sent: seq<Name>, updates: bool)
    requires InStep(u, s, reported, e)
    requires n != NO_NAME && n !in e.excluded && S.ManagedByHnc(cfg) && Separate(cfg.labels)
    requires P.Uniform(SeenIn(S.Sync(s, n, cfg, e.excluded), e))
    requires var t := S.Sync(s, n, cfg, e.excluded);
      n in t && S.Sound(t) && Reconciler.Noticed(s, t, n, cfg, sent) && (Updates(s, t, n, reported) ==> updates)
    ensures LabelRuns.Legal(s, LabelRuns.Happening(S.Reconcile(n, cfg), Elems(sent)), e.excluded)
    ensures var t := S.Sync(s, n, cfg, e.excluded);
      var h := M.OnNamespace(n, SeenIn(t, e), Elems(sent), updates);
      && M.Legal(u, h)
      && InStep(M.Next(u, h), t, reported[n := S.CritAncestor(t, n)], e)
  {
    var t := S.Sync(s, n, cfg, e.excluded);
    SyncedShows(s, n, cfg, e.excluded);
    if !Updates(s, t, n, reported) { MustBeUpdated(u, s, t, reported, n); }
    SyncIsMove(s, n, cfg, e.excluded, e.propagates, e.unpropagated);
    F.SyncKeepsRecords(s, n, cfg, e.excluded, e.kind, u.cluster.sources, e.propagates, e.unpropagated);
    EveryoneDisturbedIsTold(s, t, n, cfg, e, sent);
    StaysRecorded(u.seen, s, t, reported, n);
  }

  lemma EveryoneDisturbedIsTold(s: State, t: State, n: Name, cfg: S.Config, e: Setting, sent: seq<Name>)
    requires n != NO_NAME && S.Sound(s) && n in t && S.Sound(t) && Reconciler.Noticed(s, t, n, cfg, sent)
    ensures forall x | x != n && x in t && LabelRuns.Disturbed(s, t, x) :: x in Elems(sent)
    ensures forall x | x != n && S.Known(t, x) && M.Disturbed(SeenIn(s, e), SeenIn(t, e), x) :: x in Elems(sent)
  {
    forall x | x != n && x in t && LabelRuns.Disturbed(s, t, x) ensures x in Elems(sent) {
      assert Reconciler.Disturbed(s, t, x);
      assert x in sent;
    }
    forall x | x != n && S.Known(t, x) && M.Disturbed(SeenIn(s, e), SeenIn(t, e), x) ensures x in Elems(sent)
    {
      DisturbedIsNoticed(s, t, e.excluded, e.propagates, e.unpropagated, x);
    }
  }

  /** One call of the reconciler. */
  method Reconcile(r: Reconciler, n: Name, cfg: S.Config, ghost u: M.System, ghost reported: Reported, ghost e: Setting)
    returns (needUpdate: bool, ghost h: M.Happening)
    requires r.forest.Valid() && InStep(u, r.forest.view, reported, e)
    requires e.excluded == r.excluded && n != NO_NAME && n !in r.excluded && S.ManagedByHnc(cfg) && Separate(cfg.labels)
    requires P.Uniform(SeenIn(S.Sync(r.forest.view, n, cfg, r.excluded), e))
    modifies r.forest, r.forest.Repr, r`affected
    ensures r.forest.Valid() && old(r.affected) <= r.affected && S.Sound(r.forest.view) && n in r.forest.view
    ensures h == M.OnNamespace(n, SeenIn(r.forest.view, e), Elems(r.affected[|old(r.affected)|..]),
      needUpdate || n !in reported || reported[n] != S.CritAncestor(r.forest.view, n))
    ensures M.Legal(u, h)
    ensures InStep(M.Next(u, h), r.forest.view, reported[n := S.CritAncestor(r.forest.view, n)], e)
    ensures LabelRuns.Legal(old(r.forest.view), LabelRuns.Happening(S.Reconcile(n, cfg), h.told), r.excluded)
    ensures r.forest.view == S.Next(old(r.forest.view), S.Reconcile(n, cfg), r.excluded)
  {
    ghost var s, before := r.forest.view, r.affected;
    var halted, labels;
    halted, labels, needUpdate := r.SyncWithForest(n, cfg);
    ghost var t, sent := r.forest.view, r.affected[|before|..];
    ghost var updates := needUpdate || n !in reported || reported[n] != S.CritAncestor(t, n);
    SyncIsLegal(u, s, reported, n, cfg, e, sent, updates);
    h := M.OnNamespace(n, SeenIn(t, e), Elems(sent), updates);
  }

  lemma RemovalIsLegal(u: M.System, s: State, reported: Reported, n: Name, e: Setting, told: set<Name>)
    requires InStep(u, s, reported, e) && n != NO_NAME && S.Known(s, n)
    requires P.Uniform(SeenIn(S.Remove(s, n), e)) && ChildrenOf(s, n) <= told
    ensures var h := M.OnRemoval(n, SeenIn(S.Remove(s, n), e), told);
      M.Legal(u, h) && InStep(M.Next(u, h), S.Remove(s, n), reported, e)
    ensures LabelRuns.Legal(s, LabelRuns.Happening(S.Disappear(n), told), e.excluded)
  {
    RemovalIsMove(s, n, e.excluded, e.propagates, e.unpropagated);
    F.RemovalKeepsRecords(s, n, e.kind, u.cluster.sources, e.excluded, e.propagates, e.unpropagated);
    RemovedState(s, n);
    StaysRecordedWithout(u.seen, s, S.Remove(s, n), reported, n);
  }

  /** One call for a namespace that is gone. */
  method OnMissing(r: Reconciler, n: Name, ghost u: M.System, ghost reported: Reported, ghost e: Setting)
    returns (ghost h: M.Happening)
    requires r.forest.Valid() && InStep(u, r.forest.view, reported, e)
    requires e.excluded == r.excluded && n != NO_NAME && S.Known(r.forest.view, n)
    requires P.Uniform(SeenIn(S.Remove(r.forest.view, n), e))
    modifies r.forest, r.forest.Repr, r`affected
    ensures r.forest.Valid() && old(r.affected) <= r.affected
    ensures h == M.OnRemoval(n, SeenIn(r.forest.view, e), Elems(r.affected[|old(r.affected)|..]))
    ensures M.Legal(u, h)
    ensures InStep(M.Next(u, h), r.forest.view, reported, e)
    ensures LabelRuns.Legal(old(r.forest.view), LabelRuns.Happening(S.Disappear(n), h.told), r.excluded)
    ensures r.forest.view == S.Next(old(r.forest.view), S.Disappear(n), r.excluded)
  {
    ghost var s, before := r.forest.view, r.affected;
    r.OnMissingNamespace(n);
    ghost var told := Elems(r.affected[|before|..]);
    RemovalIsLegal(u, s, reported, n, e, told);
    h := M.OnRemoval(n, SeenIn(r.forest.view, e), told);
  }
}
