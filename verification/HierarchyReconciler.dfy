/** The locked sections of the hierarchy reconciler on the heap forest. Each method is proved to do
    what the corresponding stage of `HierarchySteps` says, and to enqueue everyone it affects. */
module HierarchyReconciler {
  import opened Names
  import opened ParentLinks
  import opened Cycles
  import opened Objects
  import opened ForestState
  import opened HierarchySteps
  import opened NamespaceForest
  import SyncedEntry

  class Reconciler {
    const forest: Forest
    const excluded: set<Name>
    /** The names sent to the channel of affected namespaces, oldest first. */
    var affected: seq<Name>

    constructor (forest: Forest, excluded: set<Name>)
      ensures this.forest == forest && this.excluded == excluded && affected == []
    {
      this.forest, this.excluded, affected := forest, excluded, [];
    }

    method EnqueueAffected(names: seq<Name>)
      modifies this`affected
      ensures affected == old(affected) + names
    {
      affected := affected + names;
    }

    method EnqueueOne(ns: Namespace?)
      modifies this`affected
      ensures affected == old(affected) + if ns == null then [] else [ns.name]
    {
      if ns != null {
        affected := affected + [ns.name];
      }
    }

    /** `enqueueAffected(..., ns.DescendantNames()...)`. */
    method EnqueueDescendants(ns: Namespace)
      requires forest.Valid() && forest.Has(ns)
      modifies this`affected
      ensures old(affected) <= affected
      ensures Descendants(forest.ParentLinks(), ns.name) <= Elems(affected[|old(affected)|..])
    {
      var ds := forest.DescendantNames(ns);
      affected := affected + ds;
      assert affected[|old(affected)|..] == ds;
    }

    /** `syncExternalNamespace`, after the conditions have been cleared. */
    method SyncExternalNamespace(ns: Namespace, cfg: Config)
      requires forest.Valid() && forest.Has(ns)
      modifies forest`view, ns`info, this`affected
      ensures forest.Valid() && forest.Has(ns)
      ensures forest.view == WithInfo(old(forest.view), ns.name, ExternalInfo(old(ns.info), ns.name, cfg))
      ensures old(affected) <= affected
      ensures old(ns.IsExternal()) != ns.IsExternal() ==>
        Descendants(LinksOf(old(forest.view)), ns.name) <= Elems(affected[|old(affected)|..])
    {
      forest.Facts(ns);
      if cfg.managedBy == "" || cfg.managedBy == META_GROUP {
        if ns.IsExternal() {
          EnqueueDescendants(ns);
        }
        forest.SetInfo(ns, ns.info.(manager := META_GROUP, external := map[]));
        return;
      }
      if !ns.IsExternal() {
        EnqueueDescendants(ns);
      }
      forest.SetInfo(ns, ns.info.(manager := cfg.managedBy, external := cfg.labels.depths[ns.name := 0]));
    }

    /** `syncSubnamespaceParent`: returns the parent the configuration asks for. */
    method SyncSubnamespaceParent(ns: Namespace, cfg: Config) returns (parent: Name)
      requires forest.Valid() && forest.Has(ns)
      modifies forest, ns`info
      ensures forest.Valid() && forest.Has(ns)
      ensures forest.view == SyncSubnamespace(old(forest.view), ns.name, cfg)
      ensures parent == ConfiguredParent(old(ns.IsExternal()), cfg)
      ensures parent == if !old(ns.IsExternal()) && cfg.subnamespaceOf != NO_NAME && !cfg.deleting
        then cfg.subnamespaceOf else cfg.parent
      ensures forest.Repr >= old(forest.Repr) && fresh(forest.Repr - old(forest.Repr))
    {
      forest.Facts(ns);
      parent := cfg.parent;
      if ns.IsExternal() {
        forest.SetInfo(ns, ns.info.(isSub := false));
        return;
      }
      var pnm := cfg.subnamespaceOf;
      if pnm != NO_NAME && cfg.deleting {
        pnm := NO_NAME;
      }
      if pnm == NO_NAME {
        forest.SetInfo(ns, ns.info.(isSub := false));
        return;
      }
      forest.SetInfo(ns, ns.info.(isSub := true));
      parent := pnm;
      var owner := forest.Get(pnm);
      forest.Facts(owner);
      forest.Facts(ns);
      var found := ns.name in owner.info.anchors;
      if !found {
        SetCondition(ns, BadConfiguration, AnchorMissing);
      }
    }

    /** `SetCondition`. */
    method SetCondition(ns: Namespace, tp: ConditionType, reason: Reason)
      requires forest.Valid() && forest.Has(ns)
      modifies forest`view, ns`info
      ensures forest.Valid() && forest.Has(ns)
      ensures forest.view == AddCondition(old(forest.view), ns.name, reason, tp)
      ensures ns.info == old(ns.info).(conditions := old(ns.info.conditions) + [Condition(tp, reason)])
    {
      forest.Facts(ns);
      forest.SetInfo(ns, ns.info.(conditions := ns.info.conditions + [Condition(tp, reason)]));
    }

    /** The condition that `syncParent` sets when the configured parent is excluded or missing. */
    method CheckParent(ns: Namespace, parent: Name, curParent: Namespace?)
      requires forest.Valid() && forest.Has(ns)
      requires parent == NO_NAME <==> curParent == null
      requires curParent != null ==> forest.Has(curParent) && curParent.name == parent
      modifies forest`view, ns`info
      ensures forest.Valid() && forest.Has(ns)
      ensures forest.view == ParentCondition(old(forest.view), ns.name, parent, excluded)
    {
      forest.ViewClosed();
      if curParent != null { forest.Facts(curParent); }
      if parent in excluded {
        SetCondition(ns, ActivitiesHalted, IllegalParent);
      } else if curParent != null && !curParent.info.present {
        SetCondition(ns, ActivitiesHalted, ParentMissing);
      }
    }

    /** `syncParent`. If the parent changes, every descendant is enqueued. */
    method SyncParentOf(ns: Namespace, parent: Name)
      requires forest.Valid() && forest.Has(ns) && MissingAreRoots(forest.view)
      modifies forest, forest.Repr, this`affected
      ensures forest.Valid() && forest.Has(ns)
      ensures forest.view == SyncParent(old(forest.view), ns.name, parent, excluded)
      ensures forest.Repr >= old(forest.Repr) && fresh(forest.Repr - old(forest.Repr))
      ensures old(affected) <= affected
      ensures !old(ns.IsExternal()) && LinksOf(forest.view) != LinksOf(old(forest.view)) ==>
        Descendants(LinksOf(forest.view), ns.name) <= Elems(affected[|old(affected)|..])
      ensures !old(ns.IsExternal()) ==>
        MoveTold(old(forest.ParentLinks()), ns.name, NameOf(old(ns.parent)), NameOf(ns.parent),
          affected[|old(affected)|..])
    {
      forest.Facts(ns);
      if ns.IsExternal() {
        forest.SetParent(ns, null);
        HasByView(ns);
      } else {
        SyncInternalParent(ns, parent);
      }
    }

    method SyncInternalParent(ns: Namespace, parent: Name)
      requires forest.Valid() && forest.Has(ns) && MissingAreRoots(forest.view) && !ns.IsExternal()
      modifies forest, forest.Repr, this`affected
      ensures forest.Valid() && forest.Has(ns)
      ensures forest.view == SyncParent(old(forest.view), ns.name, parent, excluded)
      ensures forest.Repr >= old(forest.Repr) && fresh(forest.Repr - old(forest.Repr))
      ensures old(affected) <= affected
      ensures LinksOf(forest.view) != LinksOf(old(forest.view)) ==>
        Descendants(LinksOf(forest.view), ns.name) <= Elems(affected[|old(affected)|..])
      ensures MoveTold(old(forest.ParentLinks()), ns.name, NameOf(old(ns.parent)), NameOf(ns.parent),
        affected[|old(affected)|..])
    {
      ghost var s := forest.view;
      forest.Facts(ns);
      TouchKeepsMissingRoots(s, parent);
      var curParent := forest.Get(parent);
      ParentConditionLinks(s, ns.name, parent, excluded);
      AdoptParent(ns, parent, curParent);
    }

    /** ... when the parent has been looked up. */
    method AdoptParent(ns: Namespace, parent: Name, curParent: Namespace?)
      requires forest.Valid() && forest.Has(ns)
      requires parent == NO_NAME <==> curParent == null
      requires curParent != null ==> forest.Has(curParent) && curParent.name == parent
      requires MissingAreRoots(ParentCondition(forest.view, ns.name, parent, excluded))
      modifies forest`namespaces, forest`view, ns, Opt(ns.parent)`children, Opt(curParent)`children, this`affected
      ensures forest.Valid() && forest.Has(ns)
      ensures forest.view ==
        var s1 := ParentCondition(old(forest.view), ns.name, parent, excluded);
        if s1[ns.name].parent == Named(parent) then s1 else Reparent(s1, ns.name, Named(parent))
      ensures old(affected) <= affected
      ensures LinksOf(forest.view) == LinksOf(ParentCondition(old(forest.view), ns.name, parent, excluded)) ||
        Descendants(LinksOf(forest.view), ns.name) <= Elems(affected[|old(affected)|..])
      ensures MoveTold(old(forest.ParentLinks()), ns.name, NameOf(old(ns.parent)), NameOf(ns.parent),
        affected[|old(affected)|..])
    {
      CheckParent(ns, parent, curParent);
      ConditionKeepsLinks(old(forest.view), ns.name, parent);
      MoveTo(ns, curParent);
    }

    lemma ConditionKeepsLinks(s: State, n: Name, p: Name)
      requires n in s
      ensures LinksOf(ParentCondition(s, n, p, excluded)) == LinksOf(s)
    {
    }

    lemma ParentConditionLinks(s: State, n: Name, p: Name, excluded: set<Name>)
      requires n in s && MissingAreRoots(s)
      ensures var t := ParentCondition(Touch(s, p), n, p, excluded);
        LinksOf(t) == LinksOf(s) && MissingAreRoots(t)
    {
    }

    /** The rest of `syncParent`. If the parent hasn't changed, there is nothing more to do. */
    method MoveTo(ns: Namespace, curParent: Namespace?)
      requires forest.Valid() && forest.Has(ns) && MissingAreRoots(forest.view)
      requires curParent != null ==> forest.Has(curParent)
      modifies forest`namespaces, forest`view, ns`parent, Opt(ns.parent)`children, Opt(curParent)`children,
        this`affected
      ensures forest.Valid() && forest.Has(ns)
      ensures forest.view ==
        if old(forest.view)[ns.name].parent == NameOf(curParent) then old(forest.view)
        else Reparent(old(forest.view), ns.name, NameOf(curParent))
      ensures old(affected) <= affected
      ensures forest.view == old(forest.view) ||
        Descendants(LinksOf(forest.view), ns.name) <= Elems(affected[|old(affected)|..])
      ensures ns.parent == curParent
      ensures MoveTold(old(forest.ParentLinks()), ns.name, NameOf(old(ns.parent)), NameOf(ns.parent),
        affected[|old(affected)|..])
    {
      forest.Facts(ns);
      if curParent != null { forest.Facts(curParent); }
      if curParent == ns.parent {
        return;
      }
      ChangeParent(ns, curParent);
    }

    /** The members of an old cycle, the old and the new parent and all descendants are enqueued. */
    method ChangeParent(ns: Namespace, curParent: Namespace?)
      requires forest.Valid() && forest.Has(ns) && MissingAreRoots(forest.view)
      requires curParent != null ==> forest.Has(curParent)
      requires NameOf(curParent) != NameOf(ns.parent)
      modifies forest`namespaces, forest`view, ns`parent, Opt(ns.parent)`children, Opt(curParent)`children,
        this`affected
      ensures forest.Valid() && forest.Has(ns)
      ensures forest.view == Reparent(old(forest.view), ns.name, NameOf(curParent))
      ensures old(affected) <= affected
      ensures ns.parent == curParent && Descendants(LinksOf(forest.view), ns.name) <= Elems(affected[|old(affected)|..])
      ensures RelativesTold(old(forest.ParentLinks()), ns.name, NameOf(old(ns.parent)), NameOf(curParent),
        affected[|old(affected)|..])
    {
      RelinkAndTell(ns, curParent);
      ghost var mid := affected;
      EnqueueDescendants(ns);
      LaterSuffix(old(affected), mid, affected);
    }

    /** If the parent has changed from `o` to `p`, the relatives have been told. */
    static ghost predicate MoveTold(l: Links, n: Name, o: Option<Name>, p: Option<Name>, sent: seq<Name>) {
      o != p ==> RelativesTold(l, n, o, p, sent)
    }

    /** A namespace first seen has told its parent and its children, and every anchor that was added or
        removed has been told. */
    static ghost predicate RestTold(was: Info, p: Option<Name>, children: set<Name>, cfg: Config, sent: seq<Name>) {
      && (!was.present ==> children <= Elems(sent) && (p.Some? ==> p.value in Elems(sent)))
      && forall x | (x in was.anchors) != (x in cfg.anchors) :: x in Elems(sent)
    }

    /** The former cycle, the old parent `o` and the new parent `p` of `n` have been told. */
    static ghost predicate RelativesTold(l: Links, n: Name, o: Option<Name>, p: Option<Name>, sent: seq<Name>) {
      && (OnCycle(l, n) ==> forall m | Reach(l, n, m) :: m in Elems(sent))
      && (o.Some? ==> o.value in Elems(sent)) && (p.Some? ==> p.value in Elems(sent))
    }

    method RelinkAndTell(ns: Namespace, curParent: Namespace?)
      requires forest.Valid() && forest.Has(ns) && MissingAreRoots(forest.view)
      requires curParent != null ==> forest.Has(curParent)
      requires NameOf(curParent) != NameOf(ns.parent)
      modifies forest`namespaces, forest`view, ns`parent, Opt(ns.parent)`children, Opt(curParent)`children,
        this`affected
      ensures forest.Valid() && forest.Has(ns)
      ensures forest.view == Reparent(old(forest.view), ns.name, NameOf(curParent))
      ensures old(affected) <= affected && ns.parent == curParent
      ensures RelativesTold(old(forest.ParentLinks()), ns.name, NameOf(old(ns.parent)), NameOf(curParent),
        affected[|old(affected)|..])
    {
      ghost var l, before := forest.ParentLinks(), affected;
      TellCycle(ns);
      ghost var mid := affected;
      var oldParent := ns.parent;
      Relink(ns, curParent);
      TellParents(oldParent, curParent);
      RelativesSent(l, ns.name, NameOf(oldParent), NameOf(curParent), before, mid);
    }

    method Relink(ns: Namespace, curParent: Namespace?)
      requires forest.Valid() && forest.Has(ns) && MissingAreRoots(forest.view)
      requires curParent != null ==> forest.Has(curParent)
      requires NameOf(curParent) != NameOf(ns.parent)
      modifies forest`namespaces, forest`view, ns`parent, Opt(ns.parent)`children, Opt(curParent)`children
      ensures forest.Valid() && forest.Has(ns) && ns.parent == curParent
      ensures forest.view == Reparent(old(forest.view), ns.name, NameOf(curParent))
    {
      forest.Facts(ns);
      if curParent != null { forest.Facts(curParent); }
      forest.SetParent(ns, curParent);
      HasByView(ns);
      forest.Facts(ns);
    }

    method TellParents(oldParent: Namespace?, curParent: Namespace?)
      modifies this`affected
      ensures affected == old(affected) + OrNone(NameOf(oldParent)) + OrNone(NameOf(curParent))
    {
      EnqueueOne(oldParent);
      EnqueueOne(curParent);
    }

    lemma RelativesSent(l: Links, n: Name, o: Option<Name>, p: Option<Name>, before: seq<Name>, mid: seq<Name>)
      requires before <= mid && (OnCycle(l, n) ==> forall m | Reach(l, n, m) :: m in Elems(mid[|before|..]))
      ensures var now := mid + OrNone(o) + OrNone(p); before <= now && RelativesTold(l, n, o, p, now[|before|..])
    {
      var now := mid + OrNone(o) + OrNone(p);
      assert now[|before|..] == mid[|before|..] + OrNone(o) + OrNone(p);
    }

    function OrNone(o: Option<Name>): seq<Name> {
      if o.Some? then [o.value] else []
    }

    /** If the namespace is on a cycle, all members of the cycle are enqueued. */
    method TellCycle(ns: Namespace)
      requires forest.Valid() && forest.Has(ns)
      modifies this`affected
      ensures old(affected) <= affected
      ensures OnCycle(forest.ParentLinks(), ns.name) ==>
        forall m | Reach(forest.ParentLinks(), ns.name, m) :: m in Elems(affected[|old(affected)|..])
    {
      var cycle := forest.CycleNames(ns);
      EnqueueAffected(cycle);
      assert affected[|old(affected)|..] == cycle;
      if OnCycle(forest.ParentLinks(), ns.name) { CycleIsListed(forest.ParentLinks(), ns.name, cycle); }
    }

    lemma CycleIsListed(l: Links, n: Name, cycle: seq<Name>)
      requires OnCycle(l, n) && IsCycleListing(l, n, cycle)
      ensures forall m | Reach(l, n, m) :: m in Elems(cycle)
    {
      var a := Ancestry(l, n);
      var first :| IsLeast(first, Elems(a)) && cycle == Ancestry(l, first);
      AncestryElements(l, n, a, first);
      CycleMembers(l, n, first);
      forall m | Reach(l, n, m) ensures m in Elems(cycle) { AncestryElements(l, n, a, m); }
    }

    lemma HasByView(ns: Namespace)
      requires forest.Valid() && ns in forest.Repr && ns.name in forest.view
      requires forest.namespaces[ns.name] == ns
      ensures forest.Has(ns)
    {
    }

    /** What was sent later was sent since earlier. */
    lemma LaterSuffix(before: seq<Name>, mid: seq<Name>, now: seq<Name>)
      requires before <= mid <= now
      ensures before <= now
      ensures Elems(now[|mid|..]) <= Elems(now[|before|..])
      ensures Elems(mid[|before|..]) <= Elems(now[|before|..])
    {
      assert now[|mid|..] == now[|before|..][|mid| - |before|..];
      assert mid[|before|..] == now[|before|..][..|mid| - |before|];
    }

    lemma TouchKeepsMissingRoots(s: State, p: Name)
      requires MissingAreRoots(s)
      ensures MissingAreRoots(Touch(s, p)) && LinksOf(Touch(s, p)) == LinksOf(s)
    {
    }

    /** `markExisting`: the relatives of a namespace that was not known before are enqueued. */
    method MarkExisting(ns: Namespace) returns (initial: bool)
      requires forest.Valid() && forest.Has(ns)
      modifies forest`view, ns`info, this`affected
      ensures forest.Valid() && forest.Has(ns)
      ensures forest.view == WithInfo(old(forest.view), ns.name, old(ns.info).(present := true))
      ensures ns.info == old(ns.info).(present := true)
      ensures initial == !old(ns.info.present)
      ensures old(affected) <= affected
      ensures initial ==> ns.children <= Elems(affected[|old(affected)|..])
      ensures initial && ns.parent != null ==> ns.parent.name in Elems(affected[|old(affected)|..])
    {
      forest.Facts(ns);
      initial := !ns.info.present;
      forest.SetInfo(ns, ns.info.(present := true));
      if !initial {
        return;
      }
      EnqueueOne(ns.parent);
      ghost var mid := affected;
      var cs := forest.ChildNames(ns);
      EnqueueAffected(cs);
      assert affected[|mid|..] == cs;
      LaterSuffix(old(affected), mid, affected);
      if ns.parent != null { assert ns.parent.name in Elems(mid[|old(affected)|..]); }
      if ns.info.isSub {
        ghost var own := affected;
        EnqueueOne(ns.parent);
        LaterSuffix(old(affected), own, affected);
      }
    }

    /** `syncAnchors` and the cascading-deletion flag. */
    method SyncAnchors(ns: Namespace, cfg: Config)
      requires forest.Valid() && forest.Has(ns)
      modifies forest`view, ns`info, this`affected
      ensures forest.Valid() && forest.Has(ns)
      ensures forest.view ==
        WithInfo(old(forest.view), ns.name, old(ns.info).(anchors := cfg.anchors, cascading := cfg.cascading))
      ensures affected == old(affected) + ChangedAnchors(old(ns.info.anchors), cfg.anchors)
      ensures forall x ::
        x in affected[|old(affected)|..] <==> ((x in old(ns.info.anchors)) != (x in cfg.anchors))
    {
      forest.Facts(ns);
      ChangedAre(ns.info.anchors, cfg.anchors);
      EnqueueAffected(ChangedAnchors(ns.info.anchors, cfg.anchors));
      forest.SetInfo(ns, ns.info.(anchors := cfg.anchors, cascading := cfg.cascading));
    }

    /** `SetAnchors`: the names that are in one of the lists only. */
    static function ChangedAnchors(was: seq<Name>, now: seq<Name>): seq<Name> {
      Missing(was, now) + Missing(now, was)
    }

    static lemma {:induction false} MissingAre(a: seq<Name>, b: seq<Name>)
      ensures forall x :: x in Missing(a, b) <==> x in a && x !in b
    {
      if a != [] {
        MissingAre(a[1..], b);
        assert a == [a[0]] + a[1..];
      }
    }

    static lemma ChangedAre(was: seq<Name>, now: seq<Name>)
      ensures forall x :: x in ChangedAnchors(was, now) <==> ((x in was) != (x in now))
    {
      MissingAre(was, now);
      MissingAre(now, was);
    }

    static function Missing(a: seq<Name>, b: seq<Name>): seq<Name> {
      if a == [] then [] else (if a[0] in b then [] else [a[0]]) + Missing(a[1..], b)
    }

    /** `syncCritConditions`: if the namespace has just been halted or resumed, every descendant is
        enqueued. */
    method SyncCritConditions(ns: Namespace, deletingCRD: bool, hadCrit: bool, ghost cfg: Config)
      requires forest.Valid() && forest.Has(ns) && cfg.deletingCRD == deletingCRD
      modifies forest`view, ns`info, this`affected
      ensures forest.Valid() && forest.Has(ns)
      ensures forest.view == SyncCrit(old(forest.view), ns.name, cfg)
      ensures old(affected) <= affected
      ensures hadCrit != HasCrit(ns.info.conditions) ==>
        Descendants(LinksOf(forest.view), ns.name) <= Elems(affected[|old(affected)|..])
    {
      var cycle := forest.CycleNames(ns);
      forest.OnCycleOrNot(forest.ParentLinks(), ns.name, cycle);
      if cycle != [] {
        SetCondition(ns, ActivitiesHalted, InCycle);
      }
      if deletingCRD {
        SetCondition(ns, ActivitiesHalted, DeletingCRD);
      }
      var hasCrit := ns.HasLocalCritCondition();
      if hadCrit == hasCrit {
        return;
      }
      EnqueueDescendants(ns);
    }

    /** `syncLabel`: the walk up to the first critical or external ancestor. It has no protection
        against cycles. */
    method ComputeDepths(ns: Namespace) returns (m: map<Name, int>)
      requires forest.Valid() && forest.Has(ns)
      requires WalkEnds(LinksOf(forest.view), Crits(forest.view), ns.name)
      ensures m == TreeLabels(forest.view, ns.name)
    {
      LabellingStarts(ns.name);
      m := map[];
      var anc: Namespace, depth: nat := ns, 0;
      while true
        invariant forest.Has(anc) && Labelling(ns.name, anc.name, depth, m)
        decreases StepsLeft(anc.name)
      {
        var last;
        last, m := LabelOne(ns, anc, depth, m);
        if last || anc.parent == null {
          break;
        }
        anc, depth := anc.parent, depth + 1;
      }
    }

    /** The invariant of the loop of `syncLabel`: it has come from `n` to `a`, which is `k` links up. */
    ghost predicate Labelling(n: Name, a: Name, k: nat, m: map<Name, int>)
      reads this, forest
    {
      var l, stop := LinksOf(forest.view), Stops(forest.view);
      WalkEnds(l, stop, n) && Walking(l, stop, n, a, k, m)
    }

    /** How many links the loop of `syncLabel` has still to follow from `a`. */
    ghost function StepsLeft(a: Name): nat
      reads this, forest
    {
      var l, stop := LinksOf(forest.view), Stops(forest.view);
      if WalkEnds(l, stop, a) then WalkLength(l, stop, a) else 0
    }

    lemma LabellingStarts(n: Name)
      requires WalkEnds(LinksOf(forest.view), Crits(forest.view), n)
      ensures Labelling(n, n, 0, map[])
    {
      CritWalkStops(forest.view, n);
      WalkStarts(LinksOf(forest.view), Stops(forest.view), n);
    }

    /** One turn of the loop of `syncLabel`; `last` if it breaks out of the loop. */
    method LabelOne(ns: Namespace, anc: Namespace, depth: nat, m0: map<Name, int>)
      returns (last: bool, m: map<Name, int>)
      requires forest.Valid() && forest.Has(ns) && forest.Has(anc)
      requires WalkEnds(LinksOf(forest.view), Crits(forest.view), ns.name)
      requires Labelling(ns.name, anc.name, depth, m0)
      ensures last || anc.parent == null ==> m == TreeLabels(forest.view, ns.name)
      ensures !last && anc.parent != null ==>
        && forest.Has(anc.parent)
        && Labelling(ns.name, anc.parent.name, depth + 1, m)
        && StepsLeft(anc.parent.name) < StepsLeft(anc.name)
    {
      ghost var s := forest.view;
      ghost var l, stop := LinksOf(s), Stops(s);
      forest.Facts(anc);
      forest.Facts(ns);
      forest.LinkOf(anc);
      assert anc.name in stop <==> HasCrit(anc.info.conditions) || anc.info.external.Keys != {};
      assert anc.name in l <==> anc.parent != null;
      if anc.name in stop || anc.name !in l {
        WalkStops(l, stop, ns.name, anc.name, depth, m0);
        TreeLabelsAre(s, ns.name, anc.name, depth);
      } else {
        WalkGoesOn(l, stop, ns.name, anc.name, depth, m0);
      }
      m := m0[anc.name := depth];
      var crit := anc.HasLocalCritCondition();
      if crit {
        return true, m;
      }
      if anc.IsExternal() {
        m := m + Shifted(anc.info.external, depth);
        return true, m;
      }
      last := false;
    }

    /** `setCritAncestorCondition`: the halted ancestor to report on a namespace that is not halted
        itself. The loop has no protection against cycles. */
    method HaltedAncestor(ns: Namespace) returns (r: Option<Name>)
      requires forest.Valid() && forest.Has(ns)
      requires WalkEnds(LinksOf(forest.view), Crits(forest.view), ns.name)
      ensures r == if HasCrit(ns.info.conditions) then None
        else Up(LinksOf(forest.view), ns.name, WalkLength(LinksOf(forest.view), Crits(forest.view), ns.name))
    {
      ghost var l, crit := LinksOf(forest.view), Crits(forest.view);
      ghost var n := ns.name;
      ghost var w := WalkLength(l, crit, n);
      forest.Facts(ns);
      forest.LinkOf(ns);
      var local := ns.HasLocalCritCondition();
      if local {
        return None;
      }
      NotOverYet(l, crit, n);
      var ans := ns.parent;
      while ans != null
        invariant ans != null ==> forest.Has(ans) && WalkEnds(l, crit, ans.name)
        invariant ans != null ==>
          WalkLength(l, crit, ans.name) < w && Up(l, n, w) == Up(l, ans.name, WalkLength(l, crit, ans.name))
        invariant ans == null ==> Up(l, n, w) == None
        decreases if ans == null then 0 else 1 + WalkLength(l, crit, ans.name)
      {
        forest.Facts(ans);
        forest.LinkOf(ans);
        NotOverYet(l, crit, ans.name);
        var halted := ans.HasLocalCritCondition();
        if !halted {
          ans := ans.parent;
          continue;
        }
        return Some(ans.name);
      }
      return None;
    }

    /** How the walk from `a` continues. */
    lemma NotOverYet(l: Links, crit: set<Name>, a: Name)
      requires WalkEnds(l, crit, a)
      ensures a in crit ==> Up(l, a, WalkLength(l, crit, a)) == Some(a)
      ensures a !in crit && a !in l ==> Up(l, a, WalkLength(l, crit, a)) == None
      ensures a !in crit && a in l ==>
        && WalkEnds(l, crit, l[a]) && WalkLength(l, crit, a) == WalkLength(l, crit, l[a]) + 1
        && Up(l, a, WalkLength(l, crit, a)) == Up(l, l[a], WalkLength(l, crit, l[a]))
    {
      assert Up(l, a, 0) == Some(a);
      if a in crit {
        assert WalkOver(l, crit, a, 0);
      } else if a !in l {
        assert !WalkOver(l, crit, a, 0) && WalkOver(l, crit, a, 1);
      } else {
        WalkStep(l, crit, a);
        UpFirst(l, a, WalkLength(l, crit, l[a]));
      }
    }

    /** The beginning of `syncWithForest`: conditions are cleared and external labels are taken over. */
    method SyncFirst(ns: Namespace, cfg: Config)
      requires forest.Valid() && forest.Has(ns)
      modifies forest`view, ns`info, this`affected
      ensures forest.Valid() && forest.Has(ns)
      ensures forest.view == SyncExternal(old(forest.view), ns.name, cfg)
      ensures (ns.IsExternal() <==> !ManagedByHnc(cfg)) && ns.info.present == old(ns.info.present)
      ensures ns.info.anchors == old(ns.info.anchors)
      ensures old(affected) <= affected
      ensures old(ns.IsExternal()) != ns.IsExternal() ==>
        Descendants(LinksOf(old(forest.view)), ns.name) <= Elems(affected[|old(affected)|..])
    {
      ghost var s := forest.view;
      forest.Facts(ns);
      ClearConditions(ns);
      assert LinksOf(forest.view) == LinksOf(s);
      ExternalIff(ns.info, ns.name, cfg);
      SyncExternalNamespace(ns, cfg);
      forest.Facts(ns);
    }

    /** ... and the subnamespace annotation decides the parent to configure. */
    method SyncEarly(ns: Namespace, cfg: Config, ghost s: State) returns (parent: Name)
      requires WellFormed(s) && ns.name != NO_NAME && forest.Valid() && forest.Has(ns)
      requires forest.view == Touch(s, ns.name)
      modifies forest, ns`info, this`affected
      ensures forest.Valid() && forest.Has(ns)
      ensures forest.view == AfterSubnamespace(s, ns.name, cfg) && parent == ParentFor(s, ns.name, cfg)
      ensures LinksOf(forest.view) == LinksOf(s) && MissingAreRoots(forest.view)
      ensures forest.Repr >= old(forest.Repr) && fresh(forest.Repr - old(forest.Repr))
      ensures (ns.IsExternal() <==> !ManagedByHnc(cfg)) && ns.info.present == old(ns.info.present)
      ensures ns.info.anchors == old(ns.info.anchors)
      ensures old(affected) <= affected
      ensures old(ns.IsExternal()) != ns.IsExternal() ==>
        Descendants(LinksOf(s), ns.name) <= Elems(affected[|old(affected)|..])
    {
      TouchKeeps(s, ns.name);
      EarlyStagesKeepLinks(s, ns.name, cfg);
      SyncFirst(ns, cfg);
      forest.Facts(ns);
      SubnamespaceKeepsExternal(forest.view, ns.name, cfg);
      parent := SyncSubnamespaceParent(ns, cfg);
      forest.Facts(ns);
    }

    lemma ExternalIff(info: Info, n: Name, cfg: Config)
      ensures ExternalInfo(info, n, cfg).external.Keys != {} <==> !ManagedByHnc(cfg)
    {
      assert !ManagedByHnc(cfg) ==> n in ExternalInfo(info, n, cfg).external.Keys;
    }

    lemma SubnamespaceKeepsExternal(s: State, n: Name, cfg: Config)
      requires n in s
      ensures n in SyncSubnamespace(s, n, cfg) && SyncSubnamespace(s, n, cfg)[n].info.external == s[n].info.external
      ensures SyncSubnamespace(s, n, cfg)[n].info.present == s[n].info.present
      ensures SyncSubnamespace(s, n, cfg)[n].info.anchors == s[n].info.anchors
    {
    }

    /** The middle of `syncWithForest`: the parent and the rest of the configuration. */
    method SyncLate(ns: Namespace, cfg: Config, parent: Name) returns (initial: bool)
      requires forest.Valid() && forest.Has(ns) && MissingAreRoots(forest.view)
      modifies forest, forest.Repr, this`affected
      ensures forest.Valid() && forest.Has(ns)
      ensures forest.view == SyncSpec(SyncParent(old(forest.view), ns.name, parent, excluded), ns.name, cfg)
      ensures forest.Repr >= old(forest.Repr) && fresh(forest.Repr - old(forest.Repr))
      ensures old(affected) <= affected
      ensures !old(ns.IsExternal()) && LinksOf(forest.view) != LinksOf(old(forest.view)) ==>
        Descendants(LinksOf(forest.view), ns.name) <= Elems(affected[|old(affected)|..])
      ensures old(ns.IsExternal()) && LinksOf(forest.view) != LinksOf(old(forest.view)) ==> old(ns.parent) != null
      ensures initial == !old(ns.info.present)
      ensures !old(ns.IsExternal()) ==>
        MoveTold(old(forest.ParentLinks()), ns.name, NameOf(old(ns.parent)), NameOf(ns.parent),
          affected[|old(affected)|..])
      ensures RestTold(old(ns.info), NameOf(ns.parent), ns.children, cfg, affected[|old(affected)|..])
    {
      forest.Facts(ns);
      SyncParentLinks(forest.view, ns.name, parent);
      SyncParentOf(ns, parent);
      forest.Facts(ns);
      ghost var mid := affected;
      initial := SyncSpecOf(ns, cfg);
      LaterSuffix(old(affected), mid, affected);
    }

    method SyncSpecOf(ns: Namespace, cfg: Config) returns (initial: bool)
      requires forest.Valid() && forest.Has(ns)
      modifies forest`view, ns`info, this`affected
      ensures forest.Valid() && forest.Has(ns)
      ensures forest.view == SyncSpec(old(forest.view), ns.name, cfg)
      ensures LinksOf(forest.view) == LinksOf(old(forest.view))
      ensures initial == !old(ns.info.present)
      ensures old(affected) <= affected
      ensures RestTold(old(ns.info), NameOf(ns.parent), ns.children, cfg, affected[|old(affected)|..])
    {
      forest.Facts(ns);
      ghost var s := forest.view;
      initial := MarkExisting(ns);
      ghost var mid := affected;
      SyncAnchors(ns, cfg);
      SpecInTwo(s, ns.name, cfg);
      LaterSuffix(old(affected), mid, affected);
      forall x | (x in old(ns.info.anchors)) != (x in cfg.anchors) ensures x in Elems(affected[|old(affected)|..]) {
        assert x in Elems(affected[|mid|..]);
      }
    }

    lemma SpecInTwo(s: State, n: Name, cfg: Config)
      requires n in s
      ensures var t := WithInfo(s, n, s[n].info.(present := true));
        && WithInfo(t, n, t[n].info.(anchors := cfg.anchors, cascading := cfg.cascading)) == SyncSpec(s, n, cfg)
        && LinksOf(SyncSpec(s, n, cfg)) == LinksOf(s)
    {
    }

    /** An external namespace without a parent keeps all links; whether a namespace is known is not
        changed by its parent. */
    lemma SyncParentLinks(s: State, n: Name, p: Name)
      requires n in s && MissingAreRoots(s)
      ensures s[n].info.external.Keys != {} && s[n].parent == None ==> SyncParent(s, n, p, excluded) == s
      ensures n in SyncParent(s, n, p, excluded) && SyncParent(s, n, p, excluded)[n].info.present == s[n].info.present
      ensures SyncParent(s, n, p, excluded)[n].info.anchors == s[n].info.anchors
    {
      ParentKeepsSpec(s, n, p);
    }

    lemma ParentKeepsSpec(s: State, n: Name, p: Name)
      requires n in s && MissingAreRoots(s)
      ensures var t := SyncParent(s, n, p, excluded);
        n in t && t[n].info.present == s[n].info.present && t[n].info.anchors == s[n].info.anchors
    {
      if s[n].info.external.Keys == {} {
        ConditionKeepsSpec(Touch(s, p), n, p);
        ReparentKeepsInfo(ParentCondition(Touch(s, p), n, p, excluded), n, Named(p));
      } else {
        ReparentKeepsInfo(s, n, None);
      }
    }

    lemma ConditionKeepsSpec(s: State, n: Name, p: Name)
      requires n in s
      ensures var t := ParentCondition(s, n, p, excluded);
        n in t && t[n].info == s[n].info.(conditions := t[n].info.conditions)
    {
    }

    lemma ReparentKeepsInfo(s: State, n: Name, p: Option<Name>)
      requires n in s && MissingAreRoots(s)
      ensures n in Reparent(s, n, p) && Reparent(s, n, p)[n].info == s[n].info
    {
    }

    /** The stages from `syncParent` on, when those before have sent `affected[|start|..]`. */
    method LateStages(ns: Namespace, cfg: Config, parent: Name, ghost s: State, ghost start: seq<Name>, ghost was: bool)
      returns (initial: bool)
      requires forest.Valid() && forest.Has(ns) && MissingAreRoots(forest.view) && LinksOf(forest.view) == LinksOf(s)
      requires start <= affected && (was ==> ns.parent == null)
      requires was != ns.IsExternal() ==> Descendants(LinksOf(s), ns.name) <= Elems(affected[|start|..])
      modifies forest, forest.Repr, this`affected
      ensures forest.Valid() && forest.Has(ns)
      ensures forest.view == SyncSpec(SyncParent(old(forest.view), ns.name, parent, excluded), ns.name, cfg)
      ensures forest.Repr >= old(forest.Repr) && fresh(forest.Repr - old(forest.Repr))
      ensures start <= affected
      ensures LinksOf(forest.view) != LinksOf(s) ==>
        Told(ns.name, LinksOf(s), LinksOf(forest.view), affected[|start|..])
      ensures initial == !old(ns.info.present)
      ensures !old(ns.IsExternal()) ==>
        MoveTold(LinksOf(s), ns.name, NameOf(old(ns.parent)), NameOf(ns.parent), affected[|start|..])
      ensures RestTold(old(ns.info), NameOf(ns.parent), ns.children, cfg, affected[|start|..])
    {
      ghost var mid := affected;
      initial := SyncLate(ns, cfg, parent);
      LaterSuffix(start, mid, affected);
    }

    /** The part of `syncWithForest` before the conditions are final. Every descendant is enqueued if
        the parent changes, also when the namespace becomes external and so loses its parent. */
    method SyncStructure(ns: Namespace, cfg: Config, ghost s: State) returns (initial: bool)
      requires WellFormed(s) && ns.name != NO_NAME && forest.Valid() && forest.Has(ns)
      requires forest.view == Touch(s, ns.name)
      requires ns.IsExternal() ==> ns.parent == null
      modifies forest, forest.Repr, this`affected
      ensures forest.Valid() && forest.Has(ns)
      ensures forest.view == AfterParent(s, ns.name, cfg, excluded)
      ensures forest.Repr >= old(forest.Repr) && fresh(forest.Repr - old(forest.Repr))
      ensures old(affected) <= affected
      ensures LinksOf(forest.view) != LinksOf(s) ==>
        Told(ns.name, LinksOf(s), LinksOf(forest.view), affected[|old(affected)|..])
      ensures initial == !old(ns.info.present)
      ensures ManagedByHnc(cfg) ==>
        MoveTold(LinksOf(s), ns.name, NameOf(old(ns.parent)), NameOf(ns.parent), affected[|old(affected)|..])
      ensures RestTold(old(ns.info), NameOf(ns.parent), ns.children, cfg, affected[|old(affected)|..])
    {
      var parent := SyncEarly(ns, cfg, s);
      initial := LateStages(ns, cfg, parent, s, old(affected), old(ns.IsExternal()));
    }

    /** Enough has been sent: the descendants of `n`, before or after the change. */
    ghost predicate Told(n: Name, l: Links, m: Links, sent: seq<Name>) {
      Descendants(l, n) <= Elems(sent) || Descendants(m, n) <= Elems(sent)
    }

    method ClearConditions(ns: Namespace)
      requires forest.Valid() && forest.Has(ns)
      modifies forest`view, ns`info
      ensures forest.Valid() && forest.Has(ns)
      ensures ns.info == old(ns.info).(conditions := [])
      ensures forest.view == WithInfo(old(forest.view), ns.name, ns.info)
    {
      forest.Facts(ns);
      forest.SetInfo(ns, ns.info.(conditions := []));
    }

    /** `syncLabel`: returns the labels to write back and whether they differ from the ones recorded. */
    method SyncLabels(ns: Namespace, cfg: Config) returns (labels: Labels, changed: bool)
      requires forest.Valid() && forest.Has(ns)
      requires WalkEnds(LinksOf(forest.view), Crits(forest.view), ns.name)
      modifies forest`view, ns`info
      ensures forest.Valid() && forest.Has(ns)
      ensures forest.view == SyncLabel(old(forest.view), ns.name, cfg)
      ensures !old(ns.IsExternal()) ==> labels == ns.info.labels && (changed <==> labels != old(ns.info.labels))
      ensures old(ns.IsExternal()) ==> labels == cfg.labels.(depths := cfg.labels.depths[ns.name := 0]) && !changed
    {
      forest.Facts(ns);
      if ns.IsExternal() {
        return cfg.labels.(depths := cfg.labels.depths[ns.name := 0]), false;
      }
      var depths := ComputeDepths(ns);
      labels := Labels(depths, cfg.labels.others);
      changed := SetLabels(ns, labels);
    }

    /** `SetLabels`. */
    method SetLabels(ns: Namespace, labels: Labels) returns (changed: bool)
      requires forest.Valid() && forest.Has(ns)
      modifies forest`view, ns`info
      ensures forest.Valid() && forest.Has(ns) && ns.info == old(ns.info).(labels := labels)
      ensures forest.view == WithInfo(old(forest.view), ns.name, old(forest.view)[ns.name].info.(labels := labels))
      ensures changed <==> labels != old(ns.info.labels)
    {
      forest.Facts(ns);
      changed := labels != ns.info.labels;
      forest.SetInfo(ns, ns.info.(labels := labels));
    }

    /** The answers about `x` that other namespaces rely on have changed. */
    static ghost predicate Disturbed(s: State, t: State, x: Name)
      requires Sound(s) && Sound(t)
    {
      Ancestry(LinksOf(s), x) != Ancestry(LinksOf(t), x) || CritAncestor(s, x) != CritAncestor(t, x)
    }

    /** `syncWithForest` up to the critical conditions. */
    method SyncToCrit(ns: Namespace, cfg: Config, ghost s: State) returns (initial: bool)
      requires Sound(s) && ns.name != NO_NAME && forest.Valid() && forest.Has(ns)
      requires forest.view == Touch(s, ns.name)
      requires ns.IsExternal() ==> ns.parent == null
      modifies forest, forest.Repr, this`affected
      ensures forest.Valid() && forest.Has(ns)
      ensures forest.view == AfterCrit(s, ns.name, cfg, excluded)
      ensures old(affected) <= affected
      ensures LinksOf(forest.view) != LinksOf(s) || old(HasCrit(ns.info.conditions)) != HasCrit(ns.info.conditions) ==>
        Told(ns.name, LinksOf(s), LinksOf(forest.view), affected[|old(affected)|..])
      ensures initial == !old(ns.info.present)
      ensures ManagedByHnc(cfg) ==>
        MoveTold(LinksOf(s), ns.name, NameOf(old(ns.parent)), NameOf(ns.parent), affected[|old(affected)|..])
      ensures RestTold(old(ns.info), NameOf(ns.parent), ns.children, cfg, affected[|old(affected)|..])
    {
      var hadCrit := ns.HasLocalCritCondition();
      initial := SyncStructure(ns, cfg, s);
      ghost var mid := affected;
      SyncCritLinks(forest.view, ns.name, cfg);
      SyncCritConditions(ns, cfg.deletingCRD, hadCrit, cfg);
      LaterSuffix(old(affected), mid, affected);
    }

    lemma SyncCritLinks(s: State, n: Name, cfg: Config)
      requires n in s
      ensures LinksOf(SyncCrit(s, n, cfg)) == LinksOf(s)
    {
    }

    lemma EveryoneTold(s: State, n: Name, cfg: Config, sent: seq<Name>)
      requires n != NO_NAME && Sound(s)
      requires var t := AfterCrit(s, n, cfg, excluded);
        LinksOf(t) != LinksOf(s) || (n in Crits(s) <==> n !in Crits(t)) ==> Told(n, LinksOf(s), LinksOf(t), sent)
      ensures Sound(AfterCrit(s, n, cfg, excluded))
      ensures forall x | x != n && x in AfterCrit(s, n, cfg, excluded)
        && Disturbed(s, AfterCrit(s, n, cfg, excluded), x) :: x in sent
    {
      SyncKeepsSound(s, n, cfg, excluded);
      var t := AfterCrit(s, n, cfg, excluded);
      forall x | x != n && x in t && Disturbed(s, t, x) ensures x in sent {
        WhoIsAffected(s, n, cfg, excluded, x);
        assert x in Elems(sent);
      }
    }

    /** What a reconcile of `n` that leads from `s` to `t` tells others: every namespace whose ancestry or
        halting ancestor has changed, and the relatives and anchors concerned. */
    static ghost predicate Noticed(s: State, t: State, n: Name, cfg: Config, sent: seq<Name>)
      requires n != NO_NAME && n in t && Sound(s) && Sound(t)
    {
      var was := Touch(s, n)[n];
      && (forall x | x != n && x in t && Disturbed(s, t, x) :: x in sent)
      && (ManagedByHnc(cfg) ==> MoveTold(LinksOf(s), n, was.parent, t[n].parent, sent))
      && RestTold(was.info, t[n].parent, ChildrenOf(t, n), cfg, sent)
    }

    /** `syncWithForest`: does what `Sync` says, and tells whoever has to know. The objects are updated if
        the namespace was not known before or its labels have changed. */
    method SyncWithForest(n: Name, cfg: Config) returns (halted: Option<Name>, labels: Labels, needUpdate: bool)
      requires n != NO_NAME && forest.Valid() && Sound(forest.view)
      modifies forest, forest.Repr, this`affected
      ensures forest.Valid() && Sound(forest.view) && n in forest.view
      ensures forest.view == Sync(old(forest.view), n, cfg, excluded)
      ensures SyncedEntry.Takes(old(forest.view), forest.view, n, cfg, excluded)
      ensures old(affected) <= affected
      ensures Noticed(old(forest.view), forest.view, n, cfg, affected[|old(affected)|..])
      ensures halted == if n in Crits(forest.view) then None else CritAncestor(forest.view, n)
      ensures labels == if ManagedByHnc(cfg) then forest.view[n].info.labels
        else cfg.labels.(depths := cfg.labels.depths[n := 0])
      ensures needUpdate <==> NeedsUpdate(Touch(old(forest.view), n)[n].info, forest.view[n].info)
    {
      ghost var s := forest.view;
      TouchKeeps(s, n);
      SyncedEntry.SyncTakes(s, n, cfg, excluded);
      var ns := forest.Get(n);
      forest.Facts(ns);
      halted, labels, needUpdate := SyncFound(ns, cfg, s);
    }

    static ghost predicate NeedsUpdate(was: Info, now: Info) {
      !was.present || now.labels != was.labels
    }

    /** ... when the namespace has been looked up. */
    method SyncFound(ns: Namespace, cfg: Config, ghost s: State)
      returns (halted: Option<Name>, labels: Labels, needUpdate: bool)
      requires Sound(s) && ns.name != NO_NAME && forest.Valid() && forest.Has(ns)
      requires forest.view == Touch(s, ns.name) && ns.Abs() == Touch(s, ns.name)[ns.name]
      requires ns.IsExternal() ==> ns.parent == null
      modifies forest, forest.Repr, this`affected
      ensures forest.Valid() && Sound(forest.view) && ns.name in forest.view
      ensures forest.view == Sync(s, ns.name, cfg, excluded)
      ensures old(affected) <= affected
      ensures Noticed(s, forest.view, ns.name, cfg, affected[|old(affected)|..])
      ensures halted == if ns.name in Crits(forest.view) then None else CritAncestor(forest.view, ns.name)
      ensures labels == if ManagedByHnc(cfg) then forest.view[ns.name].info.labels
        else cfg.labels.(depths := cfg.labels.depths[ns.name := 0])
      ensures needUpdate <==> NeedsUpdate(Touch(s, ns.name)[ns.name].info, forest.view[ns.name].info)
    {
      StagesKeepLabels(s, ns.name, cfg);
      var initial := SyncStages(ns, cfg, s);
      var changed;
      halted, labels, changed := SyncFinish(ns, cfg, s, affected[|old(affected)|..]);
      needUpdate := initial || changed;
    }

    /** ... and from there on. */
    method SyncFinish(ns: Namespace, cfg: Config, ghost s: State, ghost sent: seq<Name>)
      returns (halted: Option<Name>, labels: Labels, changed: bool)
      requires Sound(s) && ns.name != NO_NAME && forest.Valid() && forest.Has(ns) && Sound(forest.view)
      requires forest.view == AfterCrit(s, ns.name, cfg, excluded) && ns.name in forest.view
      requires WalkEnds(LinksOf(forest.view), Crits(forest.view), ns.name) && (ns.IsExternal() <==> !ManagedByHnc(cfg))
      requires Noticed(s, forest.view, ns.name, cfg, sent)
      modifies forest`view, ns`info
      ensures forest.Valid() && Sound(forest.view) && ns.name in forest.view
      ensures forest.view == Sync(s, ns.name, cfg, excluded) && Noticed(s, forest.view, ns.name, cfg, sent)
      ensures halted == if ns.name in Crits(forest.view) then None else CritAncestor(forest.view, ns.name)
      ensures labels == if ManagedByHnc(cfg) then forest.view[ns.name].info.labels
        else cfg.labels.(depths := cfg.labels.depths[ns.name := 0])
      ensures changed <==> forest.view[ns.name].info.labels != old(forest.view)[ns.name].info.labels
    {
      NoticedAtEnd(s, forest.view, ns.name, cfg, sent);
      halted, labels, changed := SyncEnd(ns, cfg);
    }

    method SyncEnd(ns: Namespace, cfg: Config) returns (halted: Option<Name>, labels: Labels, changed: bool)
      requires forest.Valid() && forest.Has(ns) && EveryCycleHit(LinksOf(forest.view), Crits(forest.view))
      requires ns.name in forest.view && WalkEnds(LinksOf(forest.view), Crits(forest.view), ns.name)
      requires ns.IsExternal() <==> !ManagedByHnc(cfg)
      modifies forest`view, ns`info
      ensures forest.Valid() && ns.name in forest.view && forest.view == SyncLabel(old(forest.view), ns.name, cfg)
      ensures halted == if ns.name in Crits(old(forest.view)) then None else CritAncestor(old(forest.view), ns.name)
      ensures labels == if ManagedByHnc(cfg) then forest.view[ns.name].info.labels
        else cfg.labels.(depths := cfg.labels.depths[ns.name := 0])
      ensures changed <==> forest.view[ns.name].info.labels != old(forest.view)[ns.name].info.labels
    {
      forest.Facts(ns);
      halted, labels, changed := SyncStatus(ns, cfg);
      forest.Facts(ns);
    }

    /** ... up to the critical conditions. */
    method SyncStages(ns: Namespace, cfg: Config, ghost s: State) returns (initial: bool)
      requires Sound(s) && ns.name != NO_NAME && forest.Valid() && forest.Has(ns)
      requires forest.view == Touch(s, ns.name) && ns.Abs() == Touch(s, ns.name)[ns.name]
      requires ns.IsExternal() ==> ns.parent == null
      modifies forest, forest.Repr, this`affected
      ensures forest.Valid() && forest.Has(ns) && Sound(forest.view) && ns.name in forest.view
      ensures forest.view == AfterCrit(s, ns.name, cfg, excluded) && ns.Abs() == forest.view[ns.name]
      ensures old(affected) <= affected && Noticed(s, forest.view, ns.name, cfg, affected[|old(affected)|..])
      ensures initial == !old(ns.info.present)
    {
      initial := SyncToCrit(ns, cfg, s);
      forest.Facts(ns);
      EveryoneTold(s, ns.name, cfg, affected[|old(affected)|..]);
    }

    lemma StagesKeepLabels(s: State, n: Name, cfg: Config)
      requires n != NO_NAME && Sound(s)
      ensures var t := AfterCrit(s, n, cfg, excluded);
        && n in t && t[n].info.labels == Touch(s, n)[n].info.labels
        && (t[n].info.external.Keys == {} <==> ManagedByHnc(cfg))
        && EveryCycleHit(LinksOf(t), Crits(t)) && WalkEnds(LinksOf(t), Crits(t), n)
    {
      StagesTouchOnly(s, n, cfg, excluded);
      WalkFromHit(LinksOf(AfterCrit(s, n, cfg, excluded)), Crits(AfterCrit(s, n, cfg, excluded)), n);
      EarlyKeepLabels(s, n, cfg);
      EarlyStagesKeepLinks(s, n, cfg);
      LateKeepLabels(AfterSubnamespace(s, n, cfg), n, ParentFor(s, n, cfg), cfg);
    }

    lemma EarlyKeepLabels(s: State, n: Name, cfg: Config)
      requires n != NO_NAME
      ensures var t := AfterSubnamespace(s, n, cfg); n in t && t[n].info.labels == Touch(s, n)[n].info.labels
    {
    }

    lemma LateKeepLabels(s: State, n: Name, p: Name, cfg: Config)
      requires n in s && WellFormed(s)
      ensures var t := SyncCrit(SyncSpec(SyncParent(s, n, p, excluded), n, cfg), n, cfg);
        n in t && t[n].info.labels == s[n].info.labels
    {
      ParentKeepsLabels(s, n, p);
    }

    lemma ParentKeepsLabels(s: State, n: Name, p: Name)
      requires n in s && MissingAreRoots(s)
      ensures var t := SyncParent(s, n, p, excluded); n in t && t[n].info.labels == s[n].info.labels
    {
      if s[n].info.external.Keys == {} {
        var s1 := ParentCondition(Touch(s, p), n, p, excluded);
        assert s1[n].info.labels == s[n].info.labels;
      }
    }

    /** Recording the labels disturbs nobody. */
    lemma NoticedAtEnd(s: State, t: State, n: Name, cfg: Config, sent: seq<Name>)
      requires n != NO_NAME && n in t && Sound(s) && Sound(t) && WalkEnds(LinksOf(t), Crits(t), n)
      requires Noticed(s, t, n, cfg, sent)
      ensures var u := SyncLabel(t, n, cfg);
        && Sound(u) && n in u && Noticed(s, u, n, cfg, sent)
        && Crits(u) == Crits(t) && CritAncestor(u, n) == CritAncestor(t, n)
    {
      SyncLabelKeeps(t, n, cfg);
      var u := SyncLabel(t, n, cfg);
      SameParents(t, n, cfg);
      forall x | x != n && x in u && Disturbed(s, u, x) ensures x in sent { assert Disturbed(s, t, x); }
    }

    lemma SameParents(t: State, n: Name, cfg: Config)
      requires n in t && WalkEnds(LinksOf(t), Crits(t), n)
      ensures var u := SyncLabel(t, n, cfg);
        n in u && ChildrenOf(u, n) == ChildrenOf(t, n) && u[n].parent == t[n].parent
    {
    }

    /** The end of `syncWithForest`: the halted ancestor to report, and the labels. */
    method SyncStatus(ns: Namespace, cfg: Config) returns (halted: Option<Name>, labels: Labels, changed: bool)
      requires forest.Valid() && forest.Has(ns)
      requires EveryCycleHit(LinksOf(forest.view), Crits(forest.view))
      requires WalkEnds(LinksOf(forest.view), Crits(forest.view), ns.name)
      modifies forest`view, ns`info
      ensures forest.Valid() && forest.Has(ns)
      ensures forest.view == SyncLabel(old(forest.view), ns.name, cfg)
      ensures halted == if ns.name in Crits(old(forest.view)) then None else CritAncestor(old(forest.view), ns.name)
      ensures if old(ns.IsExternal()) then labels == cfg.labels.(depths := cfg.labels.depths[ns.name := 0]) && !changed
        else labels == ns.info.labels && (changed <==> labels != old(ns.info.labels))
    {
      forest.Facts(ns);
      halted := HaltedAncestor(ns);
      labels, changed := SyncLabels(ns, cfg);
    }

    lemma SyncLabelKeeps(s: State, n: Name, cfg: Config)
      requires n in s && Sound(s) && WalkEnds(LinksOf(s), Crits(s), n)
      ensures var t := SyncLabel(s, n, cfg);
        Sound(t) && LinksOf(t) == LinksOf(s) && Crits(t) == Crits(s) && t.Keys == s.Keys
    {
      if s[n].info.external.Keys == {} {
        OtherInfoKeepsSound(s, n, s[n].info.(labels := Labels(TreeLabels(s, n), cfg.labels.others)));
      }
    }

    /** `onMissingNamespace`. */
    method OnMissingNamespace(n: Name)
      requires n != NO_NAME && forest.Valid() && Sound(forest.view)
      modifies forest, forest.Repr, this`affected
      ensures forest.Valid() && Sound(forest.view) && forest.view == Remove(old(forest.view), n)
      ensures old(affected) <= affected
      ensures n in old(forest.view) && old(forest.view)[n].info.present ==>
        && ChildrenOf(old(forest.view), n) <= Elems(affected[|old(affected)|..])
        && (old(forest.view)[n].parent.Some? ==> old(forest.view)[n].parent.value in affected[|old(affected)|..])
    {
      ghost var s := forest.view;
      TouchKeeps(s, n);
      RemoveKeepsSound(s, n);
      var ns := forest.Get(n);
      forest.Facts(ns);
      if ns.info.present {
        TellChildren(ns);
        var changed := forest.UnsetExists(ns);
      }
    }

    method TellChildren(ns: Namespace)
      requires forest.Valid() && forest.Has(ns)
      modifies this`affected
      ensures old(affected) <= affected
      ensures ChildrenOf(forest.view, ns.name) <= Elems(affected[|old(affected)|..])
      ensures ns.parent != null ==> ns.parent.name in affected[|old(affected)|..]
    {
      forest.Facts(ns);
      EnqueueOne(ns.parent);
      ghost var mid := affected;
      var cs := forest.ChildNames(ns);
      EnqueueAffected(cs);
      assert affected[|mid|..] == cs;
      LaterSuffix(old(affected), mid, affected);
      if ns.parent != null { assert ns.parent.name in Elems(mid[|old(affected)|..]); }
    }
  }
}
