/** The object reconciler on the heap forest: each reconcile is proved to be the step `Reconciled` of
    the propagation protocol. */
module ObjectReconciler {
  import opened Names
  import opened ParentLinks
  import opened Cycles
  import opened Objects
  import opened ForestState
  import opened NamespaceForest
  import S = HierarchySteps
  import P = Propagation

  /** The recorded sources of one type in the forest, as a map over keys. */
  ghost predicate Records(s: State, kind: Kind, sources: map<P.Key, Obj>) {
    forall k: P.Key {:trigger RecordedAt(s, kind, sources, k)} :: RecordedAt(s, kind, sources, k)
  }

  ghost predicate RecordedAt(s: State, kind: Kind, sources: map<P.Key, Obj>, k: P.Key) {
    && (k in sources <==> k.ns in s && HasSource(s[k.ns].info, kind, k.name))
    && (k in sources ==> sources[k] == s[k.ns].info.sources[kind][k.name])
  }

  predicate HasSource(info: Info, kind: Kind, name: string) {
    kind in info.sources && name in info.sources[kind]
  }

  /** `SetSourceObject`. */
  function WithSource(info: Info, kind: Kind, name: string, o: Obj): Info {
    var objs := if kind in info.sources then info.sources[kind] else map[];
    info.(sources := info.sources[kind := objs[name := o]])
  }

  /** `DeleteSourceObject`, with the collection of empty maps. */
  function WithoutSource(info: Info, kind: Kind, name: string): Info {
    if kind !in info.sources then info
    else
      var objs := info.sources[kind] - {name};
      if objs.Keys == {} then info.(sources := info.sources - {kind}) else info.(sources := info.sources[kind := objs])
  }

  lemma WithoutSourceIs(info: Info, kind: Kind, name: string, x: string)
    ensures HasSource(WithoutSource(info, kind, name), kind, x) <==> HasSource(info, kind, x) && x != name
    ensures HasSource(WithoutSource(info, kind, name), kind, x) ==>
      WithoutSource(info, kind, name).sources[kind][x] == info.sources[kind][x]
  {
    if kind in info.sources {
      var objs := info.sources[kind] - {name};
      assert x in objs <==> x in info.sources[kind] && x != name;
      assert objs.Keys == {} ==> x !in objs;
    }
  }

  ghost function Present(s: State): set<Name> {
    set n | n in s && s[n].info.present
  }

  ghost function WorldOf(s: State, excluded: set<Name>, propagates: (Obj, Name) -> bool,
    unpropagated: set<string>): P.World {
    P.World(LinksOf(s), Crits(s), Present(s), excluded, propagates, unpropagated)
  }

  /** In every reachable forest, what is proved about propagation applies. */
  lemma ReachableWorldIsValid(steps: seq<S.Step>, excluded: set<Name>, propagates: (Obj, Name) -> bool,
    unpropagated: set<string>)
    ensures P.ValidWorld(WorldOf(S.Run(steps, excluded), excluded, propagates, unpropagated))
  {
  }

  /** `t` is `s` with other source objects in `n`, or with a blank entry for it. */
  lemma SourcesKeepWorld(s: State, n: Name, info: Info)
    requires n in s && info == s[n].info.(sources := info.sources)
    ensures var t := s[n := Node(s[n].parent, info)];
      LinksOf(t) == LinksOf(s) && Crits(t) == Crits(s) && t.Keys == s.Keys
      && Present(t) == Present(s)
  {
    var t := s[n := Node(s[n].parent, info)];
    assert forall x | x in s :: t[x].parent == s[x].parent && t[x].info == s[x].info.(sources := t[x].info.sources);
  }

  /** Other sources in `n`, and the map over keys changed accordingly. */
  lemma RecordsAfter(s: State, kind: Kind, was: map<P.Key, Obj>, now: map<P.Key, Obj>, n: Name, info: Info)
    requires n in s && Records(s, kind, was)
    requires forall k: P.Key | k.ns == n ::
      (k in now <==> HasSource(info, kind, k.name)) && (k in now ==> now[k] == info.sources[kind][k.name])
    requires forall k: P.Key | k.ns != n :: (k in now <==> k in was) && (k in now ==> now[k] == was[k])
    ensures Records(s[n := Node(s[n].parent, info)], kind, now)
  {
    var t := s[n := Node(s[n].parent, info)];
    forall k: P.Key ensures RecordedAt(t, kind, now, k) {
      assert RecordedAt(s, kind, was, k);
    }
  }

  lemma TouchKeepsWorld(s: State, n: Name)
    ensures LinksOf(Touch(s, n)) == LinksOf(s) && Crits(Touch(s, n)) == Crits(s)
    ensures Present(Touch(s, n)) == Present(s)
  {
  }

  /** What `syncObject` decides before it is known whether the namespace is halted. */
  ghost function Wanted(w: P.World, c: P.Cluster, k: P.Key): P.Decision {
    var top := P.Top(w, c.sources, k);
    if k in c.store && !Inherited(c.store[k]) && top.None?
    then P.Decision(c.sources[k := CleanSource(c.store[k], w.unpropagated)], P.CopiesOf(w, k), P.Nop)
    else P.Decision(c.sources - {k}, {}, P.CopyAction(c, k, top))
  }

  lemma DecideWanted(w: P.World, c: P.Cluster, k: P.Key)
    requires k.ns in w.present && (k in c.store || k !in c.sources)
    ensures P.Decide(w, c, k) ==
      Wanted(w, c, k).(action := if P.Halted(w, k.ns) then P.Nop else Wanted(w, c, k).action)
  {
  }

  class Reconciler {
    const forest: Forest
    const kind: Kind
    const excluded: set<Name>
    const propagates: (Obj, Name) -> bool
    const unpropagated: set<string>
    /** The objects of this type in the API server. */
    var store: map<P.Key, Obj>
    /** The keys waiting to be reconciled. */
    var queue: set<P.Key>
    /** The sources recorded in the forest. */
    ghost var sources: map<P.Key, Obj>

    constructor (forest: Forest, kind: Kind, excluded: set<Name>, propagates: (Obj, Name) -> bool,
        unpropagated: set<string>, store: map<P.Key, Obj>)
      requires forest.Valid() && S.Sound(forest.view) && Records(forest.view, kind, map[])
      ensures Valid() && this.forest == forest && this.kind == kind
      ensures P.IsStart(Cluster()) && this.store == store
    {
      this.forest, this.kind, this.excluded := forest, kind, excluded;
      this.propagates, this.unpropagated := propagates, unpropagated;
      this.store, queue, sources := store, store.Keys, map[];
    }

    ghost predicate Valid()
      reads this, forest, forest.Repr
    {
      forest.Valid() && S.Sound(forest.view) && Records(forest.view, kind, sources)
    }

    ghost function World(): P.World
      reads this, forest
    {
      WorldOf(forest.view, excluded, propagates, unpropagated)
    }

    ghost function Cluster(): P.Cluster
      reads this
    {
      P.Cluster(store, sources, queue)
    }

    /** `SetSourceObject` or `DeleteSourceObject` on `ns`. */
    method PutSources(ns: Namespace, info: Info, ghost now: map<P.Key, Obj>)
      requires Valid() && forest.Has(ns) && info == ns.info.(sources := info.sources)
      requires forall k: P.Key | k.ns == ns.name ::
        (k in now <==> HasSource(info, kind, k.name)) && (k in now ==> now[k] == info.sources[kind][k.name])
      requires forall k: P.Key | k.ns != ns.name :: (k in now <==> k in sources) && (k in now ==> now[k] == sources[k])
      modifies forest`view, ns`info, this`sources
      ensures Valid() && World() == old(World()) && sources == now && forest.Has(ns)
    {
      ghost var s := forest.view;
      forest.Facts(ns);
      RecordsAfter(s, kind, sources, now, ns.name, info);
      SourcesKeepWorld(s, ns.name, info);
      S.OtherInfoKeepsSound(s, ns.name, info);
      forest.SetInfo(ns, info);
      sources := now;
    }

    method DeleteSource(ns: Namespace, name: string)
      requires Valid() && forest.Has(ns)
      modifies forest`view, ns`info, this`sources
      ensures Valid() && World() == old(World()) && sources == old(sources) - {P.Key(ns.name, name)} && forest.Has(ns)
    {
      forest.Facts(ns);
      forall k: P.Key | k.ns == ns.name ensures RecordedAt(forest.view, kind, sources, k) { }
      forall k: P.Key { WithoutSourceIs(ns.info, kind, name, k.name); }
      PutSources(ns, WithoutSource(ns.info, kind, name), sources - {P.Key(ns.name, name)});
    }

    method SetSource(ns: Namespace, name: string, o: Obj)
      requires Valid() && forest.Has(ns)
      modifies forest`view, ns`info, this`sources
      ensures Valid() && World() == old(World()) && sources == old(sources)[P.Key(ns.name, name) := o] && forest.Has(ns)
    {
      forest.Facts(ns);
      forall k: P.Key | k.ns == ns.name ensures RecordedAt(forest.view, kind, sources, k) { }
      PutSources(ns, WithSource(ns.info, kind, name, o), sources[P.Key(ns.name, name) := o]);
    }

    /** `GetCritAncestor`, asked for emptiness. */
    method IsHalted(ns: Namespace) returns (halted: bool)
      requires Valid() && forest.Has(ns)
      ensures halted <==> P.Halted(World(), ns.name)
    {
      WalkFromHit(LinksOf(forest.view), Crits(forest.view), ns.name);
      var ca := forest.GetCritAncestor(ns);
      halted := ca.Some?;
    }

    /** `enqueueDescendants`. */
    method EnqueueDescendants(ns: Namespace, name: string)
      requires Valid() && forest.Has(ns)
      modifies this`queue
      ensures queue == old(queue) + P.CopiesOf(World(), P.Key(ns.name, name))
    {
      var halted := IsHalted(ns);
      if halted {
        return;
      }
      var ds := forest.DescendantNames(ns);
      for i := 0 to |ds|
        invariant queue == old(queue) + set j | 0 <= j < i :: P.Key(ds[j], name)
      {
        queue := queue + {P.Key(ds[i], name)};
      }
      assert forall d :: d in ds <==> d in Elems(ds);
    }

    /** `getTopSourceToPropagate`. */
    method GetTopSource(ns: Namespace, name: string) returns (r: Option<Name>)
      requires Valid() && forest.Has(ns)
      ensures r == P.Top(World(), sources, P.Key(ns.name, name))
    {
      ghost var w, k := World(), P.Key(ns.name, name);
      forest.LinkOf(ns);
      var ans := forest.AncestryNames(ns.parent);
      assert ans == P.Above(w, ns.name);
      var i := 0;
      while i < |ans|
        invariant 0 <= i <= |ans|
        invariant P.Top(w, sources, k) == P.FirstOffer(w, sources, k, ans[i..])
      {
        OneFurther(w, sources, k, ans, i);
        var offers := Offers(ns, ans, i, name);
        if offers {
          return Some(ans[i]);
        }
        i := i + 1;
      }
      return None;
    }

    lemma OneFurther(w: P.World, s: map<P.Key, Obj>, k: P.Key, ans: seq<Name>, i: nat)
      requires i < |ans|
      ensures P.FirstOffer(w, s, k, ans[i..]) ==
        if P.Offers(w, s, k, ans[i]) then Some(ans[i]) else P.FirstOffer(w, s, k, ans[i + 1..])
    {
      assert ans[i..][1..] == ans[i + 1..];
    }

    /** Whether the ancestor `ans[i]` has a source of that name which selects `ns`. */
    method Offers(ns: Namespace, ans: seq<Name>, i: nat, name: string) returns (r: bool)
      requires Valid() && forest.Has(ns) && ns.parent != null && i < |ans| && ans == P.Above(World(), ns.name)
      ensures r <==> P.Offers(World(), sources, P.Key(ns.name, name), ans[i])
    {
      assert RecordedAt(forest.view, kind, sources, P.Key(ans[i], name));
      var anc := Registered(ns, ans, i);
      r := HasSource(anc.info, kind, name) && propagates(anc.info.sources[kind][name], ns.name);
    }

    /** The namespace object of an ancestor. */
    method Registered(ns: Namespace, ans: seq<Name>, i: nat) returns (anc: Namespace)
      requires Valid() && forest.Has(ns) && ns.parent != null && i < |ans|
      requires ans == P.Above(World(), ns.name)
      ensures ans[i] in forest.view && forest.view[ans[i]].info == anc.info
    {
      ghost var l := forest.ParentLinks();
      forest.LinkOf(ns);
      forest.Facts(ns);
      forest.ViewClosed();
      AncestryElements(l, ns.parent.name, ans, ans[i]);
      ghost var k: nat :| Up(l, ns.parent.name, k) == Some(ans[i]);
      forest.Facts(ns.parent);
      WalkStaysIn(forest.view, ns.parent.name, k);
      assert forest.Linked(ans[i]);
      anc := forest.namespaces[ans[i]];
    }

    /** `syncWithForest`: the action to take on the object under `k`, and the source to write. */
    method SyncWithForest(k: P.Key) returns (action: P.Action, src: Option<Obj>)
      requires Valid() && k.ns != NO_NAME
      modifies forest, forest.Repr, this`queue, this`sources
      ensures Valid() && World() == old(World()) && store == old(store)
      ensures var d := P.Decide(old(World()), old(Cluster()), k);
        sources == d.sources && queue == old(queue) + d.enqueued && action == d.action
      ensures action.Write? ==>
        P.Key(action.from, k.name) in old(sources) && src == Some(old(sources)[P.Key(action.from, k.name)])
      ensures forest.Repr >= old(forest.Repr) && fresh(forest.Repr - old(forest.Repr))
    {
      var ns := Lookup(k.ns);
      action, src := SyncIn(ns, k);
    }

    /** ... when the namespace has been looked up. */
    method SyncIn(ns: Namespace, k: P.Key) returns (action: P.Action, src: Option<Obj>)
      requires Valid() && forest.Has(ns) && k.ns == ns.name && (k.ns in World().present <==> ns.info.present)
      requires HasSource(ns.info, kind, k.name) <==> k in sources
      modifies forest`view, ns`info, this`queue, this`sources
      ensures Valid() && World() == old(World())
      ensures var d := P.Decide(old(World()), old(Cluster()), k);
        sources == d.sources && queue == old(queue) + d.enqueued && action == d.action
      ensures action.Write? ==>
        P.Key(action.from, k.name) in old(sources) && src == Some(old(sources)[P.Key(action.from, k.name)])
    {
      if !ns.info.present {
        return P.Nop, None;
      }
      if k !in store && HasSource(ns.info, kind, k.name) {
        SyncMissing(ns, k);
        return P.Nop, None;
      }
      action, src := SyncExisting(ns, k);
    }

    /** ... for an object that exists or that is wanted as a copy. */
    method SyncExisting(ns: Namespace, k: P.Key) returns (action: P.Action, src: Option<Obj>)
      requires Valid() && forest.Has(ns) && k.ns == ns.name && k.ns in World().present && (k in store || k !in sources)
      modifies forest`view, ns`info, this`queue, this`sources
      ensures Valid() && World() == old(World())
      ensures var d := P.Decide(old(World()), old(Cluster()), k);
        sources == d.sources && queue == old(queue) + d.enqueued && action == d.action
      ensures action.Write? ==>
        P.Key(action.from, k.name) in old(sources) && src == Some(old(sources)[P.Key(action.from, k.name)])
    {
      DecideWanted(World(), Cluster(), k);
      action, src := SyncObject(ns, k);
      var halted := IsHalted(ns);
      if halted {
        action := P.Nop;
      }
    }

    /** `syncMissingObject`: a recorded source is gone. */
    method SyncMissing(ns: Namespace, k: P.Key)
      requires Valid() && forest.Has(ns) && k.ns == ns.name
      modifies forest`view, ns`info, this`queue, this`sources
      ensures Valid() && World() == old(World()) && forest.Has(ns)
      ensures sources == old(sources) - {k} && queue == old(queue) + P.CopiesOf(World(), k)
    {
      assert k == P.Key(ns.name, k.name);
      DeleteSource(ns, k.name);
      EnqueueDescendants(ns, k.name);
    }

    /** `syncSource`. */
    method SyncSource(ns: Namespace, k: P.Key, o: Obj)
      requires Valid() && forest.Has(ns) && k.ns == ns.name
      modifies forest`view, ns`info, this`queue, this`sources
      ensures Valid() && World() == old(World()) && forest.Has(ns)
      ensures sources == old(sources)[k := CleanSource(o, unpropagated)] && queue == old(queue) + P.CopiesOf(World(), k)
    {
      assert k == P.Key(ns.name, k.name);
      SetSource(ns, k.name, CleanSource(o, unpropagated));
      EnqueueDescendants(ns, k.name);
    }

    /** `syncObject`: the object is a copy or a source. */
    method SyncObject(ns: Namespace, k: P.Key) returns (action: P.Action, src: Option<Obj>)
      requires Valid() && forest.Has(ns) && k.ns == ns.name && (k in store || k !in sources)
      modifies forest`view, ns`info, this`queue, this`sources
      ensures Valid() && World() == old(World()) && forest.Has(ns)
      ensures var d := Wanted(old(World()), old(Cluster()), k);
        sources == d.sources && queue == old(queue) + d.enqueued && action == d.action
      ensures action.Write? ==>
        P.Key(action.from, k.name) in old(sources) && src == Some(old(sources)[P.Key(action.from, k.name)])
    {
      assert k == P.Key(ns.name, k.name);
      var top := GetTopSource(ns, k.name);
      action, src := SyncWith(ns, k, top);
    }

    /** ... when the topmost source is known. */
    method SyncWith(ns: Namespace, k: P.Key, top: Option<Name>) returns (action: P.Action, src: Option<Obj>)
      requires Valid() && forest.Has(ns) && k.ns == ns.name && top == P.Top(World(), sources, k)
      modifies forest`view, ns`info, this`queue, this`sources
      ensures Valid() && World() == old(World()) && forest.Has(ns)
      ensures var d := Wanted(old(World()), old(Cluster()), k);
        sources == d.sources && queue == old(queue) + d.enqueued && action == d.action
      ensures action.Write? ==>
        P.Key(action.from, k.name) in old(sources) && src == Some(old(sources)[P.Key(action.from, k.name)])
    {
      src := None;
      if k !in store || Inherited(store[k]) || top.Some? {
        action, src := SyncPropagated(ns, k, top);
      } else {
        SyncSource(ns, k, store[k]);
        action := P.Nop;
      }
    }

    /** `Forest.Get`. */
    method Lookup(n: Name) returns (ns: Namespace)
      requires Valid() && n != NO_NAME
      modifies forest
      ensures Valid() && World() == old(World()) && forest.Has(ns) && ns.name == n
      ensures forest.Repr >= old(forest.Repr) && fresh(forest.Repr - old(forest.Repr))
      ensures ns.info.present <==> n in World().present
      ensures forall x :: HasSource(ns.info, kind, x) <==> P.Key(n, x) in sources
    {
      ghost var s := forest.view;
      TouchKeepsWorld(s, n);
      S.TouchKeeps(s, n);
      ns := forest.Get(n);
      forest.Facts(ns);
      forall k: P.Key ensures RecordedAt(forest.view, kind, sources, k) {
        assert RecordedAt(s, kind, sources, k);
      }
      forall x ensures HasSource(ns.info, kind, x) <==> P.Key(n, x) in sources {
        assert RecordedAt(forest.view, kind, sources, P.Key(n, x));
      }
    }

    /** `syncPropagated`. */
    method SyncPropagated(ns: Namespace, k: P.Key, top: Option<Name>) returns (action: P.Action, src: Option<Obj>)
      requires Valid() && forest.Has(ns) && k.ns == ns.name && top == P.Top(World(), sources, k)
      modifies forest`view, ns`info, this`sources
      ensures Valid() && World() == old(World()) && forest.Has(ns) && sources == old(sources) - {k}
      ensures action == P.CopyAction(old(Cluster()), k, top)
      ensures action.Write? ==>
        P.Key(action.from, k.name) in old(sources) && src == Some(old(sources)[P.Key(action.from, k.name)])
    {
      assert k == P.Key(ns.name, k.name);
      src := None;
      match top {
      case None =>
        action := P.Delete;
      case Some(a) =>
        var o := Source(P.Key(a, k.name));
        src := Some(o);
        if k !in store || Canonical(store[k]) != Canonical(o)
          || LABEL_INHERITED_FROM !in store[k].labels || store[k].labels[LABEL_INHERITED_FROM] != a.text {
          action := P.Write(a);
        } else {
          action := P.Nop;
        }
      }
      DeleteSource(ns, k.name);
    }

    /** `Reconcile`: the sync with the forest and the write or deletion that it asks for. */
    method Reconcile(k: P.Key)
      requires Valid() && k.ns != NO_NAME
      modifies forest, forest.Repr, this
      ensures Valid() && World() == old(World())
      ensures Cluster() == P.Reconciled(old(World()), old(Cluster()), k)
      ensures P.WritesOnly(old(World()), old(Cluster()), Cluster(), k)
    {
      P.ReconcileWritesOnly(World(), Cluster(), k);
      queue := queue - {k};
      if k.ns in excluded {
        return;
      }
      DecideIgnoresQueue(World(), Cluster(), k, old(queue));
      var action, src := SyncWithForest(k);
      Operate(k, action, src);
    }

    /** `operate`; the watch brings back an event for what was changed. */
    method Operate(k: P.Key, action: P.Action, src: Option<Obj>)
      requires action.Write? ==> src.Some?
      modifies this`store, this`queue
      ensures action.Nop? || (action.Delete? && k !in old(store)) ==> store == old(store) && queue == old(queue)
      ensures action.Delete? && k in old(store) ==> store == old(store) - {k} && queue == old(queue) + {k}
      ensures action.Write? ==> store == old(store)[k := CopyOf(src.value, action.from)] && queue == old(queue) + {k}
    {
      match action
      case Nop =>
      case Delete =>
        if k in store {
          store := store - {k};
          queue := queue + {k};
        }
      case Write(a) =>
        store := store[k := CopyOf(src.value, a)];
        queue := queue + {k};
    }

    lemma DecideIgnoresQueue(w: P.World, c: P.Cluster, k: P.Key, q: set<P.Key>)
      ensures P.Decide(w, c, k) == P.Decide(w, c.(queue := q), k)
    {
    }

    method Source(k: P.Key) returns (o: Obj)
      requires Valid() && k in sources
      ensures o == sources[k]
    {
      assert RecordedAt(forest.view, kind, sources, k);
      assert forest.Linked(k.ns);
      o := forest.namespaces[k.ns].info.sources[kind][k.name];
    }
  }
}
