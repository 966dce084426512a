/** Propagation of objects down a fixed hierarchy, as a protocol of user edits and reconciles over the
    API server's store, the sources recorded in the forest, and the queue of keys to reconcile. */
module Propagation {
  import opened Names
  import opened ParentLinks
  import opened Cycles
  import opened Objects

  datatype Key = Key(ns: Name, name: string)

  /** What does not change during a run: the parent links, the locally halted, the synced and the
      excluded namespaces, whether a source may be copied to a namespace, and the annotations that
      are never propagated. */
  datatype World = World(
    links: Links,
    crit: set<Name>,
    present: set<Name>,
    excluded: set<Name>,
    propagates: (Obj, Name) -> bool,
    unpropagated: set<string>)

  datatype Cluster = Cluster(store: map<Key, Obj>, sources: map<Key, Obj>, queue: set<Key>)

  // ----- The reconcile step -----

  ghost predicate Halted(w: World, n: Name) {
    exists m :: m in w.crit && Reach(w.links, n, m)
  }

  /** The namespaces whose sources are considered for `n`, from the top down. */
  ghost function Above(w: World, n: Name): seq<Name> {
    if n in w.links then Ancestry(w.links, w.links[n]) else []
  }

  predicate Offers(w: World, sources: map<Key, Obj>, k: Key, a: Name) {
    Key(a, k.name) in sources && w.propagates(sources[Key(a, k.name)], k.ns)
  }

  /** The first namespace of the list that has a source to propagate. */
  function FirstOffer(w: World, sources: map<Key, Obj>, k: Key, above: seq<Name>): (r: Option<Name>)
    ensures r.Some? ==> Offers(w, sources, k, r.value)
  {
    if above == [] then None
    else if Offers(w, sources, k, above[0]) then Some(above[0])
    else FirstOffer(w, sources, k, above[1..])
  }

  /** `getTopSourceToPropagate`. */
  ghost function Top(w: World, sources: map<Key, Obj>, k: Key): (r: Option<Name>)
    ensures r.Some? ==> Offers(w, sources, k, r.value)
  {
    FirstOffer(w, sources, k, Above(w, k.ns))
  }

  predicate UpToDate(o: Obj, src: Obj, from: Name) {
    && Canonical(o) == Canonical(src)
    && LABEL_INHERITED_FROM in o.labels && o.labels[LABEL_INHERITED_FROM] == from.text
  }

  /** The keys that `enqueueDescendants` sends for a source of namespace `k.ns`. */
  ghost function CopiesOf(w: World, k: Key): set<Key> {
    if Halted(w, k.ns) then {} else set d | d in Descendants(w.links, k.ns) :: Key(d, k.name)
  }

  datatype Action = Nop | Delete | Write(from: Name)

  /** What the sync with the forest decides: the new sources, the keys enqueued, and the action. */
  datatype Decision = Decision(sources: map<Key, Obj>, enqueued: set<Key>, action: Action)

  ghost function Decide(w: World, c: Cluster, k: Key): Decision {
    if k.ns !in w.present then Decision(c.sources, {}, Nop)
    else if k !in c.store && k in c.sources then Decision(c.sources - {k}, CopiesOf(w, k), Nop)
    else
      var top := Top(w, c.sources, k);
      if k in c.store && !Inherited(c.store[k]) && top.None?
      then Decision(c.sources[k := CleanSource(c.store[k], w.unpropagated)], CopiesOf(w, k), Nop)
      else Decision(c.sources - {k}, {}, if Halted(w, k.ns) then Nop else CopyAction(c, k, top))
  }

  /** `syncPropagated`: the action on a copy whose top source is `top`. */
  function CopyAction(c: Cluster, k: Key, top: Option<Name>): Action
    requires top.Some? ==> Key(top.value, k.name) in c.sources
  {
    match top
    case None => Delete
    case Some(a) =>
      if k in c.store && UpToDate(c.store[k], c.sources[Key(a, k.name)], a) then Nop else Write(a)
  }

  /** One reconcile of `k`; a write or a deletion comes back as an event for `k`. */
  ghost function Reconciled(w: World, c: Cluster, k: Key): Cluster {
    if k.ns in w.excluded then c.(queue := c.queue - {k})
    else
      var d := Decide(w, c, k);
      var rest := c.queue - {k} + d.enqueued;
      match d.action
      case Nop => Cluster(c.store, d.sources, rest)
      case Delete =>
        if k in c.store then Cluster(c.store - {k}, d.sources, rest + {k}) else Cluster(c.store, d.sources, rest)
      case Write(a) => Cluster(c.store[k := CopyOf(c.sources[Key(a, k.name)], a)], d.sources, rest + {k})
  }

  // ----- Runs -----

  datatype Event = Put(k: Key, o: Obj) | Drop(k: Key) | Reconcile(k: Key)

  ghost function After(w: World, c: Cluster, e: Event): Cluster {
    match e
    case Put(k, o) => c.(store := c.store[k := o], queue := c.queue + {k})
    case Drop(k) => c.(store := c.store - {k}, queue := c.queue + {k})
    case Reconcile(k) => Reconciled(w, c, k)
  }

  /** Users do not put an inherited object where the forest still has a source; everything else they
      may do. */
  predicate Admissible(c: Cluster, e: Event) {
    e.Put? && Inherited(e.o) ==> e.k !in c.sources
  }

  ghost function RunFrom(w: World, c: Cluster, es: seq<Event>): Cluster
    decreases |es|
  {
    if es == [] then c else RunFrom(w, After(w, c, es[0]), es[1..])
  }

  ghost predicate AdmissibleRun(w: World, c: Cluster, es: seq<Event>)
    decreases |es|
  {
    es == [] || (Admissible(c, es[0]) && AdmissibleRun(w, After(w, c, es[0]), es[1..]))
  }

  /** A start: nothing is recorded yet and everything that is stored is queued. */
  predicate IsStart(c: Cluster) {
    c.sources == map[] && c.store.Keys <= c.queue
  }

  // ----- What is right about a key -----

  /** Neither `n` nor any of its ancestors is halted, unsynced or excluded. */
  ghost predicate Live(w: World, n: Name) {
    forall a | Reach(w.links, n, a) :: a in w.present && a !in w.crit && a !in w.excluded
  }

  /** What is stored under `k` is right: an inherited object is the canonical copy of the topmost
      source above it, and any other object is recorded as a source and has no source above it. A
      missing object is not recorded - but a copy may be missing. */
  ghost predicate Settled(w: World, c: Cluster, k: Key) {
    var top := Top(w, c.sources, k);
    if k !in c.store then k !in c.sources
    else if Inherited(c.store[k]) then
      top.Some? && UpToDate(c.store[k], c.sources[Key(top.value, k.name)], top.value)
    else
      top.None? && k in c.sources && c.sources[k] == CleanSource(c.store[k], w.unpropagated)
  }

  /** The objects that can be recorded as sources. */
  predicate IsSourceForm(w: World, o: Obj) {
    CleanSource(o, w.unpropagated) == o && !Inherited(o)
  }

  /** Only what can be a source is recorded, and not where a copy is stored. */
  ghost predicate Proper(w: World, c: Cluster) {
    forall k | k in c.sources :: IsSourceForm(w, c.sources[k]) && (k in c.store ==> !Inherited(c.store[k]))
  }

  ghost predicate Inv(w: World, c: Cluster) {
    Proper(w, c) && forall k: Key | Live(w, k.ns) && k !in c.queue :: Settled(w, c, k)
  }

  /** If a source would be copied to `n`, it would also be copied to whatever is below `n` and accepts
      copies from `n`. Without this a copy can go stale. */
  ghost predicate Uniform(w: World) {
    forall a, n, d, o, o' {:trigger SkipsOver(w, a, n, d, o, o')} :: !SkipsOver(w, a, n, d, o, o')
  }

  ghost predicate SkipsOver(w: World, a: Name, n: Name, d: Name, o: Obj, o': Obj) {
    && Below(w.links, n, a) && Below(w.links, d, n) && Live(w, d)
    && IsSourceForm(w, o) && IsSourceForm(w, o')
    && w.propagates(o, n) && w.propagates(o', d) && !w.propagates(o, d)
  }

  ghost predicate ValidWorld(w: World) {
    EveryCycleHit(w.links, w.crit)
  }

  // ----- Facts about the hierarchy -----

  lemma LiveInTree(w: World, n: Name)
    requires ValidWorld(w) && Live(w, n)
    ensures !OnCycle(w.links, n) && !Halted(w, n) && n in w.present && n !in w.excluded
    ensures Ancestry(w.links, n)[0] !in w.links
    ensures forall a | Reach(w.links, n, a) :: Live(w, a)
  {
    ReachSelf(w.links, n);
    forall a | Reach(w.links, n, a) ensures Live(w, a) {
      forall b | Reach(w.links, a, b) ensures Reach(w.links, n, b) { ReachTransitive(w.links, n, a, b); }
    }
    NoCycleAbove(w, n, n);
    var a := Ancestry(w.links, n);
    AncestryElements(w.links, n, a, a[0]);
    AncestryTop(w.links, n);
    NoCycleAbove(w, n, a[0]);
  }

  lemma NoCycleAbove(w: World, n: Name, a: Name)
    requires ValidWorld(w) && Live(w, n) && Reach(w.links, n, a)
    ensures !OnCycle(w.links, a)
  {
    if OnCycle(w.links, a) {
      var m :| m in w.crit && Reach(w.links, a, m);
      ReachTransitive(w.links, n, a, m);
    }
  }

  lemma AboveElements(w: World, n: Name, a: Name)
    ensures a in Above(w, n) <==> Below(w.links, n, a)
  {
    if n in w.links { AncestryElements(w.links, w.links[n], Above(w, n), a); }
  }

  /** The list of namespaces above is the ancestry without the namespace itself. */
  lemma AboveIs(w: World, n: Name)
    requires ValidWorld(w) && Live(w, n)
    ensures Above(w, n) == Ancestry(w.links, n)[..|Ancestry(w.links, n)| - 1]
    ensures forall a :: a in Above(w, n) <==> Below(w.links, n, a)
    ensures n !in Above(w, n)
  {
    LiveInTree(w, n);
    if n in w.links {
      AncestryOfParent(w.links, n);
      forall a ensures a in Above(w, n) <==> Below(w.links, n, a) {
        AncestryElements(w.links, w.links[n], Above(w, n), a);
      }
    } else {
      AncestryIs(w.links, n, [n]);
    }
  }

  /** The namespaces above an ancestor come first in the list. */
  lemma AboveOfAncestor(w: World, d: Name, n: Name)
    requires ValidWorld(w) && Live(w, d) && Below(w.links, d, n)
    ensures Live(w, n) && |Above(w, n)| < |Above(w, d)|
    ensures Above(w, d)[..|Above(w, n)|] == Above(w, n) && Above(w, d)[|Above(w, n)|] == n
  {
    AboveIs(w, d);
    LiveInTree(w, d);
    ReachCases(w.links, d, n);
    AboveIs(w, n);
    var a := Ancestry(w.links, d);
    AncestryElements(w.links, d, a, n);
    var i :| 0 <= i < |a| && a[i] == n;
    AncestryPrefix(w.links, d, i);
    assert i < |a| - 1;
    assert Ancestry(w.links, n) == a[..i + 1];
    assert Above(w, n) == a[..i];
  }

  // ----- How the top source depends on the recorded sources -----

  lemma {:induction false} FirstOfferSame(w: World, s: map<Key, Obj>, t: map<Key, Obj>, k: Key, above: seq<Name>)
    requires forall a | a in above :: Offers(w, s, k, a) <==> Offers(w, t, k, a)
    ensures FirstOffer(w, s, k, above) == FirstOffer(w, t, k, above)
    decreases |above|
  {
    if above != [] { FirstOfferSame(w, s, t, k, above[1..]); }
  }

  lemma {:induction false} FirstOfferAppend(w: World, s: map<Key, Obj>, k: Key, pre: seq<Name>, rest: seq<Name>)
    ensures FirstOffer(w, s, k, pre + rest) ==
      if FirstOffer(w, s, k, pre).Some? then FirstOffer(w, s, k, pre) else FirstOffer(w, s, k, rest)
    decreases |pre|
  {
    if pre == [] {
      assert pre + rest == rest;
    } else {
      assert (pre + rest)[1..] == pre[1..] + rest;
      FirstOfferAppend(w, s, k, pre[1..], rest);
    }
  }

  lemma {:induction false} FirstOfferFinds(w: World, s: map<Key, Obj>, k: Key, above: seq<Name>)
    ensures FirstOffer(w, s, k, above).None? <==> forall a | a in above :: !Offers(w, s, k, a)
    ensures FirstOffer(w, s, k, above).Some? ==> FirstOffer(w, s, k, above).value in above
    decreases |above|
  {
    if above != [] {
      FirstOfferFinds(w, s, k, above[1..]);
      assert forall a :: a in above <==> a == above[0] || a in above[1..];
    }
  }

  /** The sources differ at most at `k`. */
  ghost predicate DifferAt(s: map<Key, Obj>, t: map<Key, Obj>, k: Key) {
    forall x | x != k :: (x in s <==> x in t) && (x in s ==> s[x] == t[x])
  }

  /** The top source of a key does not depend on a source that is not above it. */
  lemma TopElsewhere(w: World, s: map<Key, Obj>, t: map<Key, Obj>, k: Key, x: Key)
    requires DifferAt(s, t, k)
    requires x.name != k.name || !Below(w.links, x.ns, k.ns)
    ensures SameTop(w, s, t, x)
  {
    forall a | a in Above(w, x.ns) ensures Key(a, x.name) != k {
      AboveElements(w, x.ns, a);
    }
    FirstOfferSame(w, s, t, x, Above(w, x.ns));
    FirstOfferFinds(w, s, x, Above(w, x.ns));
  }

  /** `x` has the same top source, with the same content, in both. */
  ghost predicate SameTop(w: World, s: map<Key, Obj>, t: map<Key, Obj>, x: Key) {
    var top := Top(w, s, x);
    Top(w, t, x) == top && (top.Some? ==> s[Key(top.value, x.name)] == t[Key(top.value, x.name)])
  }

  /** Forgetting a source that is about to be overwritten changes no top source, if the selectors are
      uniform. */
  lemma TopAfterOverwrite(w: World, c: Cluster, k: Key, x: Key)
    requires ValidWorld(w) && Uniform(w) && Proper(w, c)
    requires Live(w, x.ns) && x.name == k.name && Below(w.links, x.ns, k.ns)
    requires Top(w, c.sources, k).Some?
    ensures Top(w, c.sources, x) == Top(w, c.sources - {k}, x)
  {
    AboveOfAncestor(w, x.ns, k.ns);
    if Offers(w, c.sources, x, k.ns) {
      OfferedFurtherUp(w, c, k, x);
    } else {
      ForgottenUnoffered(w, c.sources, k, x);
    }
  }

  /** A source that is not offered to `x` can be forgotten. */
  lemma ForgottenUnoffered(w: World, s: map<Key, Obj>, k: Key, x: Key)
    requires x.name == k.name && !Offers(w, s, x, k.ns)
    ensures Top(w, s, x) == Top(w, s - {k}, x)
  {
    forall b | b in Above(w, x.ns) ensures Offers(w, s, x, b) <==> Offers(w, s - {k}, x, b) {
      assert Key(b, x.name) != k || b == k.ns;
    }
    FirstOfferSame(w, s, s - {k}, x, Above(w, x.ns));
  }

  /** What is copied to `k` is also copied to `x`, and comes first. */
  lemma OfferedFurtherUp(w: World, c: Cluster, k: Key, x: Key)
    requires ValidWorld(w) && Uniform(w) && Proper(w, c)
    requires Live(w, x.ns) && x.name == k.name && Below(w.links, x.ns, k.ns)
    requires Top(w, c.sources, k).Some? && Offers(w, c.sources, x, k.ns)
    ensures Top(w, c.sources, x) == Top(w, c.sources - {k}, x)
  {
    var s, t := c.sources, c.sources - {k};
    AboveOfAncestor(w, x.ns, k.ns);
    AboveIs(w, k.ns);
    var pre := Above(w, k.ns);
    var rest := Above(w, x.ns)[|pre|..];
    assert Above(w, x.ns) == pre + rest;
    SelectedBelow(w, c, k, x);
    forall b | b in pre ensures Offers(w, s, x, b) <==> Offers(w, t, x, b) { assert Key(b, x.name) != k; }
    FrontDecides(w, s, t, x, pre, rest);
  }

  lemma FrontDecides(w: World, s: map<Key, Obj>, t: map<Key, Obj>, x: Key, pre: seq<Name>, rest: seq<Name>)
    requires forall b | b in pre :: Offers(w, s, x, b) <==> Offers(w, t, x, b)
    requires exists a :: a in pre && Offers(w, s, x, a)
    ensures FirstOffer(w, s, x, pre + rest) == FirstOffer(w, t, x, pre + rest)
  {
    FirstOfferFinds(w, s, x, pre);
    FirstOfferSame(w, s, t, x, pre);
    FirstOfferAppend(w, s, x, pre, rest);
    FirstOfferAppend(w, t, x, pre, rest);
  }

  lemma SelectedBelow(w: World, c: Cluster, k: Key, x: Key)
    requires Uniform(w) && Proper(w, c) && Live(w, x.ns) && x.name == k.name && Below(w.links, x.ns, k.ns)
    requires Top(w, c.sources, k).Some? && Offers(w, c.sources, x, k.ns)
    requires forall a :: a in Above(w, k.ns) <==> Below(w.links, k.ns, a)
    ensures exists a :: a in Above(w, k.ns) && Offers(w, c.sources, x, a)
  {
    var a := Top(w, c.sources, k).value;
    FirstOfferFinds(w, c.sources, k, Above(w, k.ns));
    assert !SkipsOver(w, a, k.ns, x.ns, c.sources[Key(a, k.name)], c.sources[k]);
    assert Offers(w, c.sources, x, a);
  }

  // ----- Every event keeps the invariant -----

  lemma CleanIsSourceForm(w: World, o: Obj)
    requires !Inherited(o)
    ensures IsSourceForm(w, CleanSource(o, w.unpropagated))
  {
    assert LABEL_MANAGED_BY_APPS[0] != LABEL_INHERITED_FROM[0];
    var c := CleanSource(o, w.unpropagated);
    assert c.annotations - w.unpropagated == c.annotations;
    assert c.labels[LABEL_MANAGED_BY_APPS := META_GROUP] == c.labels;
  }

  lemma CopiesAreQueued(w: World, k: Key, x: Key)
    requires ValidWorld(w) && Live(w, x.ns) && x.name == k.name && Below(w.links, x.ns, k.ns)
    ensures x in CopiesOf(w, k)
  {
    LiveInTree(w, x.ns);
    ReachCases(w.links, x.ns, k.ns);
    LiveInTree(w, k.ns);
    assert x.ns in Descendants(w.links, k.ns);
    assert x == Key(x.ns, k.name);
  }

  /** The top source of a live key that is not told of the reconcile stays the same. */
  lemma TopStays(w: World, c: Cluster, k: Key, x: Key)
    requires ValidWorld(w) && Uniform(w) && Proper(w, c) && k.ns !in w.excluded
    requires x != k && Live(w, x.ns) && x !in Decide(w, c, k).enqueued
    ensures SameTop(w, c.sources, Decide(w, c, k).sources, x)
  {
    var s := Decide(w, c, k).sources;
    if x.name == k.name && Below(w.links, x.ns, k.ns) {
      CopiesAreQueued(w, k, x);
      KeptOrOverwritten(w, c, k);
      if s != c.sources { TopAfterOverwrite(w, c, k, x); }
    } else {
      TopElsewhere(w, c.sources, s, k, x);
    }
  }

  lemma SettledCarries(w: World, c: Cluster, d: Cluster, x: Key)
    requires Settled(w, c, x) && SameTop(w, c.sources, d.sources, x)
    requires x in c.store <==> x in d.store
    requires x in c.store ==> c.store[x] == d.store[x]
    requires x in c.sources <==> x in d.sources
    requires x in c.sources ==> c.sources[x] == d.sources[x]
    ensures Settled(w, d, x)
  {
  }

  /** A key that is live, not queued and not the one reconciled stays settled. */
  lemma OthersStaySettled(w: World, c: Cluster, k: Key, x: Key)
    requires ValidWorld(w) && Uniform(w) && Proper(w, c) && Settled(w, c, x)
    requires x != k && Live(w, x.ns) && x !in Reconciled(w, c, k).queue
    ensures Settled(w, Reconciled(w, c, k), x)
  {
    if k.ns !in w.excluded { TopStays(w, c, k, x); }
    SettledCarries(w, c, Reconciled(w, c, k), x);
  }

  /** If the sources changed without telling the copies, a source was overwritten. */
  lemma KeptOrOverwritten(w: World, c: Cluster, k: Key)
    requires Proper(w, c) && k.ns !in w.excluded
    ensures var d := Decide(w, c, k);
      d.sources == c.sources || d.enqueued == CopiesOf(w, k) ||
      (d.sources == c.sources - {k} && Top(w, c.sources, k).Some?)
  {
  }

  /** The key that is reconciled is settled afterwards. */
  lemma ReconciledIsSettled(w: World, c: Cluster, k: Key)
    requires ValidWorld(w) && Proper(w, c) && Live(w, k.ns)
    ensures Settled(w, Reconciled(w, c, k), k)
  {
    LiveInTree(w, k.ns);
    var c' := Reconciled(w, c, k);
    AboveIs(w, k.ns);
    assert DifferAt(c.sources, c'.sources, k);
    TopElsewhere(w, c.sources, c'.sources, k, k) by {
      NotBelowItself(w, k.ns);
    }
    var top := Top(w, c.sources, k);
    if top.Some? {
      FirstOfferFinds(w, c.sources, k, Above(w, k.ns));
      var key := Key(top.value, k.name);
      assert key != k;
      CopyIsCanonical(c.sources[key], top.value);
    }
  }

  lemma NotBelowItself(w: World, n: Name)
    requires ValidWorld(w) && Live(w, n)
    ensures !Below(w.links, n, n)
  {
    LiveInTree(w, n);
  }

  lemma ReconcileKeepsInv(w: World, c: Cluster, k: Key)
    requires ValidWorld(w) && Uniform(w) && Inv(w, c)
    ensures Inv(w, Reconciled(w, c, k))
  {
    var c' := Reconciled(w, c, k);
    forall x: Key | Live(w, x.ns) && x !in c'.queue ensures Settled(w, c', x) {
      if x == k { ReconciledIsSettled(w, c, k); } else { OthersStaySettled(w, c, k, x); }
    }
    SourcesStayProper(w, c, k);
  }

  lemma SourcesStayProper(w: World, c: Cluster, k: Key)
    requires Proper(w, c)
    ensures Proper(w, Reconciled(w, c, k))
  {
    if k in c.store && !Inherited(c.store[k]) { CleanIsSourceForm(w, c.store[k]); }
  }

  lemma EventKeepsInv(w: World, c: Cluster, e: Event)
    requires ValidWorld(w) && Uniform(w) && Inv(w, c) && Admissible(c, e)
    ensures Inv(w, After(w, c, e))
  {
    if e.Reconcile? { ReconcileKeepsInv(w, c, e.k); }
  }

  // ----- What this means for the objects -----

  /** Among the namespaces above `k`, `a` is the topmost with a source of that name that is to be copied to it. */
  ghost predicate TopSource(w: World, sources: map<Key, Obj>, k: Key, a: Name) {
    exists i :: TopAt(w, sources, k, Above(w, k.ns), i) && Above(w, k.ns)[i] == a
  }

  ghost predicate TopAt(w: World, sources: map<Key, Obj>, k: Key, above: seq<Name>, i: int) {
    && 0 <= i < |above| && Key(above[i], k.name) in sources && w.propagates(sources[Key(above[i], k.name)], k.ns)
    && forall j | 0 <= j < i :: NotFrom(w, sources, k, above[j])
  }

  /** `a` has no source of that name, or none that is to be copied to `k`. */
  ghost predicate NotFrom(w: World, sources: map<Key, Obj>, k: Key, a: Name) {
    Key(a, k.name) in sources ==> !w.propagates(sources[Key(a, k.name)], k.ns)
  }

  lemma {:induction false} FirstOfferIs(w: World, s: map<Key, Obj>, k: Key, above: seq<Name>)
    ensures FirstOffer(w, s, k, above).None? <==> forall i | 0 <= i < |above| :: NotFrom(w, s, k, above[i])
    ensures FirstOffer(w, s, k, above).Some? ==>
      exists i :: TopAt(w, s, k, above, i) && above[i] == FirstOffer(w, s, k, above).value
    decreases |above|
  {
    if above != [] && !Offers(w, s, k, above[0]) {
      FirstOfferIs(w, s, k, above[1..]);
      if i :| TopAt(w, s, k, above[1..], i) && above[1..][i] == FirstOffer(w, s, k, above).value {
        assert above[i + 1] == above[1..][i];
        forall j | 0 <= j < i + 1 ensures NotFrom(w, s, k, above[j]) {
          if j > 0 { assert NotFrom(w, s, k, above[1..][j - 1]); }
        }
        assert TopAt(w, s, k, above, i + 1);
      } else {
        forall i | 0 <= i < |above| ensures NotFrom(w, s, k, above[i]) {
          if i > 0 { assert NotFrom(w, s, k, above[1..][i - 1]); }
        }
      }
    } else if above != [] {
      assert !NotFrom(w, s, k, above[0]);
      assert TopAt(w, s, k, above, 0);
    }
  }

  lemma TopSourceIsTop(w: World, s: map<Key, Obj>, k: Key, a: Name)
    ensures TopSource(w, s, k, a) <==> Top(w, s, k) == Some(a)
  {
    FirstOfferIs(w, s, k, Above(w, k.ns));
    if TopSource(w, s, k, a) {
      var i :| TopAt(w, s, k, Above(w, k.ns), i) && Above(w, k.ns)[i] == a;
      assert !NotFrom(w, s, k, Above(w, k.ns)[i]);
      var j :| TopAt(w, s, k, Above(w, k.ns), j) && Above(w, k.ns)[j] == Top(w, s, k).value;
      assert i == j;
    }
  }

  /** What is stored under `k` is right, in plain words: a copy mirrors the topmost source that is to be copied here;
      any other object has no such source above it, and is recorded; what is not stored is not recorded. */
  ghost predicate InOrder(w: World, c: Cluster, k: Key) {
    if k !in c.store then k !in c.sources
    else if LABEL_INHERITED_FROM in c.store[k].labels then
      exists a :: TopSource(w, c.sources, k, a) && Mirrors(c.store[k], c.sources[Key(a, k.name)], a)
    else
      && (forall a | a in Above(w, k.ns) :: NotFrom(w, c.sources, k, a))
      && k in c.sources && IsRecordOf(c.sources[k], c.store[k], w.unpropagated)
  }

  lemma UpToDateIff(o: Obj, src: Obj, from: Name)
    ensures UpToDate(o, src, from) <==> Mirrors(o, src, from)
  {
    CanonicalIff(o, src);
  }

  lemma SettledIff(w: World, c: Cluster, k: Key)
    ensures Settled(w, c, k) <==> InOrder(w, c, k)
  {
    FirstOfferIs(w, c.sources, k, Above(w, k.ns));
    if k in c.store && Inherited(c.store[k]) {
      forall a | TopSource(w, c.sources, k, a) ensures Top(w, c.sources, k) == Some(a) {
        TopSourceIsTop(w, c.sources, k, a);
      }
      if Top(w, c.sources, k).Some? {
        var a := Top(w, c.sources, k).value;
        TopSourceIsTop(w, c.sources, k, a);
        UpToDateIff(c.store[k], c.sources[Key(a, k.name)], a);
      }
    } else if k in c.store && k in c.sources {
      CleanSourceIff(c.sources[k], c.store[k], w.unpropagated);
    }
  }

  /** In every run, whenever the queue is empty, every key of a live namespace is settled: a copy may
      be missing, but none is stale and no object hides a source above it. */
  lemma {:induction false} QuiescentIsSettled(w: World, c: Cluster, es: seq<Event>, k: Key)
    requires ValidWorld(w) && Uniform(w) && Inv(w, c) && AdmissibleRun(w, c, es)
    requires Live(w, k.ns) && k !in RunFrom(w, c, es).queue
    ensures Settled(w, RunFrom(w, c, es), k) && InOrder(w, RunFrom(w, c, es), k)
    decreases |es|
  {
    SettledIff(w, RunFrom(w, c, es), k);
    if es != [] {
      EventKeepsInv(w, c, es[0]);
      QuiescentIsSettled(w, After(w, c, es[0]), es[1..], k);
    }
  }

  lemma {:induction false} RunFromKeepsInv(w: World, c: Cluster, es: seq<Event>)
    requires ValidWorld(w) && Uniform(w) && Inv(w, c) && AdmissibleRun(w, c, es)
    ensures Inv(w, RunFrom(w, c, es))
    decreases |es|
  {
    if es != [] {
      EventKeepsInv(w, c, es[0]);
      RunFromKeepsInv(w, After(w, c, es[0]), es[1..]);
    }
  }

  /** And whenever the queue is empty, every copy in a live namespace has the content, the labels and the annotations
      of the object that is stored in the namespace from which it says it comes. */
  lemma QuiescentCopyIsTrue(w: World, c: Cluster, es: seq<Event>, k: Key)
    requires ValidWorld(w) && Uniform(w) && Inv(w, c) && AdmissibleRun(w, c, es) && RunFrom(w, c, es).queue == {}
    requires Live(w, k.ns) && k in RunFrom(w, c, es).store
    requires LABEL_INHERITED_FROM in RunFrom(w, c, es).store[k].labels
    ensures var d := RunFrom(w, c, es);
      exists a :: Below(w.links, k.ns, a) && Key(a, k.name) in d.store
        && CopiedFrom(d.store[k], d.store[Key(a, k.name)], a, w.unpropagated)
  {
    var d := RunFrom(w, c, es);
    QuiescentIsSettled(w, c, es, k);
    RunFromKeepsInv(w, c, es);
    var a :| TopSource(w, d.sources, k, a) && Mirrors(d.store[k], d.sources[Key(a, k.name)], a);
    var src := Key(a, k.name);
    AboveElements(w, k.ns, a);
    AboveOfAncestor(w, k.ns, a);
    QuiescentIsSettled(w, c, es, src);
    MirrorsRecord(d.store[k], d.sources[src], d.store[src], a, w.unpropagated);
  }

  /** From `c` to `d` nothing but the object under `k` has changed, and that only in a known namespace that is neither
      excluded nor halted: a copy of the topmost source was written, or a copy that has no source was removed. */
  ghost predicate WritesOnly(w: World, c: Cluster, d: Cluster, k: Key) {
    && (forall x | x != k :: SameStored(c, d, x))
    && (SameStored(c, d, k) ||
          (&& k.ns in w.present && k.ns !in w.excluded && !Halted(w, k.ns)
           && if k in d.store
              then exists a :: TopSource(w, c.sources, k, a) && WrittenFrom(d.store[k], c.sources[Key(a, k.name)], a)
              else
                && LABEL_INHERITED_FROM in c.store[k].labels
                && forall a | a in Above(w, k.ns) :: NotFrom(w, c.sources, k, a)))
  }

  ghost predicate SameStored(c: Cluster, d: Cluster, x: Key) {
    (x in d.store <==> x in c.store) && (x in c.store ==> d.store[x] == c.store[x])
  }

  /** What the reconcile stores, with the topmost source given. */
  lemma ReconcileStores(w: World, c: Cluster, k: Key, top: Option<Name>)
    requires top == Top(w, c.sources, k)
    ensures var d := Reconciled(w, c, k);
      || d.store == c.store
      || (&& k.ns in w.present && k.ns !in w.excluded && !Halted(w, k.ns)
          && if top.None? then d.store == c.store - {k} && k in c.store && Inherited(c.store[k])
             else d.store == c.store[k := CopyOf(c.sources[Key(top.value, k.name)], top.value)])
  {
  }

  /** A reconcile never removes an object that is not a copy, and replaces one by a copy only. */
  lemma ReconcileWritesOnly(w: World, c: Cluster, k: Key)
    ensures WritesOnly(w, c, Reconciled(w, c, k), k)
  {
    var d, top := Reconciled(w, c, k), Top(w, c.sources, k);
    ReconcileStores(w, c, k, top);
    if top.Some? {
      TopSourceIsTop(w, c.sources, k, top.value);
      CopyHolds(c.sources[Key(top.value, k.name)], top.value);
    }
    FirstOfferIs(w, c.sources, k, Above(w, k.ns));
    WritesOnlyOf(w, c, d, k, top);
  }

  lemma WritesOnlyOf(w: World, c: Cluster, d: Cluster, k: Key, top: Option<Name>)
    requires
      || d.store == c.store
      || (&& k.ns in w.present && k.ns !in w.excluded && !Halted(w, k.ns)
          && (top.None? ==> d.store == c.store - {k} && k in c.store && Inherited(c.store[k]))
          && (top.Some? ==>
                && k in d.store && d.store == c.store[k := d.store[k]]
                && TopSource(w, c.sources, k, top.value) && Key(top.value, k.name) in c.sources
                && WrittenFrom(d.store[k], c.sources[Key(top.value, k.name)], top.value)))
    requires top.None? ==> forall a | a in Above(w, k.ns) :: NotFrom(w, c.sources, k, a)
    ensures WritesOnly(w, c, d, k)
  {
  }

  lemma StartIsInv(w: World, c: Cluster)
    requires IsStart(c)
    ensures Inv(w, c)
  {
  }

  // ----- When a copy is missing -----

  /** A copy should be under `k`, and nothing is. */
  ghost predicate Missing(w: World, c: Cluster, k: Key) {
    k !in c.store && Top(w, c.sources, k).Some?
  }

  /** The reconcile takes a vanished source out of the forest although another source would be copied
      in its place; nothing makes that copy afterwards. */
  ghost predicate VanishesUnderSource(w: World, c: Cluster, e: Event) {
    e.Reconcile? && Live(w, e.k.ns) && e.k !in c.store && e.k in c.sources && Top(w, c.sources, e.k).Some?
  }

  /** The last reconcile of `k` in the run takes such a source out; `before` if there is none. */
  ghost function VanishedLast(w: World, c: Cluster, es: seq<Event>, k: Key, before: bool): bool
    decreases |es|
  {
    if es == [] then before
    else VanishedLast(w, After(w, c, es[0]), es[1..], k, VanishedNow(w, c, es[0], k, before))
  }

  ghost predicate VanishedNow(w: World, c: Cluster, e: Event, k: Key, before: bool) {
    if e == Reconcile(k) then VanishesUnderSource(w, c, e) else before
  }

  lemma MissingAfterReconcile(w: World, c: Cluster, k: Key)
    requires ValidWorld(w) && Live(w, k.ns) && k !in Reconciled(w, c, k).queue
    ensures Missing(w, Reconciled(w, c, k), k) <==> VanishesUnderSource(w, c, Reconcile(k))
  {
    LiveInTree(w, k.ns);
    NotBelowItself(w, k.ns);
    TopElsewhere(w, c.sources, Reconciled(w, c, k).sources, k, k);
  }

  lemma MissingElsewhere(w: World, c: Cluster, k: Key, x: Key)
    requires ValidWorld(w) && Uniform(w) && Proper(w, c)
    requires x != k && Live(w, x.ns) && x !in Reconciled(w, c, k).queue
    ensures Missing(w, Reconciled(w, c, k), x) <==> Missing(w, c, x)
  {
    if k.ns !in w.excluded { TopStays(w, c, k, x); }
  }

  /** In every run, a copy that should be there is missing from a quiet key if and only if the last
      reconcile of the key found that its own source had vanished under another one. */
  lemma {:induction false} MissingIff(w: World, c: Cluster, es: seq<Event>, k: Key, before: bool)
    requires ValidWorld(w) && Uniform(w) && Inv(w, c) && AdmissibleRun(w, c, es) && Live(w, k.ns)
    requires k !in c.queue ==> (Missing(w, c, k) <==> before)
    ensures k !in RunFrom(w, c, es).queue ==>
      (Missing(w, RunFrom(w, c, es), k) <==> VanishedLast(w, c, es, k, before))
    decreases |es|
  {
    if es != [] {
      var c' := After(w, c, es[0]);
      EventKeepsInv(w, c, es[0]);
      if es[0].Reconcile? && k !in c'.queue {
        if es[0].k == k { MissingAfterReconcile(w, c, k); } else { MissingElsewhere(w, c, es[0].k, k); }
      }
      MissingIff(w, c', es[1..], k, VanishedNow(w, c, es[0], k, before));
    }
  }

  ghost predicate NeverVanishesUnderSource(w: World, c: Cluster, es: seq<Event>)
    decreases |es|
  {
    es == [] || (!VanishesUnderSource(w, c, es[0]) && NeverVanishesUnderSource(w, After(w, c, es[0]), es[1..]))
  }

  lemma {:induction false} NeverIsNotLast(w: World, c: Cluster, es: seq<Event>, k: Key)
    requires NeverVanishesUnderSource(w, c, es)
    ensures !VanishedLast(w, c, es, k, false)
    decreases |es|
  {
    if es != [] { NeverIsNotLast(w, After(w, c, es[0]), es[1..], k); }
  }

  /** In a run in which no vanished source was covered by another one, a quiet key is missing only if
      no source would be copied to it. */
  lemma QuiescentIsComplete(w: World, c: Cluster, es: seq<Event>, k: Key)
    requires ValidWorld(w) && Uniform(w) && Inv(w, c) && AdmissibleRun(w, c, es) && Live(w, k.ns)
    requires k !in c.queue ==> !Missing(w, c, k)
    requires NeverVanishesUnderSource(w, c, es) && k !in RunFrom(w, c, es).queue
    ensures k in RunFrom(w, c, es).store <==>
      (k in RunFrom(w, c, es).sources || Top(w, RunFrom(w, c, es).sources, k).Some?)
  {
    QuiescentIsSettled(w, c, es, k);
    MissingIff(w, c, es, k, false);
    NeverIsNotLast(w, c, es, k);
  }

  /** Without deletions no source ever vanishes. */
  lemma {:induction false} WithoutDropsNothingVanishes(w: World, c: Cluster, es: seq<Event>)
    requires Inv(w, c) && c.sources.Keys <= c.store.Keys
    requires ValidWorld(w) && Uniform(w) && AdmissibleRun(w, c, es)
    requires forall i | 0 <= i < |es| :: !es[i].Drop?
    ensures NeverVanishesUnderSource(w, c, es)
    decreases |es|
  {
    if es != [] {
      EventKeepsInv(w, c, es[0]);
      var c' := After(w, c, es[0]);
      assert c'.sources.Keys <= c'.store.Keys;
      forall i | 0 <= i < |es[1..]| ensures !es[1..][i].Drop? { assert es[1..][i] == es[i + 1]; }
      WithoutDropsNothingVanishes(w, c', es[1..]);
    }
  }
}
