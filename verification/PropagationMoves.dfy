/** Propagation while the hierarchy changes: objects and namespaces are reconciled, and namespaces come, move and
    go, in any order. */
module PropagationMoves {
  import opened Names
  import opened ParentLinks
  import opened Cycles
  import opened Objects
  import opened Propagation

  /** What a reconcile of a namespace finds on the way up, to the first halted namespace or past the root.
      This is what its labels and conditions show. */
  type Way = seq<Option<Name>>

  /** `waiting` are the namespaces in the queue of the hierarchy reconciler; `seen` is what each namespace
      found at its last reconcile. */
  datatype System = System(world: World, cluster: Cluster, waiting: set<Name>, seen: map<Name, Way>)

  /** A reconcile of namespace `n` leads to the hierarchy `after`, tells the namespaces in `told`, and perhaps
      updates the objects of `n`; or `n` is found to be gone, and its objects with it. */
  datatype Happening =
    | OnObject(e: Event)
    | OnNamespace(n: Name, after: World, told: set<Name>, updates: bool)
    | OnRemoval(n: Name, after: World, told: set<Name>)

  ghost function WayUp(l: Links, crit: set<Name>, n: Name): Way {
    if WalkEnds(l, crit, n) then seq(WalkLength(l, crit, n) + 1, i requires 0 <= i => Up(l, n, i)) else []
  }

  ghost function WayOf(w: World, n: Name): Way {
    WayUp(w.links, w.crit, n)
  }

  /** The namespace is new, or its labels or conditions have to be written. */
  ghost predicate MustUpdate(s: System, n: Name, after: World) {
    n !in s.seen || s.seen[n] != WayOf(after, n)
  }

  /** The keys that `SyncNamespace` enqueues: all objects of the namespace, and a copy of every source above. */
  ghost function ObjectsOf(w: World, c: Cluster, n: Name): set<Key> {
    (set k | k in c.store && k.ns == n) + (set k | k in c.sources && k.ns in Above(w, n) :: Key(n, k.name))
  }

  /** The forest keeps the entry of a namespace, with the sources recorded in it, as long as it is known or
      has children. */
  function Kept(w: World, sources: map<Key, Obj>): map<Key, Obj> {
    map k | k in sources && (k.ns in w.present || k.ns in w.links.Values) :: sources[k]
  }

  /** The objects of a namespace that is gone are gone, and their keys are enqueued. */
  function Without(c: Cluster, n: Name): Cluster {
    Cluster(map k | k in c.store && k.ns != n :: c.store[k], c.sources,
      c.queue + set k | k in c.store && k.ns == n)
  }

  ghost function Next(s: System, h: Happening): System {
    match h
    case OnObject(e) => s.(cluster := After(s.world, s.cluster, e))
    case OnNamespace(n, after, told, updates) =>
      var c := s.cluster.(sources := Kept(after, s.cluster.sources));
      var sent := if updates then ObjectsOf(after, c, n) else {};
      System(after, c.(queue := c.queue + sent), s.waiting - {n} + told, s.seen[n := WayOf(after, n)])
    case OnRemoval(n, after, told) =>
      var c := Without(s.cluster, n);
      System(after, c.(sources := Kept(after, c.sources)), s.waiting - {n} + told, s.seen - {n})
  }

  // ----- What happens to the hierarchy -----

  /** What `x` finds on the way up has changed. */
  ghost predicate Disturbed(w: World, v: World, x: Name) {
    WayOf(w, x) != WayOf(v, x)
  }

  /** Only known namespaces have a parent. */
  ghost predicate Rooted(w: World) {
    forall y | y in w.links :: y in w.present
  }

  /** Only `n` gets another parent, becomes known or unknown, or is halted or resumed. */
  ghost predicate Moves(w: World, v: World, n: Name) {
    && v.excluded == w.excluded && v.propagates == w.propagates && v.unpropagated == w.unpropagated
    && ValidWorld(v) && Uniform(v) && Rooted(v) && SameOff(w.links, v.links, n)
    && forall x | x != n :: (x in v.present <==> x in w.present) && (x in w.present ==> (x in w.crit <==> x in v.crit))
  }

  /** A reconcile tells everyone disturbed, halts the namespace if its parent is not known, and brings an update if
      anything has to be written. A removal tells the children. */
  ghost predicate Legal(s: System, h: Happening) {
    match h
    case OnObject(e) => Admissible(s.cluster, e)
    case OnNamespace(n, after, told, updates) =>
      && Moves(s.world, after, n) && n in after.present && n !in after.excluded
      && (n in after.links && after.links[n] !in after.present ==> n in after.crit)
      && (MustUpdate(s, n, after) ==> updates)
      && forall x | x != n && x in after.present && Disturbed(s.world, after, x) :: x in told
    case OnRemoval(n, after, told) =>
      Moves(s.world, after, n) && n !in after.present && Children(s.world.links, n) <= told
  }

  // ----- Stale namespaces -----

  /** The namespaces that are disturbed by the change, or become live by it. */
  ghost function Shaken(w: World, v: World): set<Name> {
    set x | x in v.present && (Disturbed(w, v, x) || (Live(v, x) && !Live(w, x)))
  }

  /** The namespaces that have been shaken since their objects were last enqueued. */
  ghost function StaleAfter(s: System, h: Happening, stale: set<Name>): set<Name> {
    match h
    case OnObject(e) => stale
    case OnNamespace(n, after, told, updates) =>
      if updates then stale + Shaken(s.world, after) - {n} else stale + Shaken(s.world, after)
    case OnRemoval(n, after, told) => stale + Shaken(s.world, after) - {n}
  }

  /** `k` is right, or all that is left of it is the record of a source that has vanished. */
  ghost predicate Right(w: World, c: Cluster, k: Key) {
    Settled(w, c, k) || (k !in c.store && k in c.sources)
  }

  /** Whatever is not waiting in the queue, in a namespace that is not stale, is right. */
  ghost predicate Inv(s: System, stale: set<Name>) {
    var w, c := s.world, s.cluster;
    && ValidWorld(w) && Uniform(w) && Proper(w, c)
    && (forall k: Key | Live(w, k.ns) && k.ns !in stale && k !in c.queue :: Right(w, c, k))
  }

  lemma ObjectKeepsInv(s: System, stale: set<Name>, e: Event)
    requires Inv(s, stale) && Admissible(s.cluster, e)
    ensures Inv(Next(s, OnObject(e)), stale)
  {
    var w, c := s.world, s.cluster;
    var d := After(w, c, e);
    if e.Reconcile? { SourcesStayProper(w, c, e.k); }
    forall k: Key | Live(w, k.ns) && k.ns !in stale && k !in d.queue ensures Right(w, d, k) {
      ObjectEventSettles(w, c, e, k);
    }
  }

  lemma ObjectEventSettles(w: World, c: Cluster, e: Event, k: Key)
    requires ValidWorld(w) && Uniform(w) && Proper(w, c) && Live(w, k.ns) && k !in After(w, c, e).queue
    requires k !in c.queue ==> Right(w, c, k)
    ensures Right(w, After(w, c, e), k)
  {
    if e.Reconcile? {
      if k == e.k { ReconciledIsSettled(w, c, k); } else if Settled(w, c, k) { OthersStaySettled(w, c, e.k, k); }
    }
  }

  lemma WayAt(l: Links, crit: set<Name>, n: Name)
    requires WalkEnds(l, crit, n)
    ensures |WayUp(l, crit, n)| == WalkLength(l, crit, n) + 1
    ensures forall i | 0 <= i < |WayUp(l, crit, n)| :: WayUp(l, crit, n)[i] == Up(l, n, i)
  {
  }

  /** A way that runs out shows everything above. */
  lemma {:induction false} AllUpSame(l: Links, m: Links, x: Name, k: nat)
    requires forall i: nat | i <= k :: Up(l, x, i) == Up(m, x, i)
    requires Up(l, x, k) == None
    ensures forall i: nat :: Up(l, x, i) == Up(m, x, i)
  {
    forall i: nat ensures Up(l, x, i) == Up(m, x, i) {
      if i > k {
        UpAdd(l, x, k, i - k);
        UpAdd(m, x, k, i - k);
      }
    }
  }

  /** In a tree, who is met on the way up determines the ancestry. */
  lemma SameUpSameAncestry(l: Links, m: Links, x: Name)
    requires forall i: nat :: Up(l, x, i) == Up(m, x, i)
    requires Ancestry(l, x)[0] !in l && Ancestry(m, x)[0] !in m
    ensures Ancestry(l, x) == Ancestry(m, x)
  {
    var a, b := Ancestry(l, x), Ancestry(m, x);
    RunsOutAfter(l, x);
    RunsOutAfter(m, x);
    assert Up(m, x, |a|) == None && Up(l, x, |b|) == None;
    assert |a| == |b|;
    forall i | 0 <= i < |a| ensures a[i] == b[i] {
      assert Up(l, x, |a| - 1 - i) == Up(m, x, |a| - 1 - i);
    }
  }

  lemma RunsOutAfter(l: Links, x: Name)
    requires Ancestry(l, x)[0] !in l
    ensures Up(l, x, |Ancestry(l, x)|) == None
    ensures forall i: nat | i < |Ancestry(l, x)| :: Up(l, x, i) == Some(Ancestry(l, x)[|Ancestry(l, x)| - 1 - i])
  {
    var a := Ancestry(l, x);
    ChainUp(l, a, 0);
    forall i: nat | i < |a| ensures Up(l, x, i) == Some(a[|a| - 1 - i]) { ChainUp(l, a, |a| - 1 - i); }
  }

  lemma LiveRunsOut(w: World, x: Name)
    requires ValidWorld(w) && Live(w, x)
    ensures WalkEnds(w.links, w.crit, x) && Up(w.links, x, WalkLength(w.links, w.crit, x)) == None
  {
    WalkFromHit(w.links, w.crit, x);
    var k := WalkLength(w.links, w.crit, x);
    if Up(w.links, x, k).Some? { assert Reach(w.links, x, Up(w.links, x, k).value); }
  }

  // ----- Who is not shaken -----

  /** A live namespace that has the same way up has the same namespaces above it. */
  lemma SameWaySameAbove(w: World, v: World, x: Name)
    requires ValidWorld(w) && ValidWorld(v) && Live(w, x) && Live(v, x) && WayOf(w, x) == WayOf(v, x)
    ensures Above(w, x) == Above(v, x)
  {
    LiveRunsOut(v, x);
    LiveRunsOut(w, x);
    WayAt(w.links, w.crit, x);
    WayAt(v.links, v.crit, x);
    var k := WalkLength(v.links, v.crit, x);
    forall i: nat | i <= k ensures Up(w.links, x, i) == Up(v.links, x, i) {
      assert WayOf(w, x)[i] == WayOf(v, x)[i];
    }
    AllUpSame(v.links, w.links, x, k);
    LiveInTree(w, x);
    LiveInTree(v, x);
    SameUpSameAncestry(w.links, v.links, x);
    AboveIs(w, x);
    AboveIs(v, x);
  }

  lemma {:induction false} OfferElsewhere(w: World, v: World, s: map<Key, Obj>, k: Key, above: seq<Name>)
    requires v.propagates == w.propagates
    ensures FirstOffer(w, s, k, above) == FirstOffer(v, s, k, above)
    decreases |above|
  {
    if above != [] { OfferElsewhere(w, v, s, k, above[1..]); }
  }

  /** What is recorded at and above a live namespace is kept. */
  lemma KeptAbove(v: World, sources: map<Key, Obj>, k: Key, a: Name)
    requires ValidWorld(v) && Live(v, k.ns) && (a == k.ns || a in Above(v, k.ns))
    ensures forall name :: Key(a, name) in Kept(v, sources) <==> Key(a, name) in sources
  {
    AboveIs(v, k.ns);
    ReachSelf(v.links, k.ns);
    ReachCases(v.links, k.ns, a);
  }

  lemma UnshakenStaysRight(w: World, v: World, c: Cluster, d: Cluster, k: Key)
    requires ValidWorld(w) && ValidWorld(v) && v.propagates == w.propagates && v.unpropagated == w.unpropagated
    requires Live(w, k.ns) && Live(v, k.ns) && !Disturbed(w, v, k.ns)
    requires d.sources == Kept(v, c.sources) && (k in d.store <==> k in c.store)
    requires k in c.store ==> d.store[k] == c.store[k]
    requires Right(w, c, k)
    ensures Right(v, d, k)
  {
    SameWaySameAbove(w, v, k.ns);
    OfferElsewhere(w, v, c.sources, k, Above(w, k.ns));
    forall a | a in Above(v, k.ns) ensures Offers(v, c.sources, k, a) <==> Offers(v, d.sources, k, a) {
      KeptAbove(v, c.sources, k, a);
    }
    KeptAbove(v, c.sources, k, k.ns);
    FirstOfferSame(v, c.sources, d.sources, k, Above(v, k.ns));
  }

  /** After an update everything of the namespace that can be wrong waits in the queue. */
  lemma UpdatedIsRight(s: System, h: Happening, k: Key)
    requires h.OnNamespace? && h.updates && k.ns == h.n && ValidWorld(h.after) && Live(h.after, k.ns)
    requires k !in Next(s, h).cluster.queue
    ensures Right(h.after, Next(s, h).cluster, k)
  {
    var d := Next(s, h).cluster;
    assert k !in ObjectsOf(h.after, s.cluster.(sources := d.sources), k.ns);
    assert k !in s.cluster.store;
    FirstOfferFinds(h.after, d.sources, k, Above(h.after, k.ns));
  }

  lemma KeptStaysProper(w: World, v: World, c: Cluster, d: Cluster)
    requires Proper(w, c) && v.unpropagated == w.unpropagated && d.sources == Kept(v, c.sources)
    requires forall k | k in d.store :: k in c.store && d.store[k] == c.store[k]
    ensures Proper(v, d)
  {
  }

  lemma NamespaceKeepsInv(s: System, stale: set<Name>, h: Happening)
    requires Inv(s, stale) && !h.OnObject? && Legal(s, h)
    ensures Inv(Next(s, h), StaleAfter(s, h, stale))
  {
    var w, v, c, d := s.world, h.after, s.cluster, Next(s, h).cluster;
    forall k: Key | Live(v, k.ns) && k.ns !in StaleAfter(s, h, stale) && k !in d.queue ensures Right(v, d, k) {
      ReachSelf(v.links, k.ns);
      if h.OnNamespace? && h.updates && k.ns == h.n {
        UpdatedIsRight(s, h, k);
      } else {
        assert k.ns !in Shaken(w, v);
        UnshakenStaysRight(w, v, c, d, k);
      }
    }
    KeptStaysProper(w, v, c, d);
  }

  // ----- Runs -----

  ghost function RunTo(s: System, hs: seq<Happening>): System {
    if hs == [] then s else Next(RunTo(s, hs[..|hs| - 1]), hs[|hs| - 1])
  }

  ghost predicate LegalRun(s: System, hs: seq<Happening>) {
    hs == [] || (LegalRun(s, hs[..|hs| - 1]) && Legal(RunTo(s, hs[..|hs| - 1]), hs[|hs| - 1]))
  }

  /** The stale namespaces after a run. */
  ghost function Stale(s: System, hs: seq<Happening>): set<Name> {
    if hs == [] then {}
    else StaleAfter(RunTo(s, hs[..|hs| - 1]), hs[|hs| - 1], Stale(s, hs[..|hs| - 1]))
  }

  /** Every namespace whose parent is not known is halted. */
  ghost predicate OrphansHalted(w: World) {
    forall y | y in w.links && w.links[y] !in w.present :: y in w.crit
  }

  /** No namespace has been reconciled yet, and everything that is stored is queued. */
  ghost predicate IsFirst(s: System) {
    && ValidWorld(s.world) && Uniform(s.world) && OrphansHalted(s.world) && Rooted(s.world)
    && s.world.present !! s.world.excluded && IsStart(s.cluster) && s.seen == map[]
  }

  lemma {:induction false} RunKeepsInv(s: System, hs: seq<Happening>)
    requires IsFirst(s) && LegalRun(s, hs)
    ensures Inv(RunTo(s, hs), Stale(s, hs))
  {
    if hs != [] {
      var before, h := hs[..|hs| - 1], hs[|hs| - 1];
      RunKeepsInv(s, before);
      if h.OnObject? {
        ObjectKeepsInv(RunTo(s, before), Stale(s, before), h.e);
      } else {
        NamespaceKeepsInv(RunTo(s, before), Stale(s, before), h);
      }
    }
  }

  // ----- Records of sources that have vanished with their namespace -----

  /** Sources are recorded for known namespaces only, and none for an object that has vanished unnoticed. */
  ghost predicate Tidy(s: System) {
    && (forall k | k in s.cluster.sources :: k.ns in s.world.present && k.ns !in s.world.excluded)
    && (forall k | k in s.cluster.sources && k !in s.cluster.store :: k in s.cluster.queue)
  }

  /** A removal leaves a record behind exactly if sources are recorded for the namespace and it has children. */
  lemma RemovalIsTidyIff(s: System, h: Happening)
    requires Tidy(s) && h.OnRemoval? && Legal(s, h)
    ensures Tidy(Next(s, h)) <==> h.n !in h.after.links.Values || forall k | k in s.cluster.sources :: k.ns != h.n
  {
    var d := Next(s, h).cluster;
    forall k | k in s.cluster.sources && k.ns == h.n && h.n in h.after.links.Values
      ensures !Tidy(Next(s, h)) { assert k in d.sources; }
  }

  lemma OthersStayTidy(s: System, h: Happening)
    requires Tidy(s) && !h.OnRemoval? && Legal(s, h)
    ensures Tidy(Next(s, h))
  {
    if h.OnObject? { ObjectStaysTidy(s, h.e); }
  }

  lemma ObjectStaysTidy(s: System, e: Event)
    requires Tidy(s)
    ensures Tidy(Next(s, OnObject(e)))
  {
  }

  /** No namespace is removed while it has children and sources are recorded for it. */
  ghost predicate LeavesNoRecord(s: System, hs: seq<Happening>) {
    hs == [] ||
    (var before, h := hs[..|hs| - 1], hs[|hs| - 1];
     && LeavesNoRecord(s, before)
     && (h.OnRemoval? ==>
       h.n !in h.after.links.Values || forall k | k in RunTo(s, before).cluster.sources :: k.ns != h.n))
  }

  lemma {:induction false} RunStaysTidy(s: System, hs: seq<Happening>)
    requires IsFirst(s) && LegalRun(s, hs) && LeavesNoRecord(s, hs)
    ensures Tidy(RunTo(s, hs))
  {
    if hs != [] {
      var before, h := hs[..|hs| - 1], hs[|hs| - 1];
      RunStaysTidy(s, before);
      if h.OnRemoval? { RemovalIsTidyIff(RunTo(s, before), h); } else { OthersStayTidy(RunTo(s, before), h); }
    }
  }

  /** Objects and namespaces may be reconciled, users may change both, and namespaces may come and go, in any
      order: every object of a live namespace that is not stale is right whenever its key is not queued, and there
      is no record of a vanished object unless a namespace was removed with one. */
  lemma UnshakenIsSettled(s: System, hs: seq<Happening>, k: Key)
    requires IsFirst(s) && LegalRun(s, hs)
    requires var t := RunTo(s, hs); k.ns !in Stale(s, hs) && k !in t.cluster.queue && Live(t.world, k.ns)
    ensures Right(RunTo(s, hs).world, RunTo(s, hs).cluster, k)
    ensures LeavesNoRecord(s, hs) ==> Settled(RunTo(s, hs).world, RunTo(s, hs).cluster, k)
  {
    RunKeepsInv(s, hs);
    if LeavesNoRecord(s, hs) { RunStaysTidy(s, hs); }
  }
}
