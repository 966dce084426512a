/** Where propagation stops being right: selectors that let a source skip a namespace, and objects that
    users turn into copies. Together with `Propagation.QuiescentIsSettled` the first gives an exact
    condition. */
module PropagationLimits {
  import opened Names
  import opened ParentLinks
  import opened Cycles
  import opened Objects
  import opened Propagation

  const EMPTY_CLUSTER: Cluster := Cluster(map[], map[], {})

  lemma {:induction false} RunAppend(w: World, c: Cluster, es: seq<Event>, fs: seq<Event>)
    ensures RunFrom(w, c, es + fs) == RunFrom(w, RunFrom(w, c, es), fs)
    ensures AdmissibleRun(w, c, es + fs) <==> AdmissibleRun(w, c, es) && AdmissibleRun(w, RunFrom(w, c, es), fs)
    decreases |es|
  {
    if es == [] {
      assert es + fs == fs;
    } else {
      assert (es + fs)[1..] == es[1..] + fs;
      RunAppend(w, After(w, c, es[0]), es[1..], fs);
    }
  }

  /** Reconciling the queued keys only makes or removes copies. */
  ghost predicate Quiet(c: Cluster) {
    forall k | k in c.queue :: k !in c.sources && (k in c.store ==> Inherited(c.store[k]))
  }

  /** A quiet key is done after at most two reconciles. */
  lemma QuietStep(w: World, c: Cluster, k: Key)
    requires Quiet(c) && k in c.queue
    ensures var d := Reconciled(w, c, k);
      && d.sources == c.sources && Quiet(d) && d.queue <= c.queue
      && (forall x | x != k :: (x in d.store <==> x in c.store) && (x in c.store ==> d.store[x] == c.store[x]))
      && (k in d.store ==> Inherited(d.store[k]))
      && (k in d.queue ==> k !in Reconciled(w, d, k).queue)
  {
    QuietEffect(w, c, k);
    QuietTwice(w, c, k);
  }

  lemma QuietDecides(w: World, c: Cluster, k: Key)
    requires k !in c.sources && (k in c.store ==> Inherited(c.store[k]))
    ensures Decide(w, c, k).sources == c.sources && Decide(w, c, k).enqueued == {}
  {
    assert c.sources - {k} == c.sources;
  }

  lemma QuietEffect(w: World, c: Cluster, k: Key)
    requires Quiet(c) && k in c.queue
    ensures var d := Reconciled(w, c, k);
      && d.sources == c.sources && Quiet(d) && d.queue <= c.queue
      && (forall x | x != k :: (x in d.store <==> x in c.store) && (x in c.store ==> d.store[x] == c.store[x]))
      && (k in d.store ==> Inherited(d.store[k]))
  {
    QuietDecides(w, c, k);
    QuietWrite(w, c, k);
    var d := Reconciled(w, c, k);
    forall x | x in d.queue ensures x !in d.sources && (x in d.store ==> Inherited(d.store[x])) {
      assert x in c.queue;
    }
  }

  lemma QuietWrite(w: World, c: Cluster, k: Key)
    requires Quiet(c) && k in c.queue && Decide(w, c, k).sources == c.sources && Decide(w, c, k).enqueued == {}
    ensures var d := Reconciled(w, c, k);
      && d.sources == c.sources && d.queue <= c.queue && (k in d.store ==> Inherited(d.store[k]))
      && (forall x | x != k :: (x in d.store <==> x in c.store) && (x in c.store ==> d.store[x] == c.store[x]))
  {
    var top := Top(w, c.sources, k);
    if top.Some? { CopyIsCanonical(c.sources[Key(top.value, k.name)], top.value); }
  }

  lemma QuietTwice(w: World, c: Cluster, k: Key)
    requires k in c.queue && k !in c.sources && (k in c.store ==> Inherited(c.store[k]))
    ensures var d := Reconciled(w, c, k); k in d.queue ==> k !in Reconciled(w, d, k).queue
  {
    assert c.sources - {k} == c.sources;
    var top := Top(w, c.sources, k);
    if top.Some? { CopyIsCanonical(c.sources[Key(top.value, k.name)], top.value); }
  }

  /** From `c` to `d` nothing but copies under the keys `ks` has changed. */
  ghost predicate OnlyCopies(c: Cluster, d: Cluster, ks: set<Key>) {
    && d.sources == c.sources
    && (forall x | x !in ks :: (x in d.store <==> x in c.store) && (x in c.store ==> d.store[x] == c.store[x]))
    && (forall x | x in ks && x in d.store :: Inherited(d.store[x]))
  }

  lemma DrainKey(w: World, c: Cluster, k: Key) returns (es: seq<Event>)
    requires Quiet(c) && k in c.queue
    ensures AdmissibleRun(w, c, es)
    ensures var d := RunFrom(w, c, es); OnlyCopies(c, d, {k}) && Quiet(d) && d.queue <= c.queue - {k}
  {
    QuietStep(w, c, k);
    var d := Reconciled(w, c, k);
    es := [Reconcile(k)];
    assert RunFrom(w, c, es) == RunFrom(w, d, []) == d;
    assert AdmissibleRun(w, d, []);
    if k in d.queue {
      QuietStep(w, d, k);
      var f := Reconciled(w, d, k);
      assert RunFrom(w, d, [Reconcile(k)]) == RunFrom(w, f, []) == f;
      assert AdmissibleRun(w, f, []) && AdmissibleRun(w, d, [Reconcile(k)]);
      RunAppend(w, c, es, [Reconcile(k)]);
      es := es + [Reconcile(k)];
    }
  }

  /** A quiet queue can be drained without touching the sources or any other key. */
  lemma {:induction false} DrainQuiet(w: World, c: Cluster) returns (es: seq<Event>)
    requires Quiet(c)
    ensures AdmissibleRun(w, c, es)
    ensures OnlyCopies(c, RunFrom(w, c, es), c.queue) && RunFrom(w, c, es).queue == {}
    decreases |c.queue|
  {
    es := [];
    if c.queue != {} {
      var k :| k in c.queue;
      var steps := DrainKey(w, c, k);
      var d := RunFrom(w, c, steps);
      SubsetSmaller(d.queue, c.queue);
      var rest := DrainQuiet(w, d);
      RunAppend(w, c, steps, rest);
      CopiesCompose(c, d, RunFrom(w, d, rest), k);
      es := steps + rest;
    }
  }

  lemma CopiesCompose(c: Cluster, d: Cluster, e: Cluster, k: Key)
    requires Quiet(c) && k in c.queue && d.queue <= c.queue
    requires OnlyCopies(c, d, {k}) && OnlyCopies(d, e, d.queue)
    ensures OnlyCopies(c, e, c.queue)
  {
  }

  // ----- A source that skips a namespace leaves a stale copy -----

  /** A user creates `o` in `n` and it is recorded as a source. */
  lemma RecordSource(w: World, c: Cluster, k: Key, o: Obj)
    requires c.queue == {} && IsSourceForm(w, o) && k.ns in w.present && k.ns !in w.excluded
    requires Top(w, c.sources, k).None?
    ensures AdmissibleRun(w, c, [Put(k, o), Reconcile(k)])
    ensures RunFrom(w, c, [Put(k, o), Reconcile(k)]) == Cluster(c.store[k := o], c.sources[k := o], CopiesOf(w, k))
  {
    var c1 := After(w, c, Put(k, o));
    var c2 := Reconciled(w, c1, k);
    assert c2 == Cluster(c.store[k := o], c.sources[k := o], CopiesOf(w, k));
    assert [Put(k, o), Reconcile(k)][1..] == [Reconcile(k)] && [Reconcile(k)][1..] == [];
    assert RunFrom(w, c1, [Reconcile(k)]) == RunFrom(w, c2, []) == c2;
    assert AdmissibleRun(w, c2, []) && AdmissibleRun(w, c1, [Reconcile(k)]);
  }

  /** The keys of the three namespaces of a selector that skips over `n`. */
  ghost predicate Triple(w: World, a: Key, n: Key, d: Key) {
    && ValidWorld(w) && a.name == n.name == d.name
    && Below(w.links, n.ns, a.ns) && Below(w.links, d.ns, n.ns) && Live(w, d.ns)
  }

  lemma TripleFacts(w: World, a: Key, n: Key, d: Key)
    requires Triple(w, a, n, d)
    ensures Live(w, a.ns) && Live(w, n.ns) && a != n && n != d && a != d
    ensures a.ns in w.present && n.ns in w.present && d.ns in w.present
    ensures a.ns !in w.excluded && n.ns !in w.excluded && d.ns !in w.excluded
    ensures a.ns in Above(w, n.ns) && a.ns in Above(w, d.ns) && n.ns in Above(w, d.ns)
    ensures n.ns !in Above(w, a.ns) && n.ns !in Above(w, n.ns)
    ensures a !in CopiesOf(w, a) && n !in CopiesOf(w, n) && a !in CopiesOf(w, n)
    ensures n in CopiesOf(w, a) && d in CopiesOf(w, a) && d in CopiesOf(w, n)
  {
    var l := w.links;
    ReachCases(l, d.ns, n.ns);
    ReachCases(l, n.ns, a.ns);
    ReachTransitive(l, d.ns, n.ns, a.ns);
    LiveInTree(w, d.ns);
    LiveInTree(w, n.ns);
    LiveInTree(w, a.ns);
    AboveIs(w, a.ns);
    AboveIs(w, n.ns);
    AboveIs(w, d.ns);
    BelowTransitive(l, d.ns, n.ns, a.ns);
    if Below(l, a.ns, n.ns) { BelowTransitive(l, a.ns, n.ns, a.ns); }
    if a == d { BelowTransitive(l, a.ns, n.ns, a.ns); }
    CopiesAreQueued(w, n, d);
    CopiesAreQueued(w, a, d);
    CopiesAreQueued(w, a, n);
  }

  /** A namespace and one below it. */
  ghost predicate Pair(w: World, n: Key, d: Key) {
    ValidWorld(w) && n.name == d.name && Below(w.links, d.ns, n.ns) && Live(w, d.ns)
  }

  lemma PairFacts(w: World, n: Key, d: Key)
    requires Pair(w, n, d)
    ensures Live(w, n.ns) && n != d && n.ns in w.present && n.ns !in w.excluded
    ensures n.ns in Above(w, d.ns) && n.ns !in Above(w, n.ns)
    ensures n !in CopiesOf(w, n) && d in CopiesOf(w, n)
  {
    ReachCases(w.links, d.ns, n.ns);
    LiveInTree(w, d.ns);
    LiveInTree(w, n.ns);
    AboveIs(w, n.ns);
    AboveIs(w, d.ns);
    CopiesAreQueued(w, n, d);
  }

  lemma BelowTransitive(l: Links, x: Name, y: Name, z: Name)
    requires Below(l, x, y) && Below(l, y, z)
    ensures Below(l, x, z)
  {
    ReachCases(l, y, z);
    ReachTransitive(l, l[x], y, z);
  }

  /** If exactly the listed sources are recorded, only they can be the top source. */
  lemma TopAmong(w: World, sources: map<Key, Obj>, k: Key, a: Name)
    requires forall x | x in Above(w, k.ns) && x != a :: !Offers(w, sources, k, x)
    ensures Top(w, sources, k) == if a in Above(w, k.ns) && Offers(w, sources, k, a) then Some(a) else None
  {
    FirstOfferFinds(w, sources, k, Above(w, k.ns));
  }

  lemma OneReconcile(w: World, c: Cluster, k: Key)
    ensures AdmissibleRun(w, c, [Reconcile(k)]) && RunFrom(w, c, [Reconcile(k)]) == Reconciled(w, c, k)
  {
    assert [Reconcile(k)][1..] == [];
    assert AdmissibleRun(w, Reconciled(w, c, k), []);
    assert RunFrom(w, Reconciled(w, c, k), []) == Reconciled(w, c, k);
  }

  lemma KeepsCopy(w: World, c: Cluster, k: Key, a: Name)
    requires ValidWorld(w) && Live(w, k.ns) && Top(w, c.sources, k) == Some(a) && k !in c.sources
    requires k in c.store && c.store[k] == CopyOf(c.sources[Key(a, k.name)], a)
    ensures Reconciled(w, c, k) == c.(queue := c.queue - {k})
  {
    LiveInTree(w, k.ns);
    CopyIsCanonical(c.sources[Key(a, k.name)], a);
    assert c.sources - {k} == c.sources;
  }

  lemma MakesCopy(w: World, c: Cluster, k: Key, a: Name)
    requires ValidWorld(w) && Live(w, k.ns) && Top(w, c.sources, k) == Some(a)
    requires if k in c.store then !Inherited(c.store[k]) else k !in c.sources
    ensures Reconciled(w, c, k) ==
      Cluster(c.store[k := CopyOf(c.sources[Key(a, k.name)], a)], c.sources - {k}, c.queue + {k})
  {
    LiveInTree(w, k.ns);
  }

  /** First phase: a source in `n` has been copied everywhere, also to `d`. */
  ghost predicate Copied(w: World, c: Cluster, n: Key, d: Key, o': Obj) {
    && c.queue == {} && c.sources == map[n := o']
    && n in c.store && c.store[n] == o'
    && d in c.store && c.store[d] == CopyOf(o', n.ns)
    && (forall x | x in c.store && x != n :: x in CopiesOf(w, n) && Inherited(c.store[x]))
  }

  lemma CopyToD(w: World, n: Key, d: Key, o': Obj) returns (es: seq<Event>)
    requires Pair(w, n, d) && IsSourceForm(w, o') && w.propagates(o', d.ns)
    ensures AdmissibleRun(w, EMPTY_CLUSTER, es)
    ensures var c := RunFrom(w, EMPTY_CLUSTER, es);
      && c.sources == map[n := o'] && c.store == map[n := o', d := CopyOf(o', n.ns)]
      && c.queue == CopiesOf(w, n) - {d}
  {
    PairFacts(w, n, d);
    FirstOfferFinds(w, map[], n, Above(w, n.ns));
    RecordSource(w, EMPTY_CLUSTER, n, o');
    es := [Put(n, o'), Reconcile(n)];
    var c1 := Cluster(map[n := o'], map[n := o'], CopiesOf(w, n));
    assert RunFrom(w, EMPTY_CLUSTER, es) == c1;
    TopAmong(w, c1.sources, d, n.ns);
    MakesCopy(w, c1, d, n.ns);
    assert c1.sources - {d} == c1.sources;
    var c2 := Cluster(c1.store[d := CopyOf(o', n.ns)], c1.sources, CopiesOf(w, n));
    assert c1.queue + {d} == CopiesOf(w, n);
    assert Reconciled(w, c1, d) == c2;
    KeepsCopy(w, c2, d, n.ns);
    Twice(w, c1, c2, d, d);
    RunAppend(w, EMPTY_CLUSTER, es, [Reconcile(d), Reconcile(d)]);
    es := es + [Reconcile(d), Reconcile(d)];
  }

  lemma Twice(w: World, c: Cluster, d: Cluster, x: Key, y: Key)
    requires Reconciled(w, c, x) == d
    ensures AdmissibleRun(w, c, [Reconcile(x), Reconcile(y)])
    ensures RunFrom(w, c, [Reconcile(x), Reconcile(y)]) == Reconciled(w, d, y)
  {
    assert [Reconcile(x), Reconcile(y)] == [Reconcile(x)] + [Reconcile(y)];
    OneReconcile(w, c, x);
    OneReconcile(w, d, y);
    RunAppend(w, c, [Reconcile(x)], [Reconcile(y)]);
  }

  lemma CopyEverywhere(w: World, n: Key, d: Key, o': Obj) returns (es: seq<Event>)
    requires Pair(w, n, d) && IsSourceForm(w, o') && w.propagates(o', d.ns)
    ensures AdmissibleRun(w, EMPTY_CLUSTER, es)
    ensures Copied(w, RunFrom(w, EMPTY_CLUSTER, es), n, d, o')
  {
    PairFacts(w, n, d);
    CopyIsCanonical(o', n.ns);
    es := CopyToD(w, n, d, o');
    var c := RunFrom(w, EMPTY_CLUSTER, es);
    assert Quiet(c);
    var rest := DrainQuiet(w, c);
    RunAppend(w, EMPTY_CLUSTER, es, rest);
    es := es + rest;
  }

  /** Second phase: a source above `n` appears; `d` is reconciled first and keeps its copy, then `n`
      is overwritten. */
  lemma OverwriteN(w: World, c: Cluster, a: Key, n: Key, d: Key, o: Obj, o': Obj) returns (es: seq<Event>)
    requires Triple(w, a, n, d) && Copied(w, c, n, d, o') && IsSourceForm(w, o) && IsSourceForm(w, o')
    requires w.propagates(o, n.ns) && w.propagates(o', d.ns) && !w.propagates(o, d.ns)
    ensures AdmissibleRun(w, c, es)
    ensures var e := RunFrom(w, c, es);
      && e.sources == map[a := o] && e.store == c.store[a := o][n := CopyOf(o, a.ns)]
      && e.queue == CopiesOf(w, a) - {d}
  {
    TripleFacts(w, a, n, d);
    TopAmong(w, c.sources, a, n.ns);
    RecordSource(w, c, a, o);
    es := [Put(a, o), Reconcile(a)];
    var c1 := Cluster(c.store[a := o], c.sources[a := o], CopiesOf(w, a));
    assert RunFrom(w, c, es) == c1;
    assert c1.sources == map[n := o', a := o];
    DThenN(w, c1, a, n, d, o, o');
    RunAppend(w, c, es, [Reconcile(d), Reconcile(n)]);
    es := es + [Reconcile(d), Reconcile(n)];
  }

  lemma DThenN(w: World, c: Cluster, a: Key, n: Key, d: Key, o: Obj, o': Obj)
    requires Triple(w, a, n, d) && !Inherited(o')
    requires c.sources == map[n := o', a := o] && c.queue == CopiesOf(w, a)
    requires n in c.store && c.store[n] == o' && d in c.store && c.store[d] == CopyOf(o', n.ns)
    requires w.propagates(o, n.ns) && w.propagates(o', d.ns) && !w.propagates(o, d.ns)
    ensures AdmissibleRun(w, c, [Reconcile(d), Reconcile(n)])
    ensures RunFrom(w, c, [Reconcile(d), Reconcile(n)]) ==
      Cluster(c.store[n := CopyOf(o, a.ns)], map[a := o], CopiesOf(w, a) - {d})
  {
    DKeeps(w, c, a, n, d, o, o');
    var c2 := c.(queue := c.queue - {d});
    NOverwritten(w, c2, a, n, d, o, o');
    Twice(w, c, c2, d, n);
    TripleFacts(w, a, n, d);
    assert c2.queue + {n} == CopiesOf(w, a) - {d};
  }

  lemma DKeeps(w: World, c: Cluster, a: Key, n: Key, d: Key, o: Obj, o': Obj)
    requires Triple(w, a, n, d) && c.sources == map[n := o', a := o]
    requires d in c.store && c.store[d] == CopyOf(o', n.ns)
    requires w.propagates(o', d.ns) && !w.propagates(o, d.ns)
    ensures Reconciled(w, c, d) == c.(queue := c.queue - {d})
  {
    TripleFacts(w, a, n, d);
    TopAmong(w, c.sources, d, n.ns);
    KeepsCopy(w, c, d, n.ns);
  }

  lemma NOverwritten(w: World, c: Cluster, a: Key, n: Key, d: Key, o: Obj, o': Obj)
    requires Triple(w, a, n, d) && c.sources == map[n := o', a := o]
    requires n in c.store && c.store[n] == o' && !Inherited(o') && w.propagates(o, n.ns)
    ensures Reconciled(w, c, n) == Cluster(c.store[n := CopyOf(o, a.ns)], map[a := o], c.queue + {n})
  {
    TripleFacts(w, a, n, d);
    TopAmong(w, c.sources, n, a.ns);
    MakesCopy(w, c, n, a.ns);
    OneLeft(a, n, o, o');
  }

  lemma OneLeft(a: Key, n: Key, o: Obj, o': Obj)
    requires a != n
    ensures map[n := o', a := o] - {n} == map[a := o]
  {
  }

  /** If the selectors are not uniform, some run ends with an empty queue and a stale copy. */
  lemma SkippedCopyGoesStale(w: World, a: Name, n: Name, d: Name, o: Obj, o': Obj) returns (es: seq<Event>, k: Key)
    requires ValidWorld(w) && SkipsOver(w, a, n, d, o, o')
    ensures AdmissibleRun(w, EMPTY_CLUSTER, es) && Live(w, k.ns)
    ensures RunFrom(w, EMPTY_CLUSTER, es).queue == {} && !Settled(w, RunFrom(w, EMPTY_CLUSTER, es), k)
  {
    var ka, kn, kd := Key(a, "x"), Key(n, "x"), Key(d, "x");
    TripleFacts(w, ka, kn, kd);
    es := CopyEverywhere(w, kn, kd, o');
    var c := RunFrom(w, EMPTY_CLUSTER, es);
    var more := OverwriteN(w, c, ka, kn, kd, o, o');
    var e := RunFrom(w, c, more);
    RunAppend(w, EMPTY_CLUSTER, es, more);
    es := es + more;
    CopyIsCanonical(o, a);
    CopyIsCanonical(o', n);
    assert Quiet(e);
    var rest := DrainQuiet(w, e);
    RunAppend(w, EMPTY_CLUSTER, es, rest);
    es := es + rest;
    k := kd;
    TopAmong(w, e.sources, kd, a);
  }

  /** Whenever the queue is empty, every key of a live namespace is settled. */
  ghost predicate AlwaysSettled(w: World) {
    forall c: Cluster, es: seq<Event>, k: Key {:trigger RunFrom(w, c, es), Live(w, k.ns)} |
      IsStart(c) && AdmissibleRun(w, c, es) && RunFrom(w, c, es).queue == {} && Live(w, k.ns) ::
      Settled(w, RunFrom(w, c, es), k)
  }

  /** Propagation is right at every quiet moment of every run exactly when the selectors are uniform. */
  lemma SettledIffUniform(w: World)
    requires ValidWorld(w)
    ensures AlwaysSettled(w) <==> Uniform(w)
  {
    if Uniform(w) {
      forall c: Cluster, es: seq<Event>, k: Key |
        IsStart(c) && AdmissibleRun(w, c, es) && RunFrom(w, c, es).queue == {} && Live(w, k.ns)
        ensures Settled(w, RunFrom(w, c, es), k)
      {
        StartIsInv(w, c);
        QuiescentIsSettled(w, c, es, k);
      }
    } else {
      var a, n, d, o, o' :| SkipsOver(w, a, n, d, o, o');
      var es, k := SkippedCopyGoesStale(w, a, n, d, o, o');
      assert IsStart(EMPTY_CLUSTER);
    }
  }

  // ----- A source that vanishes under another one leaves a gap -----

  /** First phase: a source in `n` has been recorded, and nothing else. */
  lemma RecordAlone(w: World, n: Key, o: Obj) returns (es: seq<Event>)
    requires IsSourceForm(w, o) && n.ns in w.present && n.ns !in w.excluded && n !in CopiesOf(w, n)
    ensures AdmissibleRun(w, EMPTY_CLUSTER, es)
    ensures var c := RunFrom(w, EMPTY_CLUSTER, es);
      c.queue == {} && c.sources == map[n := o] && forall x | x in c.store && x != n :: Inherited(c.store[x])
  {
    FirstOfferFinds(w, map[], n, Above(w, n.ns));
    RecordSource(w, EMPTY_CLUSTER, n, o);
    es := [Put(n, o), Reconcile(n)];
    var c := Cluster(map[n := o], map[n := o], CopiesOf(w, n));
    assert RunFrom(w, EMPTY_CLUSTER, es) == c;
    var rest := DrainQuiet(w, c);
    RunAppend(w, EMPTY_CLUSTER, es, rest);
    es := es + rest;
  }

  /** Second phase: a source above `n` appears, and the one in `n` is deleted before it is overwritten. */
  lemma VanishUnder(w: World, c: Cluster, a: Key, n: Key, o: Obj, o': Obj) returns (es: seq<Event>)
    requires Pair(w, a, n) && IsSourceForm(w, o) && c.queue == {} && c.sources == map[n := o']
    ensures AdmissibleRun(w, c, es)
    ensures RunFrom(w, c, es) ==
      Cluster(c.store[a := o] - {n}, map[a := o], CopiesOf(w, a) - {n} + CopiesOf(w, n))
  {
    var first := SourceAppearsAbove(w, c, a, n, o, o');
    NotAboveItsAncestor(w, a, n);
    var c1 := Cluster(c.store[a := o], map[n := o', a := o], CopiesOf(w, a));
    assert c1.sources - {n} == map[a := o] by { PairFacts(w, a, n); }
    var second := DropVanishes(w, c1, n);
    es := Joined(w, c, c1, first, second);
  }

  lemma Joined(w: World, c: Cluster, d: Cluster, es: seq<Event>, fs: seq<Event>) returns (gs: seq<Event>)
    requires AdmissibleRun(w, c, es) && RunFrom(w, c, es) == d && AdmissibleRun(w, d, fs)
    ensures AdmissibleRun(w, c, gs) && RunFrom(w, c, gs) == RunFrom(w, d, fs)
  {
    gs := es + fs;
    RunAppend(w, c, es, fs);
  }

  lemma SourceAppearsAbove(w: World, c: Cluster, a: Key, n: Key, o: Obj, o': Obj) returns (es: seq<Event>)
    requires Pair(w, a, n) && IsSourceForm(w, o) && c.queue == {} && c.sources == map[n := o']
    ensures AdmissibleRun(w, c, es)
    ensures RunFrom(w, c, es) == Cluster(c.store[a := o], map[n := o', a := o], CopiesOf(w, a))
  {
    es := [Put(a, o), Reconcile(a)];
    PairFacts(w, a, n);
    NotAboveItsAncestor(w, a, n);
    TopAmong(w, c.sources, a, n.ns);
    RecordSource(w, c, a, o);
  }

  /** Neither is the lower namespace above the upper one, nor does it enqueue it or itself. */
  lemma NotAboveItsAncestor(w: World, a: Key, n: Key)
    requires Pair(w, a, n)
    ensures n.ns !in Above(w, a.ns) && !Halted(w, n.ns) && n.ns in w.present && n.ns !in w.excluded
    ensures a !in CopiesOf(w, a) && a !in CopiesOf(w, n) && n !in CopiesOf(w, n)
  {
    PairFacts(w, a, n);
    LiveInTree(w, n.ns);
    AboveIs(w, a.ns);
    if Below(w.links, a.ns, n.ns) { BelowTransitive(w.links, a.ns, n.ns, a.ns); }
  }

  /** A source that is deleted is forgotten, and its copies are told. */
  lemma DropVanishes(w: World, c: Cluster, n: Key) returns (es: seq<Event>)
    requires n in c.sources && n.ns in w.present && n.ns !in w.excluded
    ensures AdmissibleRun(w, c, es)
    ensures RunFrom(w, c, es) == Cluster(c.store - {n}, c.sources - {n}, c.queue - {n} + CopiesOf(w, n))
  {
    es := [Drop(n), Reconcile(n)];
    var d := After(w, c, Drop(n));
    OneReconcile(w, d, n);
    assert [Drop(n), Reconcile(n)][1..] == [Reconcile(n)];
    assert c.queue + {n} - {n} == c.queue - {n};
  }

  /** Wherever a source would be copied to a namespace, some run ends with an empty queue and without
      that copy. */
  lemma CopyGoesMissing(w: World, a: Key, n: Key, o: Obj, o': Obj) returns (es: seq<Event>)
    requires Pair(w, a, n) && IsSourceForm(w, o) && IsSourceForm(w, o') && w.propagates(o, n.ns)
    ensures AdmissibleRun(w, EMPTY_CLUSTER, es) && RunFrom(w, EMPTY_CLUSTER, es).queue == {}
    ensures Missing(w, RunFrom(w, EMPTY_CLUSTER, es), n)
  {
    NotAboveItsAncestor(w, a, n);
    es := RecordAlone(w, n, o');
    var c := RunFrom(w, EMPTY_CLUSTER, es);
    var more := VanishUnder(w, c, a, n, o, o');
    RunAppend(w, EMPTY_CLUSTER, es, more);
    es := es + more;
    var d := RunFrom(w, c, more);
    var rest := DrainQuiet(w, d);
    RunAppend(w, EMPTY_CLUSTER, es, rest);
    es := es + rest;
    PairFacts(w, a, n);
    TopAmong(w, d.sources, n, a.ns);
  }

  // ----- A source that is turned into a copy leaves stale copies -----

  function LabelOf(o: Obj): string {
    if Inherited(o) then o.labels[LABEL_INHERITED_FROM] else ""
  }

  /** The update rule of the object validator for inherited objects: the label and the canonical
      object must stay the same. A missing label counts as an empty one. */
  predicate AdmitsInheritedUpdate(before: Obj, after: Obj) {
    LabelOf(before) == LabelOf(after) && Canonical(before) == Canonical(after)
  }

  /** The rule lets a user turn a source into a copy exactly if the new label is empty and nothing but
      HNC labels and annotations, finalizers and the status changes besides. */
  lemma LabelCanBeAddedIff(before: Obj, after: Obj)
    requires !Inherited(before) && Inherited(after)
    ensures AdmitsInheritedUpdate(before, after) <==>
      && after.labels[LABEL_INHERITED_FROM] == "" && before.content == after.content
      && SameUnreserved(before.labels, after.labels) && SameUnreserved(before.annotations, after.annotations)
  {
    CanonicalIff(before, after);
    if AdmitsInheritedUpdate(before, after) { assert LabelOf(after) == ""; }
  }

  /** What the rule admits on a copy is among the events considered, and as long as it stays a copy, it stays as right
      as it was: no stale copy comes from editing one. Only a copy with an empty label can be turned into a source. */
  lemma AdmittedEditsKeepCopies(w: World, c: Cluster, k: Key, after: Obj)
    requires Inv(w, c) && k in c.store && Inherited(c.store[k]) && AdmitsInheritedUpdate(c.store[k], after)
    ensures Admissible(c, Put(k, after))
    ensures Inherited(after) ==> (Settled(w, c, k) <==> Settled(w, After(w, c, Put(k, after)), k))
    ensures !Inherited(after) ==> LabelOf(c.store[k]) == ""
  {
  }

  function WithEmptyLabel(o: Obj): Obj {
    o.(labels := o.labels[LABEL_INHERITED_FROM := ""])
  }

  lemma EmptyLabelIsAdmitted(o: Obj)
    requires !Inherited(o)
    ensures Inherited(WithEmptyLabel(o)) && AdmitsInheritedUpdate(o, WithEmptyLabel(o))
  {
    InheritedLabelIsHnc();
    PutHncKey(o.labels, LABEL_INHERITED_FROM, "");
  }

  lemma PutHncKey(m: map<string, string>, k: string, v: string)
    requires IsHncKey(k)
    ensures StripHnc(m[k := v]) == StripHnc(m)
  {
  }

  /** Such an update is not admissible for propagation: after it, the source is forgotten without
      telling its copies, and a run ends with an empty queue and a stale copy. */
  lemma LabelledSourceGoesStale(w: World, n: Key, d: Key, o: Obj) returns (es: seq<Event>)
    requires Pair(w, n, d) && IsSourceForm(w, o) && w.propagates(o, d.ns)
    ensures var c := RunFrom(w, EMPTY_CLUSTER, es);
      && AdmissibleRun(w, EMPTY_CLUSTER, es) && c.queue == {} && n in c.store && c.store[n] == o
      && var e := RunFrom(w, c, [Put(n, WithEmptyLabel(o)), Reconcile(n), Reconcile(n)]);
         !Admissible(c, Put(n, WithEmptyLabel(o))) && e.queue == {} && !Settled(w, e, d)
  {
    PairFacts(w, n, d);
    EmptyLabelIsAdmitted(o);
    es := CopyEverywhere(w, n, d, o);
    var c := RunFrom(w, EMPTY_CLUSTER, es);
    var put := Put(n, WithEmptyLabel(o));
    var c1 := After(w, c, put);
    ForgetsTwice(w, c1, n);
    assert [put, Reconcile(n), Reconcile(n)][1..] == [Reconcile(n), Reconcile(n)];
    CopyIsCanonical(o, n.ns);
    FirstOfferFinds(w, map[], d, Above(w, d.ns));
  }

  /** An inherited object without a source above it is removed, and its own source forgotten. */
  lemma ForgetsTwice(w: World, c: Cluster, n: Key)
    requires ValidWorld(w) && Live(w, n.ns) && n in c.store && Inherited(c.store[n])
    requires c.sources.Keys == {n} && c.queue == {n}
    ensures RunFrom(w, c, [Reconcile(n), Reconcile(n)]) == Cluster(c.store - {n}, map[], {})
  {
    LiveInTree(w, n.ns);
    AboveIs(w, n.ns);
    TopAmong(w, c.sources, n, n.ns);
    assert c.sources - {n} == map[];
    var d := Cluster(c.store - {n}, map[], {n});
    assert Reconciled(w, c, n) == d;
    FirstOfferFinds(w, map[], n, Above(w, n.ns));
    assert Reconciled(w, d, n) == d.(queue := {});
    Twice(w, c, d, n, n);
  }
}
