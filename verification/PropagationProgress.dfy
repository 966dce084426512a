/** When users stop, reconciling empties the queue, whatever the order: every schedule of queued keys
    is bounded by a potential. */
module PropagationProgress {
  import opened Names
  import opened ParentLinks
  import opened Cycles
  import opened Objects
  import opened Propagation

  // ----- Sums over sets of keys -----

  ghost function Sum(f: Key -> nat, q: set<Key>): nat {
    if q == {} then 0 else var k :| k in q; f(k) + Sum(f, q - {k})
  }

  lemma {:induction false} SumRemove(f: Key -> nat, q: set<Key>, k: Key)
    requires k in q
    ensures Sum(f, q) == f(k) + Sum(f, q - {k})
    decreases |q|
  {
    var x :| x in q && Sum(f, q) == f(x) + Sum(f, q - {x});
    if x != k {
      SumRemove(f, q - {x}, k);
      SumRemove(f, q - {k}, x);
      assert q - {x} - {k} == q - {k} - {x};
    }
  }

  lemma {:induction false} SumSplit(f: Key -> nat, q: set<Key>, d: set<Key>)
    ensures Sum(f, q) == Sum(f, q * d) + Sum(f, q - d)
    decreases |q|
  {
    if q != {} {
      var k :| k in q;
      SumRemove(f, q, k);
      SumSplit(f, q - {k}, d);
      if k in d {
        SumRemove(f, q * d, k);
        assert (q - {k}) * d == q * d - {k} && q - {k} - d == q - d;
      } else {
        SumRemove(f, q - d, k);
        assert (q - {k}) * d == q * d && q - {k} - d == q - d - {k};
      }
    }
  }

  lemma {:induction false} SumSame(f: Key -> nat, g: Key -> nat, q: set<Key>)
    requires forall k | k in q :: f(k) == g(k)
    ensures Sum(f, q) == Sum(g, q)
    decreases |q|
  {
    if q != {} {
      var k :| k in q;
      SumRemove(f, q, k);
      SumRemove(g, q, k);
      SumSame(f, g, q - {k});
    }
  }

  lemma {:induction false} SumAtMost(f: Key -> nat, q: set<Key>, m: nat)
    requires forall k | k in q :: f(k) <= m
    ensures Sum(f, q) <= |q| * m
    decreases |q|
  {
    if q != {} {
      var k :| k in q;
      SumRemove(f, q, k);
      SumAtMost(f, q - {k}, m);
      assert |q| * m == (|q| - 1) * m + m;
    }
  }

  lemma SumSubset(f: Key -> nat, a: set<Key>, b: set<Key>)
    requires a <= b
    ensures Sum(f, a) <= Sum(f, b)
  {
    SumSplit(f, b, a);
    assert b * a == a;
  }

  // ----- The potential -----

  ghost function Pow(b: nat, e: nat): nat {
    if e == 0 then 1 else b * Pow(b, e - 1)
  }

  lemma {:induction false} PowPositive(b: nat, e: nat)
    requires b >= 1
    ensures Pow(b, e) >= 1
  {
    if e > 0 { PowPositive(b, e - 1); }
  }

  lemma {:induction false} PowMonotone(b: nat, d: nat, e: nat)
    requires b >= 1 && d <= e
    ensures Pow(b, d) <= Pow(b, e)
    decreases e - d
  {
    if d < e {
      PowMonotone(b, d, e - 1);
      PowPositive(b, e - 1);
      assert b * Pow(b, e - 1) >= Pow(b, e - 1);
    }
  }

  ghost function Base(w: World): nat {
    2 * |w.links| + 1
  }

  /** The weight of a namespace grows with the number of its descendants. */
  ghost function Size(w: World, n: Name): nat {
    Pow(Base(w), |Descendants(w.links, n)|)
  }

  /** The next reconcile of `k` would write or delete, and so come back to `k`. */
  ghost predicate Restless(w: World, c: Cluster, k: Key) {
    k in Reconciled(w, c.(queue := {}), k).queue
  }

  ghost function Weight(w: World, c: Cluster): Key -> nat {
    k => if Restless(w, c, k) then 2 * Size(w, k.ns) else Size(w, k.ns)
  }

  ghost function Potential(w: World, c: Cluster): nat {
    Sum(Weight(w, c), c.queue)
  }

  /** The keys of the same name in the namespaces below. */
  ghost function KeysBelow(w: World, k: Key): set<Key> {
    set d | d in Descendants(w.links, k.ns) :: Key(d, k.name)
  }

  lemma HaltedIsRestful(w: World, c: Cluster, k: Key)
    requires Halted(w, k.ns)
    ensures !Restless(w, c, k)
  {
  }

  lemma HaltedBelow(w: World, n: Name, d: Name)
    requires Halted(w, n) && d in Descendants(w.links, n)
    ensures Halted(w, d)
  {
    var m :| m in w.crit && Reach(w.links, n, m);
    ReachCases(w.links, d, n);
    ReachTransitive(w.links, d, n, m);
  }

  lemma CycleIsHalted(w: World, n: Name)
    requires ValidWorld(w) && OnCycle(w.links, n)
    ensures Halted(w, n)
  {
  }

  /** Below a namespace that is not halted, there are fewer descendants. */
  lemma SmallerBelow(w: World, n: Name, d: Name)
    requires ValidWorld(w) && !Halted(w, n) && d in Descendants(w.links, n)
    ensures |Descendants(w.links, d)| < |Descendants(w.links, n)|
  {
    var l := w.links;
    ReachCases(l, d, n);
    forall x | x in Descendants(l, d) ensures x in Descendants(l, n) {
      ReachTransitive(l, l[x], d, n);
    }
    if d in Descendants(l, d) {
      ReachOnCycle(l, d, n);
      CycleIsHalted(w, n);
    }
    assert d !in Descendants(l, d);
    SubsetSmaller(Descendants(l, d), Descendants(l, n));
  }

  /** All keys below together weigh less than the key itself. */
  lemma BelowWeighsLess(w: World, c: Cluster, k: Key, q: set<Key>)
    requires ValidWorld(w) && !Halted(w, k.ns) && q <= KeysBelow(w, k)
    ensures Sum(Weight(w, c), q) < Size(w, k.ns)
  {
    var h := |Descendants(w.links, k.ns)|;
    PowPositive(Base(w), h);
    if q != {} {
      var some :| some in q;
      assert h >= 1 by { SmallerBelow(w, k.ns, some.ns); }
      FewLightKeys(w, c, k, q, h - 1);
      BaseCovers(w, h - 1);
    }
  }

  lemma FewLightKeys(w: World, c: Cluster, k: Key, q: set<Key>, e: nat)
    requires ValidWorld(w) && !Halted(w, k.ns) && q <= KeysBelow(w, k) && |Descendants(w.links, k.ns)| == e + 1
    ensures Sum(Weight(w, c), q) <= |w.links| * (2 * Pow(Base(w), e))
  {
    var m := 2 * Pow(Base(w), e);
    forall x | x in q ensures Weight(w, c)(x) <= m { WeightBelow(w, c, k, x); }
    SumAtMost(Weight(w, c), q, m);
    FewKeys(w, k, q);
    MulMonotone(|q|, |w.links|, m);
  }

  lemma WeightBelow(w: World, c: Cluster, k: Key, x: Key)
    requires ValidWorld(w) && !Halted(w, k.ns) && x in KeysBelow(w, k) && |Descendants(w.links, k.ns)| >= 1
    ensures Weight(w, c)(x) <= 2 * Pow(Base(w), |Descendants(w.links, k.ns)| - 1)
  {
    SmallerBelow(w, k.ns, x.ns);
    PowMonotone(Base(w), |Descendants(w.links, x.ns)|, |Descendants(w.links, k.ns)| - 1);
  }

  lemma BaseCovers(w: World, e: nat)
    ensures |w.links| * (2 * Pow(Base(w), e)) < Pow(Base(w), e + 1)
  {
    var p := Pow(Base(w), e);
    PowPositive(Base(w), e);
    assert Pow(Base(w), e + 1) == (2 * |w.links| + 1) * p;
    assert (2 * |w.links| + 1) * p == |w.links| * (2 * p) + p;
  }

  lemma MulMonotone(a: nat, b: nat, m: nat)
    requires a <= b
    ensures a * m <= b * m
  {
  }

  lemma FewKeys(w: World, k: Key, q: set<Key>)
    requires q <= KeysBelow(w, k)
    ensures |q| <= |w.links|
  {
    KeysAtMost(q, w.links.Keys, k.name);
    assert |w.links.Keys| == |w.links|;
  }

  lemma {:induction false} KeysAtMost(q: set<Key>, ns: set<Name>, name: string)
    requires forall x | x in q :: x.ns in ns && x.name == name
    ensures |q| <= |ns|
    decreases |q|
  {
    if q != {} {
      var x :| x in q;
      forall y | y in q - {x} ensures y.ns in ns - {x.ns} && y.name == name {
        assert y != x;
      }
      KeysAtMost(q - {x}, ns - {x.ns}, name);
    }
  }

  // ----- Every reconcile of a queued key lowers the potential -----

  /** Whether a key that is not below `k` is restless does not depend on the reconcile of `k`. */
  lemma RestlessElsewhere(w: World, c: Cluster, k: Key, x: Key)
    requires ValidWorld(w) && x != k && x !in KeysBelow(w, k)
    ensures Restless(w, Reconciled(w, c, k), x) <==> Restless(w, c, x)
  {
    var d := Reconciled(w, c, k);
    ReconcileIsLocal(w, c, k);
    NotBelow(w, k, x);
    TopElsewhere(w, c.sources, d.sources, k, x);
    RestlessIff(w, c, x);
    RestlessIff(w, d, x);
    SameActionDue(w, c, d, k, x);
  }

  lemma ReconcileIsLocal(w: World, c: Cluster, k: Key)
    ensures var d := Reconciled(w, c, k); DifferAt(c.sources, d.sources, k) && DifferAt(c.store, d.store, k)
  {
    DecideIsLocal(w, c, k);
  }

  lemma DecideIsLocal(w: World, c: Cluster, k: Key)
    ensures DifferAt(c.sources, Decide(w, c, k).sources, k)
  {
  }

  lemma SameActionDue(w: World, c: Cluster, d: Cluster, k: Key, x: Key)
    requires x != k && DifferAt(c.store, d.store, k) && SameTop(w, c.sources, d.sources, x)
    ensures ActionDue(w, c, x) <==> ActionDue(w, d, x)
  {
  }

  lemma NotBelow(w: World, k: Key, x: Key)
    ensures x in KeysBelow(w, k) <==> x.name == k.name && Below(w.links, x.ns, k.ns)
  {
    assert x == Key(x.ns, x.name);
  }

  /** A write or a deletion is due. */
  ghost predicate ActionDue(w: World, c: Cluster, k: Key) {
    var top := Top(w, c.sources, k);
    if top.Some? then !(k in c.store && UpToDate(c.store[k], c.sources[Key(top.value, k.name)], top.value))
    else k in c.store && Inherited(c.store[k])
  }

  lemma RestlessIff(w: World, c: Cluster, k: Key)
    requires ValidWorld(w)
    ensures Restless(w, c, k) <==>
      && k.ns !in w.excluded && k.ns in w.present && !Halted(w, k.ns) && (k in c.store || k !in c.sources)
      && ActionDue(w, c, k)
  {
    if k in CopiesOf(w, k) { CycleIsHalted(w, k.ns); }
  }

  /** A key that comes back is restless before and not afterwards. */
  lemma ComesBackOnce(w: World, c: Cluster, k: Key)
    requires ValidWorld(w) && !Halted(w, k.ns) && k in Reconciled(w, c, k).queue
    ensures Restless(w, c, k) && !Restless(w, Reconciled(w, c, k), k)
    ensures k !in KeysBelow(w, k)
  {
    if OnCycle(w.links, k.ns) { CycleIsHalted(w, k.ns); }
    assert k.ns !in Descendants(w.links, k.ns);
    RestlessBefore(w, c, k);
    RestfulAfter(w, c, k);
  }

  lemma RestlessBefore(w: World, c: Cluster, k: Key)
    requires k.ns !in Descendants(w.links, k.ns) && k in Reconciled(w, c, k).queue
    ensures Restless(w, c, k)
  {
  }

  lemma RestfulAfter(w: World, c: Cluster, k: Key)
    requires ValidWorld(w) && !Halted(w, k.ns) && !OnCycle(w.links, k.ns) && k in Reconciled(w, c, k).queue
    ensures !Restless(w, Reconciled(w, c, k), k)
  {
    var d := Reconciled(w, c, k);
    assert k.ns !in Descendants(w.links, k.ns);
    TopElsewhere(w, c.sources, d.sources, k, k);
    var top := Top(w, c.sources, k);
    if top.Some? {
      AboveElements(w, k.ns, top.value);
      FirstOfferFinds(w, c.sources, k, Above(w, k.ns));
      CopyIsCanonical(c.sources[Key(top.value, k.name)], top.value);
    }
  }

  lemma QueueAfter(w: World, c: Cluster, k: Key)
    ensures Reconciled(w, c, k).queue <= c.queue + KeysBelow(w, k) + {k}
    ensures Halted(w, k.ns) ==> Reconciled(w, c, k).queue == c.queue - {k}
  {
  }

  lemma ReconcileLowers(w: World, c: Cluster, k: Key)
    requires ValidWorld(w) && k in c.queue
    ensures Potential(w, Reconciled(w, c, k)) < Potential(w, c)
  {
    var d := Reconciled(w, c, k);
    var f, g := Weight(w, c), Weight(w, d);
    QueueAfter(w, c, k);
    SumRemove(f, c.queue, k);
    PowPositive(Base(w), |Descendants(w.links, k.ns)|);
    if Halted(w, k.ns) {
      forall x | x in d.queue ensures f(x) == g(x) {
        if x in KeysBelow(w, k) {
          HaltedBelow(w, k.ns, x.ns);
          HaltedIsRestful(w, c, x);
          HaltedIsRestful(w, d, x);
        } else {
          RestlessElsewhere(w, c, k, x);
        }
      }
      SumSame(f, g, d.queue);
    } else {
      var below := KeysBelow(w, k);
      SumSplit(g, d.queue, below);
      BelowWeighsLess(w, d, k, d.queue * below);
      var rest := d.queue - below;
      var others := rest - {k};
      forall x | x in others ensures f(x) == g(x) { RestlessElsewhere(w, c, k, x); }
      SumSame(f, g, others);
      SumSubset(f, others, c.queue - {k});
      if k in rest {
        ComesBackOnce(w, c, k);
        SumRemove(g, rest, k);
      } else {
        assert rest == others;
      }
    }
  }

  /** Each key of the schedule is queued when its turn comes. */
  ghost predicate Schedule(w: World, c: Cluster, ks: seq<Key>)
    decreases |ks|
  {
    ks == [] || (ks[0] in c.queue && Schedule(w, Reconciled(w, c, ks[0]), ks[1..]))
  }

  ghost function AfterSchedule(w: World, c: Cluster, ks: seq<Key>): Cluster
    decreases |ks|
  {
    if ks == [] then c else AfterSchedule(w, Reconciled(w, c, ks[0]), ks[1..])
  }

  /** No schedule is longer than the potential it starts with. */
  lemma {:induction false} ScheduleIsBounded(w: World, c: Cluster, ks: seq<Key>)
    requires ValidWorld(w) && Schedule(w, c, ks)
    ensures |ks| + Potential(w, AfterSchedule(w, c, ks)) <= Potential(w, c)
    decreases |ks|
  {
    if ks != [] {
      ReconcileLowers(w, c, ks[0]);
      ScheduleIsBounded(w, Reconciled(w, c, ks[0]), ks[1..]);
    }
  }

  lemma {:induction false} ScheduleKeepsInv(w: World, c: Cluster, ks: seq<Key>)
    requires ValidWorld(w) && Uniform(w) && Inv(w, c)
    ensures Inv(w, AfterSchedule(w, c, ks))
    decreases |ks|
  {
    if ks != [] {
      ReconcileKeepsInv(w, c, ks[0]);
      ScheduleKeepsInv(w, Reconciled(w, c, ks[0]), ks[1..]);
    }
  }

  /** Once users stop, the queue can be worked off in no more steps than the potential, in any order,
      and a schedule that cannot be continued leaves every live key settled. */
  lemma UsersStopThenSettled(w: World, c: Cluster, ks: seq<Key>)
    requires ValidWorld(w) && Uniform(w) && Inv(w, c) && Schedule(w, c, ks)
    ensures |ks| <= Potential(w, c)
    ensures var d := AfterSchedule(w, c, ks);
      || (exists k :: k in d.queue && Schedule(w, d, [k]))
      || (d.queue == {} && forall k: Key | Live(w, k.ns) :: Settled(w, d, k))
  {
    ScheduleIsBounded(w, c, ks);
    ScheduleKeepsInv(w, c, ks);
    var d := AfterSchedule(w, c, ks);
    if d.queue != {} {
      var k :| k in d.queue;
      assert Schedule(w, Reconciled(w, d, k), []);
      assert [k][1..] == [];
      assert Schedule(w, d, [k]);
    }
  }
}
