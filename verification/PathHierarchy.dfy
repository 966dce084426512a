/** The hierarchy inferred from the directories of a file tree: paths are read into a forest, and the
    forest is written back as paths. */
module PathHierarchy {
  import opened Text

  // ----- Paths -----

  datatype Parsed = Ignored | Misplaced | Chain(nnms: seq<string>)

  /** `getNamespaces`: the directories between `namespaces/` and the file, root first. */
  function GetNamespaces(path: string): Parsed {
    var segs := Split(path, '/');
    if segs[0] != "namespaces" then Ignored
    else if |segs| < 3 then Misplaced
    else Chain(segs[1..|segs| - 1])
  }

  const FILE := "hierarchyconfiguration.yaml"

  /** The path that is generated for a namespace whose chain of ancestors is `c`, root first. */
  function PathOf(c: seq<string>): string {
    Join(["namespaces"] + c + [FILE], '/')
  }

  /** Reading a generated path gives back the chain. */
  lemma ReadsBack(c: seq<string>)
    requires c != [] && forall i | 0 <= i < |c| :: Plain(c[i], '/')
    ensures GetNamespaces(PathOf(c)) == Chain(c)
    ensures IsPath(PathOf(c), ["namespaces"] + c + ["hierarchyconfiguration.yaml"])
  {
    var segs := ["namespaces"] + c + [FILE];
    forall i | 0 <= i < |segs| ensures Plain(segs[i], '/') {
      if 0 < i < |segs| - 1 { assert segs[i] == c[i - 1]; }
    }
    SplitJoin(segs, '/');
    assert segs[1..|segs| - 1] == c;
  }

  /** `path` consists of the segments `segs`, which have no slash, and nothing else. */
  ghost predicate IsPath(path: string, segs: seq<string>) {
    segs != [] && path == Join(segs, '/') && forall i | 0 <= i < |segs| :: Plain(segs[i], '/')
  }

  /** A path is read as the chain of its directories exactly if it leads through `namespaces` and at least one
      directory to a file; directly in `namespaces` a file is misplaced; anywhere else it is ignored. */
  lemma ReadPathIff(path: string, segs: seq<string>)
    requires IsPath(path, segs)
    ensures GetNamespaces(path).Chain? <==> |segs| >= 3 && segs[0] == "namespaces"
    ensures GetNamespaces(path) == Misplaced <==> |segs| <= 2 && segs[0] == "namespaces"
    ensures GetNamespaces(path) == Ignored <==> segs[0] != "namespaces"
    ensures GetNamespaces(path).Chain? ==> GetNamespaces(path).nnms == segs[1..|segs| - 1]
  {
    SplitJoin(segs, '/');
  }

  /** Every path is one of segments. */
  lemma {:induction false} SomePath(path: string) returns (segs: seq<string>)
    ensures IsPath(path, segs)
  {
    if path == "" {
      segs := [""];
    } else {
      var rest := SomePath(path[1..]);
      assert path == [path[0]] + path[1..];
      if path[0] == '/' {
        segs := [""] + rest;
        JoinFront("", rest, '/');
      } else {
        segs := [[path[0]] + rest[0]] + rest[1..];
        FirstLonger(path[0], rest);
      }
    }
  }

  lemma FirstLonger(c: char, segs: seq<string>)
    requires segs != []
    ensures Join([[c] + segs[0]] + segs[1..], '/') == [c] + Join(segs, '/')
  {
    if |segs| > 1 {
      JoinFront([c] + segs[0], segs[1..], '/');
      assert segs == [segs[0]] + segs[1..];
      JoinFront(segs[0], segs[1..], '/');
    }
  }

  /** Every chain that is read has at least one directory, and no slash in any. */
  lemma ChainIsPlain(path: string)
    requires GetNamespaces(path).Chain?
    ensures var c := GetNamespaces(path).nnms; c != [] && forall i | 0 <= i < |c| :: Plain(c[i], '/')
  {
    SplitIsPlain(path, '/');
  }

  // ----- The forest -----

  /** Each namespace with its parent; the empty name stands for no parent. */
  type Parents = map<string, string>

  function ParentAt(c: seq<string>, i: nat): string
    requires i < |c|
  {
    if i == 0 then "" else c[i - 1]
  }

  predicate Describes(f: Parents, c: seq<string>) {
    forall i | 0 <= i < |c| :: c[i] in f && f[c[i]] == ParentAt(c, i)
  }

  predicate Extends(g: Parents, f: Parents) {
    forall n | n in f :: n in g && g[n] == f[n]
  }

  /** The outcome of `updateForest`: a conflict leaves the entries added before it. */
  datatype Outcome = Outcome(forest: Parents, ok: bool)

  function Updated(f: Parents, c: seq<string>): Outcome {
    if c == [] then Outcome(f, true)
    else
      var o := Updated(f, c[..|c| - 1]);
      var n, p := c[|c| - 1], ParentAt(c, |c| - 1);
      if !o.ok then o
      else if n in o.forest then Outcome(o.forest, o.forest[n] == p)
      else Outcome(o.forest[n := p], true)
  }

  lemma DescribesStep(f: Parents, c: seq<string>)
    requires c != []
    ensures Describes(f, c) <==>
      Describes(f, c[..|c| - 1]) && c[|c| - 1] in f && f[c[|c| - 1]] == ParentAt(c, |c| - 1)
  {
    var d := c[..|c| - 1];
    forall i: nat | i < |d| ensures ParentAt(d, i) == ParentAt(c, i) && d[i] == c[i] { }
    if Describes(f, d) && c[|d|] in f && f[c[|d|]] == ParentAt(c, |d|) {
      forall i | 0 <= i < |c| ensures c[i] in f && f[c[i]] == ParentAt(c, i) {
        if i < |d| { assert d[i] in f; }
      }
    } else if Describes(f, c) {
      forall i | 0 <= i < |d| ensures d[i] in f && f[d[i]] == ParentAt(d, i) { assert c[i] in f; }
    }
  }

  /** The link of `n` to `p` comes from the chain. */
  predicate LinkOf(c: seq<string>, n: string, p: string) {
    exists i: nat :: i < |c| && c[i] == n && ParentAt(c, i) == p
  }

  /** A successful update is the least forest that has the old entries and describes the chain. */
  lemma {:induction false} UpdateIsLeast(f: Parents, c: seq<string>)
    ensures var o := Updated(f, c);
      && Extends(o.forest, f)
      && (o.ok ==> Describes(o.forest, c))
      && forall n | n in o.forest && n !in f :: LinkOf(c, n, o.forest[n])
  {
    if c != [] {
      var last := |c| - 1;
      var d := c[..last];
      UpdateIsLeast(f, d);
      var o, o1 := Updated(f, d), Updated(f, c);
      DescribesStep(o1.forest, c);
      if o1.ok {
        forall i | 0 <= i < |d| ensures d[i] in o1.forest && o1.forest[d[i]] == ParentAt(d, i) {
          assert d[i] in o.forest;
        }
      }
      forall n | n in o1.forest && n !in f ensures LinkOf(c, n, o1.forest[n]) {
        if n in o.forest {
          var i: nat :| i < |d| && d[i] == n && ParentAt(d, i) == o.forest[n];
          assert c[i] == n && ParentAt(c, i) == o.forest[n];
        } else {
          assert c[last] == n;
        }
      }
    }
  }

  /** An update fails exactly if no forest has the old entries and describes the chain. */
  lemma {:induction false} UpdateFailsIff(f: Parents, c: seq<string>)
    ensures Updated(f, c).ok <==> exists g :: Extends(g, f) && Describes(g, c)
    ensures forall g | Extends(g, f) && Describes(g, c) :: Extends(g, Updated(f, c).forest)
  {
    if c == [] {
      assert Extends(f, f) && Describes(f, c);
    } else {
      var d := c[..|c| - 1];
      UpdateFailsIff(f, d);
      UpdateIsLeast(f, c);
      forall g | Extends(g, f) && Describes(g, c) ensures Updated(f, c).ok && Extends(g, Updated(f, c).forest) {
        DescribesStep(g, c);
        assert Extends(g, Updated(f, d).forest);
      }
    }
  }

  // ----- Whole runs -----

  function ReadAll(cs: seq<seq<string>>): Outcome {
    if cs == [] then Outcome(map[], true)
    else
      var o := ReadAll(cs[..|cs| - 1]);
      if o.ok then Updated(o.forest, cs[|cs| - 1]) else o
  }

  /** The chains that the files name. */
  function ChainsIn(paths: seq<string>): seq<seq<string>> {
    if paths == [] then []
    else ChainsIn(paths[..|paths| - 1]) + ChainOf(paths[|paths| - 1])
  }

  function ChainOf(path: string): seq<seq<string>> {
    var r := GetNamespaces(path);
    if r.Chain? then [r.nnms] else []
  }

  lemma ReadNext(cs: seq<seq<string>>, c: seq<string>)
    ensures ReadAll(cs + [c]) == if ReadAll(cs).ok then Updated(ReadAll(cs).forest, c) else ReadAll(cs)
  {
    assert (cs + [c])[..|cs|] == cs;
  }

  /** The effect of one file on the forest. */
  function Processed(o: Outcome, path: string): Outcome {
    if !o.ok then o
    else match GetNamespaces(path)
      case Misplaced => Outcome(o.forest, false)
      case Ignored => o
      case Chain(nnms) => Updated(o.forest, nnms)
  }

  /** `processItems`, as far as the hierarchy goes: the first failure ends it. */
  function ProcessedAll(paths: seq<string>): Outcome {
    if paths == [] then Outcome(map[], true) else Processed(ProcessedAll(paths[..|paths| - 1]), paths[|paths| - 1])
  }

  predicate NoneMisplaced(paths: seq<string>) {
    forall p | p in paths :: GetNamespaces(p) != Misplaced
  }

  /** The files are accepted exactly if each one in the namespaces directory lies in a namespace and the
      chains do not conflict. */
  lemma {:induction false} AcceptedIff(paths: seq<string>)
    ensures ProcessedAll(paths).ok <==> NoneMisplaced(paths) && ReadAll(ChainsIn(paths)).ok
    ensures ProcessedAll(paths).ok ==> ProcessedAll(paths).forest == ReadAll(ChainsIn(paths)).forest
  {
    if paths != [] {
      var init, p := paths[..|paths| - 1], paths[|paths| - 1];
      AcceptedIff(init);
      assert paths == init + [p];
      assert NoneMisplaced(paths) <==> NoneMisplaced(init) && GetNamespaces(p) != Misplaced;
      if GetNamespaces(p).Chain? {
        ReadNext(ChainsIn(init), GetNamespaces(p).nnms);
      } else {
        assert ChainsIn(init) + [] == ChainsIn(init);
      }
    }
  }

  lemma {:induction false} FailureEndsIt(paths: seq<string>, i: nat)
    requires i <= |paths| && !ProcessedAll(paths[..i]).ok
    ensures ProcessedAll(paths) == ProcessedAll(paths[..i])
    decreases |paths|
  {
    if i < |paths| {
      var d := paths[..|paths| - 1];
      assert d[..i] == paths[..i];
      FailureEndsIt(d, i);
    } else {
      assert paths[..i] == paths;
    }
  }

  predicate DescribesAll(g: Parents, cs: seq<seq<string>>) {
    forall c | c in cs :: Describes(g, c)
  }

  predicate FromSome(cs: seq<seq<string>>, n: string, p: string) {
    exists c :: c in cs && LinkOf(c, n, p)
  }

  lemma {:induction false} ReadDescribes(cs: seq<seq<string>>)
    requires ReadAll(cs).ok
    ensures DescribesAll(ReadAll(cs).forest, cs)
  {
    if cs != [] {
      var ds, c := cs[..|cs| - 1], cs[|cs| - 1];
      assert cs == ds + [c];
      ReadDescribes(ds);
      UpdateIsLeast(ReadAll(ds).forest, c);
      forall d | d in cs ensures Describes(ReadAll(cs).forest, d) {
        if d in ds { Stretch(ReadAll(ds).forest, ReadAll(cs).forest, d); }
      }
    }
  }

  lemma {:induction false} ReadIsLeast(cs: seq<seq<string>>, g: Parents)
    requires DescribesAll(g, cs)
    ensures ReadAll(cs).ok && Extends(g, ReadAll(cs).forest)
  {
    if cs != [] {
      var ds, c := cs[..|cs| - 1], cs[|cs| - 1];
      assert cs == ds + [c];
      ReadIsLeast(ds, g);
      UpdateFailsIff(ReadAll(ds).forest, c);
      assert Describes(g, c);
    }
  }

  lemma {:induction false} ReadFromSome(cs: seq<seq<string>>, n: string)
    requires n in ReadAll(cs).forest
    ensures FromSome(cs, n, ReadAll(cs).forest[n])
  {
    if cs != [] {
      var ds, c := cs[..|cs| - 1], cs[|cs| - 1];
      assert cs == ds + [c];
      var f := ReadAll(ds).forest;
      UpdateIsLeast(f, c);
      if n in f {
        ReadFromSome(ds, n);
        var d :| d in ds && LinkOf(d, n, f[n]);
        assert d in cs;
      } else {
        assert c in cs;
      }
    }
  }

  /** Reading succeeds exactly if some forest describes all chains; then the result is the least such
      forest. */
  lemma ReadsIff(cs: seq<seq<string>>)
    ensures ReadAll(cs).ok <==> exists g :: DescribesAll(g, cs)
    ensures ReadAll(cs).ok ==> DescribesAll(ReadAll(cs).forest, cs)
    ensures forall g | DescribesAll(g, cs) :: Extends(g, ReadAll(cs).forest)
    ensures forall n | n in ReadAll(cs).forest :: FromSome(cs, n, ReadAll(cs).forest[n])
  {
    if ReadAll(cs).ok { ReadDescribes(cs); }
    forall g | DescribesAll(g, cs) ensures ReadAll(cs).ok && Extends(g, ReadAll(cs).forest) { ReadIsLeast(cs, g); }
    forall n | n in ReadAll(cs).forest ensures FromSome(cs, n, ReadAll(cs).forest[n]) { ReadFromSome(cs, n); }
  }

  lemma Stretch(f: Parents, g: Parents, c: seq<string>)
    requires Extends(g, f) && Describes(f, c)
    ensures Describes(g, c)
  {
    forall i | 0 <= i < |c| ensures c[i] in g && g[c[i]] == ParentAt(c, i) { assert c[i] in f; }
  }

  /** The order of the files, and how often each occurs, does not matter. */
  lemma OrderDoesNotMatter(cs: seq<seq<string>>, ds: seq<seq<string>>)
    requires forall c :: c in cs <==> c in ds
    ensures ReadAll(cs).ok == ReadAll(ds).ok
    ensures ReadAll(cs).ok ==> ReadAll(cs).forest == ReadAll(ds).forest
  {
    ReadsIff(cs);
    ReadsIff(ds);
    forall g ensures DescribesAll(g, cs) <==> DescribesAll(g, ds) { }
    if ReadAll(cs).ok {
      var f, g := ReadAll(cs).forest, ReadAll(ds).forest;
      assert DescribesAll(f, ds) && DescribesAll(g, cs);
      forall n ensures n in f <==> n in g { }
      assert f == g;
    }
  }

  // ----- No cycles -----

  /** `order` lists the namespaces so that every parent comes before its children. */
  ghost predicate Built(f: Parents, order: seq<string>) {
    && (forall n :: n in f <==> n in order)
    && (forall i, j | 0 <= i < j < |order| :: order[i] != order[j])
    && (forall i | 0 <= i < |order| :: f[order[i]] == "" || f[order[i]] in order[..i])
  }

  ghost function Position(order: seq<string>, n: string): (i: nat)
    requires n in order
    ensures i < |order| && order[i] == n
  {
    var i: nat :| i < |order| && order[i] == n;
    i
  }

  lemma BuiltStep(f: Parents, order: seq<string>, n: string, p: string)
    requires Built(f, order) && n !in f && (p == "" || p in f)
    ensures Built(f[n := p], order + [n])
  {
    var o := order + [n];
    forall i | 0 <= i < |o| ensures f[n := p][o[i]] == "" || f[n := p][o[i]] in o[..i] {
      if i < |order| { assert o[..i] == order[..i]; } else { assert o[..i] == order; }
    }
  }

  /** Whatever is read, also up to a conflict, the forest has every parent it names and no cycle. */
  lemma {:induction false} UpdateKeepsBuilt(f: Parents, order: seq<string>, c: seq<string>) returns (o: seq<string>)
    requires Built(f, order)
    ensures Built(Updated(f, c).forest, o)
  {
    o := order;
    if c != [] {
      var d := c[..|c| - 1];
      o := UpdateKeepsBuilt(f, order, d);
      UpdateIsLeast(f, d);
      var u := Updated(f, d);
      var n, p := c[|c| - 1], ParentAt(c, |c| - 1);
      if u.ok && n !in u.forest {
        if |c| > 1 { assert d[|d| - 1] in u.forest; }
        BuiltStep(u.forest, o, n, p);
        o := o + [n];
      }
    }
  }

  lemma {:induction false} ReadIsBuilt(cs: seq<seq<string>>) returns (o: seq<string>)
    ensures Built(ReadAll(cs).forest, o)
  {
    o := [];
    if cs != [] {
      o := ReadIsBuilt(cs[..|cs| - 1]);
      var u := ReadAll(cs[..|cs| - 1]);
      if u.ok { o := UpdateKeepsBuilt(u.forest, o, cs[|cs| - 1]); }
    }
  }

  lemma ParentIsEarlier(f: Parents, order: seq<string>, n: string)
    requires Built(f, order) && n in f && f[n] != ""
    ensures f[n] in f && Position(order, f[n]) < Position(order, n)
  {
    var i := Position(order, n);
    assert f[order[i]] in order[..i];
    var j :| 0 <= j < i && order[..i][j] == f[n];
    assert order[j] == f[n];
  }

  /** The chain of ancestors of its last element, root first. */
  predicate IsChain(f: Parents, c: seq<string>) {
    && c != [] && Describes(f, c)
    && forall i | 0 <= i < |c| - 1 :: c[i] != ""
  }

  lemma ChainTop(f: Parents, c: seq<string>)
    requires IsChain(f, c)
    ensures c[|c| - 1] in f && (f[c[|c| - 1]] == "" <==> |c| == 1)
    ensures |c| > 1 ==> f[c[|c| - 1]] == c[..|c| - 1][|c| - 2] && IsChain(f, c[..|c| - 1])
  {
    assert c[|c| - 1] in f && f[c[|c| - 1]] == ParentAt(c, |c| - 1);
    if |c| > 1 {
      assert c[|c| - 2] != "";
      DescribesStep(f, c);
    }
  }

  lemma {:induction false} ChainIsUnique(f: Parents, c: seq<string>, d: seq<string>)
    requires IsChain(f, c) && IsChain(f, d) && c[|c| - 1] == d[|d| - 1]
    ensures c == d
  {
    ChainTop(f, c);
    ChainTop(f, d);
    if |c| > 1 {
      ChainIsUnique(f, c[..|c| - 1], d[..|d| - 1]);
      assert c == c[..|c| - 1] + [c[|c| - 1]] && d == d[..|d| - 1] + [d[|d| - 1]];
    }
  }

  /** Reading a chain again succeeds and changes nothing. */
  lemma {:induction false} ReplayChangesNothing(f: Parents, c: seq<string>)
    requires Describes(f, c)
    ensures Updated(f, c) == Outcome(f, true)
  {
    if c != [] {
      DescribesStep(f, c);
      ReplayChangesNothing(f, c[..|c| - 1]);
    }
  }

  /** The directories that were read are the ancestors recorded for the last of them, exactly if no
      directory above it has an empty name. */
  lemma ReadChainIff(cs: seq<seq<string>>, c: seq<string>, d: seq<string>)
    requires ReadAll(cs).ok && c in cs && c != []
    requires IsChain(ReadAll(cs).forest, d) && d[|d| - 1] == c[|c| - 1]
    ensures d == c <==> "" !in c[..|c| - 1]
  {
    ReadsIff(cs);
    var f := ReadAll(cs).forest;
    if "" !in c[..|c| - 1] {
      forall i | 0 <= i < |c| - 1 ensures c[i] != "" { assert c[i] == c[..|c| - 1][i]; }
      ChainIsUnique(f, c, d);
    } else {
      var i :| 0 <= i < |c| - 1 && c[..|c| - 1][i] == "";
      assert c[i] == "";
    }
  }

  const EMPTY_MIDDLE: seq<string> := ["a", "", "b"]

  /** For instance, below `a//b` ... */
  lemma EmptyDirectoryIsRead()
    ensures GetNamespaces(PathOf(EMPTY_MIDDLE)) == Chain(EMPTY_MIDDLE)
  {
    ReadsBack(EMPTY_MIDDLE);
  }

  /** ... the namespace `b` is a root. */
  lemma EmptyDirectoryLosesParent()
    ensures ReadAll([EMPTY_MIDDLE]).ok && IsChain(ReadAll([EMPTY_MIDDLE]).forest, ["b"])
  {
    var cs := [EMPTY_MIDDLE];
    var f: Parents := map["a" := "", "" := "a", "b" := ""];
    assert Describes(f, EMPTY_MIDDLE);
    assert DescribesAll(f, cs);
    ReadsIff(cs);
    var g := ReadAll(cs).forest;
    assert cs[0] in cs && Describes(g, cs[0]);
    assert EMPTY_MIDDLE[2] in g && g[EMPTY_MIDDLE[2]] == ParentAt(EMPTY_MIDDLE, 2);
  }

  // ----- The tool -----

  /** A generated configuration: the namespace, its path and its parent. */
  datatype Generated = Generated(name: string, path: string, parent: string)

  class Inference {
    var forest: Parents
    var hasConfig: set<string>
    /** The namespaces, parents first. */
    ghost var order: seq<string>

    constructor ()
      ensures Valid() && forest == map[] && hasConfig == {}
    {
      forest, hasConfig, order := map[], {}, [];
    }

    ghost predicate Valid()
      reads this
    {
      Built(forest, order) && forall n | n in forest :: Plain(n, '/')
    }

    /** `updateForest`. */
    method UpdateForest(nnms: seq<string>) returns (ok: bool)
      requires Valid() && forall i | 0 <= i < |nnms| :: Plain(nnms[i], '/')
      modifies this`forest, this`order
      ensures Valid() && forest == Updated(old(forest), nnms).forest && ok == Updated(old(forest), nnms).ok
    {
      var pnm := "";
      for i := 0 to |nnms|
        invariant Valid() && Updated(old(forest), nnms[..i]) == Outcome(forest, true)
        invariant pnm == "" || pnm in forest
        invariant i < |nnms| ==> pnm == ParentAt(nnms, i)
      {
        var nnm := nnms[i];
        UpdatedStep(old(forest), nnms, i);
        if nnm in forest {
          if forest[nnm] != pnm {
            StaysFailed(old(forest), nnms, i + 1);
            return false;
          }
        } else {
          BuiltStep(forest, order, nnm, pnm);
          forest := forest[nnm := pnm];
          order := order + [nnm];
        }
        pnm := nnm;
      }
      assert nnms[..|nnms|] == nnms;
      return true;
    }

    /** `processItems`, as far as the hierarchy goes. */
    method ProcessItems(paths: seq<string>) returns (ok: bool)
      requires Valid() && forest == map[]
      modifies this`forest, this`order
      ensures Valid() && Outcome(forest, ok) == ProcessedAll(paths)
    {
      for i := 0 to |paths|
        invariant Valid() && ProcessedAll(paths[..i]) == Outcome(forest, true)
      {
        assert paths[..i + 1][..i] == paths[..i];
        ok := ProcessItem(paths[i]);
        if !ok {
          FailureEndsIt(paths, i + 1);
          return;
        }
      }
      assert paths[..|paths|] == paths;
      ok := true;
    }

    /** ... for one file. */
    method ProcessItem(path: string) returns (ok: bool)
      requires Valid()
      modifies this`forest, this`order
      ensures Valid() && Outcome(forest, ok) == Processed(Outcome(old(forest), true), path)
    {
      match GetNamespaces(path) {
      case Misplaced =>
        ok := false;
      case Ignored =>
        ok := true;
      case Chain(nnms) =>
        ChainIsPlain(path);
        ok := UpdateForest(nnms);
      }
    }

    /** `addConfigs`, for every namespace with a parent and without a configuration, in any order. */
    method AddConfigs() returns (made: seq<Generated>)
      requires Valid()
      ensures forall g :: g in made <==> IsGenerated(g)
      ensures forall i, j | 0 <= i < j < |made| :: made[i].name != made[j].name
    {
      made := [];
      var left := forest.Keys;
      while left != {}
        invariant left <= forest.Keys
        invariant forall g :: g in made <==> g.name !in left && IsGenerated(g)
        invariant forall i, j | 0 <= i < j < |made| :: made[i].name != made[j].name
      {
        var nm :| nm in left;
        left := left - {nm};
        if nm in hasConfig || forest[nm] == "" {
          continue;
        }
        var g := ConfigFor(nm);
        forall i | 0 <= i < |made| ensures made[i].name != nm { assert made[i] in made; }
        made := made + [g];
      }
    }

    /** The configuration is for a namespace that lacks one, and its path leads through the ancestors. */
    ghost predicate IsGenerated(g: Generated)
      reads this
    {
      && g.name in forest && g.name !in hasConfig && forest[g.name] != "" && g.parent == forest[g.name]
      && exists c :: IsChain(forest, c) && c[|c| - 1] == g.name && g.path == PathOf(c)
    }

    method ConfigFor(nm: string) returns (g: Generated)
      requires Valid() && nm in forest && nm !in hasConfig && forest[nm] != ""
      ensures g.name == nm && forall h: Generated :: h.name == nm && IsGenerated(h) <==> h == g
    {
      var path, c := PathTo(nm);
      g := Generated(nm, path, forest[nm]);
      forall h: Generated | h.name == nm && IsGenerated(h) ensures h == g {
        var d :| IsChain(forest, d) && d[|d| - 1] == nm && h.path == PathOf(d);
        ChainIsUnique(forest, c, d);
      }
    }

    /** The loop of `addConfigs` that builds a path. It follows the parents to a root. */
    method PathTo(nm: string) returns (path: string, ghost c: seq<string>)
      requires Valid() && nm in forest && forest[nm] != ""
      ensures IsChain(forest, c) && c[|c| - 1] == nm && path == PathOf(c)
    {
      path := nm + "/" + FILE;
      var pnm := forest[nm];
      c := [nm];
      ParentIsEarlier(forest, order, nm);
      ClimbStarts(forest, nm);
      while pnm != ""
        invariant pnm != "" ==> pnm in forest
        invariant Climbing(forest, nm, c, pnm, path)
        decreases if pnm == "" then 0 else 1 + Position(order, pnm)
      {
        if forest[pnm] != "" { ParentIsEarlier(forest, order, pnm); }
        ClimbStep(forest, nm, c, pnm, path);
        path := pnm + "/" + path;
        c := [pnm] + c;
        pnm := forest[pnm];
      }
      path := "namespaces" + "/" + path;
      ClimbEnds(forest, nm, c, path);
    }

    /** What is generated can be read: it gives back the ancestors, and leaves the forest as it is. */
    lemma GeneratedIsFaithful(g: Generated)
      requires Valid() && IsGenerated(g)
      ensures var r := GetNamespaces(g.path);
        && r.Chain? && IsChain(forest, r.nnms) && r.nnms[|r.nnms| - 1] == g.name
        && Updated(forest, r.nnms) == Outcome(forest, true)
    {
      var c :| IsChain(forest, c) && c[|c| - 1] == g.name && g.path == PathOf(c);
      ReadsBack(c);
      ReplayChangesNothing(forest, c);
    }
  }

  /** The parent of `c[i]`, when `p` is the parent of the first. */
  function Above(c: seq<string>, p: string, i: nat): string
    requires i < |c|
  {
    if i == 0 then p else c[i - 1]
  }

  /** The lower end of a chain; `p` is the parent of its first element. */
  ghost predicate PartOfChain(f: Parents, c: seq<string>, p: string) {
    && c != [] && (forall i | 0 <= i < |c| :: c[i] in f && f[c[i]] == Above(c, p, i))
    && forall i | 0 <= i < |c| - 1 :: c[i] != ""
  }

  /** The loop of `addConfigs` has come from `nm` to `p`, past the elements of `c`. */
  ghost predicate Climbing(f: Parents, nm: string, c: seq<string>, p: string, path: string) {
    PartOfChain(f, c, p) && c[|c| - 1] == nm && path == Join(c + [FILE], '/')
  }

  lemma ClimbStarts(f: Parents, nm: string)
    requires nm in f
    ensures Climbing(f, nm, [nm], f[nm], nm + "/" + FILE)
  {
    JoinFront(nm, [FILE], '/');
  }

  lemma ClimbStep(f: Parents, nm: string, c: seq<string>, p: string, path: string)
    requires Climbing(f, nm, c, p, path) && p in f && p != ""
    ensures Climbing(f, nm, [p] + c, f[p], p + "/" + path)
  {
    PartGrows(f, c, p);
    JoinFront(p, c + [FILE], '/');
    assert [p] + (c + [FILE]) == ([p] + c) + [FILE];
  }

  lemma ClimbEnds(f: Parents, nm: string, c: seq<string>, path: string)
    requires PartOfChain(f, c, "") && path == "namespaces" + "/" + Join(c + [FILE], '/')
    ensures IsChain(f, c) && path == PathOf(c)
  {
    forall i | 0 <= i < |c| ensures c[i] in f && f[c[i]] == ParentAt(c, i) { assert f[c[i]] == Above(c, "", i); }
    JoinFront("namespaces", c + [FILE], '/');
    assert ["namespaces"] + (c + [FILE]) == ["namespaces"] + c + [FILE];
  }

  lemma PartGrows(f: Parents, c: seq<string>, p: string)
    requires PartOfChain(f, c, p) && p in f && p != ""
    ensures PartOfChain(f, [p] + c, f[p])
  {
    var d := [p] + c;
    forall i | 0 <= i < |d| ensures d[i] in f && f[d[i]] == Above(d, f[p], i) {
      if i > 0 { assert d[i] == c[i - 1] && f[c[i - 1]] == Above(c, p, i - 1) == d[i - 1]; }
    }
    forall i | 0 <= i < |d| - 1 ensures d[i] != "" {
      if i > 0 { assert d[i] == c[i - 1]; }
    }
  }

  lemma UpdatedStep(f: Parents, c: seq<string>, i: nat)
    requires i < |c|
    ensures c[..i + 1][..i] == c[..i] && ParentAt(c[..i + 1], i) == ParentAt(c, i)
  {
  }

  lemma {:induction false} StaysFailed(f: Parents, c: seq<string>, i: nat)
    requires i <= |c| && !Updated(f, c[..i]).ok
    ensures Updated(f, c) == Updated(f, c[..i])
    decreases |c|
  {
    if i < |c| {
      var d := c[..|c| - 1];
      assert d[..i] == c[..i];
      StaysFailed(f, d, i);
    } else {
      assert c[..i] == c;
    }
  }
}
