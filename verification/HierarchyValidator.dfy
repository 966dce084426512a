/** Admission of a parent change: the structural checks, the search for objects that would be
    overwritten, and the namespaces the user must administer. */
module HierarchyValidator {
  import opened Names
  import opened ParentLinks
  import opened Cycles
  import opened Objects
  import opened ForestState
  import opened NamespaceForest

  datatype Mode = Propagate | Remove | Ignore

  /** A type known to HNC and how its objects are synchronized. */
  datatype TypeSync = TypeSync(kind: Kind, mode: Mode)

  datatype Response = Allowed | Denied(reason: DenyReason)
  datatype DenyReason = ExternalChild | SubnamespaceMoved | NoSuchParent | WouldCycle | WouldOverwrite

  ghost predicate Propagated(types: seq<TypeSync>, k: Kind) {
    TypeSync(k, Propagate) in types
  }

  /** The names of the source objects of type `k` in namespace `n`. */
  function SourceNames(info: Info, k: Kind): set<string> {
    if k in info.sources then info.sources[k].Keys else {}
  }

  ghost function SourcesOf(s: State, n: Name, k: Kind): set<string> {
    if n in s then SourceNames(s[n].info, k) else {}
  }

  /** No source of a propagated type shares its name with a source in a strict ancestor. */
  ghost predicate NoOverwrites(s: State, types: seq<TypeSync>) {
    forall x, a, k {:trigger Overwrites(s, types, x, a, k)} :: !Overwrites(s, types, x, a, k)
  }

  ghost predicate Overwrites(s: State, types: seq<TypeSync>, x: Name, a: Name, k: Kind) {
    && Propagated(types, k) && x != a && Reach(LinksOf(s), x, a)
    && SourcesOf(s, x, k) * SourcesOf(s, a, k) != {}
  }

  /** A source at or below `n` shares its name with a source at or above `p`. */
  ghost predicate Conflicting(s: State, n: Name, p: Name, k: Kind) {
    exists x, a {:trigger ConflictBetween(s, n, p, k, x, a)} :: ConflictBetween(s, n, p, k, x, a)
  }

  ghost predicate ConflictBetween(s: State, n: Name, p: Name, k: Kind, x: Name, a: Name) {
    && (x == n || x in Descendants(LinksOf(s), n)) && Reach(LinksOf(s), p, a)
    && SourcesOf(s, x, k) * SourcesOf(s, a, k) != {}
  }

  /** A namespace at or above `p` has a source called `o`. */
  ghost predicate OfferedAbove(s: State, p: Name, k: Kind, o: string) {
    exists a {:trigger Reach(LinksOf(s), p, a)} :: Reach(LinksOf(s), p, a) && o in SourcesOf(s, a, k)
  }

  /** When a parent change is approved. */
  ghost predicate Approved(s: State, types: seq<TypeSync>, n: Name, p: Option<Name>)
    requires n in s && (p.Some? ==> p.value in s)
  {
    && (s[n].info.external.Keys != {} ==> p.None?)
    && (p == s[n].parent ||
          (&& !s[n].info.isSub
           && (p.Some? ==>
                 && s[p.value].info.present
                 && !OnCycle(LinksOf(s)[n := p.value], n)
                 && forall k | Propagated(types, k) :: !Conflicting(s, n, p.value, k))))
  }

  /** An approved change keeps the forest free of overwrites, throughout the moved subtree. */
  lemma ApprovedKeepsNoOverwrites(s: State, types: seq<TypeSync>, n: Name, p: Option<Name>)
    requires n in s && WellFormed(s) && (p.Some? ==> p.value in s)
    requires NoOverwrites(s, types) && p != s[n].parent && Approved(s, types, n, p)
    ensures NoOverwrites(Reparent(s, n, p), types)
  {
    forall x, a, k ensures !Overwrites(Reparent(s, n, p), types, x, a, k) {
      if Overwrites(Reparent(s, n, p), types, x, a, k) && !Overwrites(s, types, x, a, k) {
        NewOverwriteConflicts(s, types, n, p, x, a, k);
      }
    }
  }

  /** An overwrite that a legal change of structure adds is one that the search finds. */
  lemma NewOverwriteConflicts(s: State, types: seq<TypeSync>, n: Name, p: Option<Name>, x: Name, a: Name, k: Kind)
    requires n in s && WellFormed(s) && (p.Some? ==> p.value in s && !OnCycle(LinksOf(s)[n := p.value], n))
    requires Overwrites(Reparent(s, n, p), types, x, a, k) && !Overwrites(s, types, x, a, k)
    ensures p.Some? && Propagated(types, k) && Conflicting(s, n, p.value, k)
  {
    var t := Reparent(s, n, p);
    ReparentLinks(s, n, p);
    assert SourcesOf(t, x, k) <= SourcesOf(s, x, k) && SourcesOf(t, a, k) <= SourcesOf(s, a, k);
    NewAncestor(LinksOf(s), LinksOf(t), n, p, x, a);
    assert ConflictBetween(s, n, p.value, k, x, a);
  }

  /** A new ancestor of `x` is at or above the new parent, and `x` is in the moved subtree. */
  lemma NewAncestor(l: Links, m: Links, n: Name, p: Option<Name>, x: Name, a: Name)
    requires m == if p.Some? then l[n := p.value] else l - {n}
    requires p.Some? ==> !OnCycle(m, n)
    requires Reach(m, x, a) && !Reach(l, x, a)
    ensures p.Some? && (x == n || x in Descendants(l, n)) && Reach(l, p.value, a)
  {
    var k: nat :| Up(m, x, k) == Some(a);
    ReachIgnoresOwnLink(l, m, n, x);
    if !Reach(l, x, n) {
      UpUnchanged(l, m, n, x, k);
      assert false;
    }
    ReachCases(l, x, n);
    var j: nat :| Up(m, x, j) == Some(n);
    if k <= j {
      UpAdd(m, x, k, j - k);
      assert Reach(m, a, n);
      ReachLinear(m, x, a, n);
      BeforeMoved(l, m, n, x, a, k);
    } else {
      UpAdd(m, x, j, k - j);
      UpFirst(m, n, k - j - 1);
      assert p.Some? && Up(m, p.value, k - j - 1) == Some(a);
      CycleMadeIff(l, n, p.value);
      UpUnchanged(l, m, n, p.value, k - j - 1);
    }
  }

  /** Up to the moved namespace nothing has changed. */
  lemma {:induction false} BeforeMoved(l: Links, m: Links, n: Name, x: Name, a: Name, k: nat)
    requires SameOff(l, m, n) && Up(m, x, k) == Some(a) && Reach(m, a, n) && !OnCycle(m, n)
    ensures Up(l, x, k) == Some(a)
    decreases k
  {
    if k > 0 {
      var b := Up(m, x, k - 1).value;
      assert Up(m, b, 0) == Some(b);
      UpFirst(m, b, 0);
      var j: nat :| Up(m, a, j) == Some(n);
      UpFirst(m, b, j);
      assert Reach(m, b, n);
      assert b != n;
      BeforeMoved(l, m, n, x, b, k - 1);
    }
  }

  // ----- Runs of approved changes -----

  datatype Change = Change(n: Name, p: Option<Name>)

  /** The request is for a synced namespace, names known namespaces and is approved (`checkNS`,
      `checkParent`). */
  ghost predicate Admitted(s: State, types: seq<TypeSync>, c: Change) {
    && c.n in s && s[c.n].info.present && (c.p.Some? ==> c.p.value in s)
    && Approved(s, types, c.n, c.p)
  }

  ghost function Applied(s: State, c: Change): State
    requires c.n in s && MissingAreRoots(s)
  {
    if c.p == s[c.n].parent then s else Reparent(s, c.n, c.p)
  }

  lemma AppliedWellFormed(s: State, c: Change)
    requires WellFormed(s) && c.n in s && s[c.n].info.present && (c.p.Some? ==> c.p.value in s)
    ensures WellFormed(Applied(s, c))
  {
    if c.p != s[c.n].parent { ReparentClosedIff(s, c.n, c.p); }
  }

  ghost predicate AdmittedRun(s: State, types: seq<TypeSync>, cs: seq<Change>)
    requires WellFormed(s)
    decreases |cs|
  {
    cs == [] || (Admitted(s, types, cs[0])
      && (AppliedWellFormed(s, cs[0]); AdmittedRun(Applied(s, cs[0]), types, cs[1..])))
  }

  ghost function AfterRun(s: State, types: seq<TypeSync>, cs: seq<Change>): State
    requires WellFormed(s) && AdmittedRun(s, types, cs)
    decreases |cs|
  {
    if cs == [] then s else (AppliedWellFormed(s, cs[0]); AfterRun(Applied(s, cs[0]), types, cs[1..]))
  }

  /** A run of admitted changes keeps the forest free of cycles and of overwrites. */
  lemma {:induction false} AdmittedRunIsSafe(s: State, types: seq<TypeSync>, cs: seq<Change>)
    requires WellFormed(s) && AdmittedRun(s, types, cs)
    requires Acyclic(LinksOf(s)) && NoOverwrites(s, types)
    ensures Acyclic(LinksOf(AfterRun(s, types, cs))) && NoOverwrites(AfterRun(s, types, cs), types)
    decreases |cs|
  {
    if cs != [] {
      var c := cs[0];
      AppliedWellFormed(s, c);
      if c.p != s[c.n].parent {
        ApprovedKeepsNoOverwrites(s, types, c.n, c.p);
        ApprovedKeepsAcyclic(s, types, c.n, c.p);
      }
      AdmittedRunIsSafe(Applied(s, c), types, cs[1..]);
    }
  }

  lemma ApprovedKeepsAcyclic(s: State, types: seq<TypeSync>, n: Name, p: Option<Name>)
    requires n in s && WellFormed(s) && (p.Some? ==> p.value in s)
    requires p != s[n].parent && Approved(s, types, n, p) && Acyclic(LinksOf(s))
    ensures Acyclic(LinksOf(Reparent(s, n, p)))
  {
    ReparentLinks(s, n, p);
    var m := LinksOf(Reparent(s, n, p));
    forall c ensures !OnCycle(m, c) {
      if OnCycle(m, c) { CycleThroughOrBefore(LinksOf(s), m, n, c); }
    }
  }

  // ----- What admission protects -----

  /** A source of type `k` called `o` is recorded for `n`. */
  ghost predicate HasObject(s: State, n: Name, k: Kind, o: string) {
    n in s && k in s[n].info.sources && o in s[n].info.sources[k]
  }

  /** Nothing is overwritten exactly if no object of a type in propagate mode has the name of one further up. */
  lemma NoOverwritesIff(s: State, types: seq<TypeSync>)
    ensures NoOverwrites(s, types) <==> forall x, a, k, o | HasObject(s, x, k, o) && HasObject(s, a, k, o) ::
      x != a && Reach(LinksOf(s), x, a) ==> TypeSync(k, Propagate) !in types
  {
    if NoOverwrites(s, types) {
      forall x, a, k, o | HasObject(s, x, k, o) && HasObject(s, a, k, o) && x != a && Reach(LinksOf(s), x, a)
        ensures TypeSync(k, Propagate) !in types
      {
        assert o in SourcesOf(s, x, k) * SourcesOf(s, a, k);
        assert !Overwrites(s, types, x, a, k);
      }
    } else {
      var x, a, k :| Overwrites(s, types, x, a, k);
      var o :| o in SourcesOf(s, x, k) * SourcesOf(s, a, k);
      assert HasObject(s, x, k, o) && HasObject(s, a, k, o);
    }
  }

  /** From `s` to `t` only parents have changed and entries without use have gone; no subnamespace and no external
      namespace has got another parent, and every new parent is known. */
  ghost predicate LegallyMoved(s: State, t: State) {
    forall n | n in t ::
      && n in s && t[n].info == s[n].info
      && (t[n].parent != s[n].parent ==>
            && !s[n].info.isSub
            && (t[n].parent.Some? ==> s[n].info.external == map[] && KnownIn(s, t[n].parent.value)))
  }

  ghost predicate KnownIn(s: State, n: Name) {
    n in s && s[n].info.present
  }

  lemma AdmittedMovesLegally(s: State, types: seq<TypeSync>, c: Change)
    requires WellFormed(s) && Admitted(s, types, c)
    ensures LegallyMoved(s, Applied(s, c))
  {
  }

  lemma LegalMovesCompose(s: State, t: State, u: State)
    requires LegallyMoved(s, t) && LegallyMoved(t, u)
    ensures LegallyMoved(s, u)
  {
  }

  /** In every run of admitted changes. */
  lemma {:induction false} AdmittedRunMovesLegally(s: State, types: seq<TypeSync>, cs: seq<Change>)
    requires WellFormed(s) && AdmittedRun(s, types, cs)
    ensures LegallyMoved(s, AfterRun(s, types, cs))
    decreases |cs|
  {
    if cs != [] {
      AppliedWellFormed(s, cs[0]);
      AdmittedMovesLegally(s, types, cs[0]);
      AdmittedRunMovesLegally(Applied(s, cs[0]), types, cs[1..]);
      LegalMovesCompose(s, Applied(s, cs[0]), AfterRun(s, types, cs));
    }
  }

  /** The reason for a denial is true. */
  ghost predicate IsTrue(s: State, types: seq<TypeSync>, n: Name, p: Option<Name>, reason: DenyReason)
    requires n in s && (p.Some? ==> p.value in s)
  {
    match reason
    case ExternalChild => s[n].info.external != map[] && p.Some?
    case SubnamespaceMoved => s[n].info.isSub && p != s[n].parent
    case NoSuchParent => p.Some? && !s[p.value].info.present
    case WouldCycle => p.Some? && OnCycle(LinksOf(s)[n := p.value], n)
    case WouldOverwrite => p.Some? && exists x, a, k, o :: MeetsAbove(s, types, n, p.value, x, a, k, o)
  }

  /** `x`, at or below `n`, and `a`, at or above `p`, have an object of the same name, of a type in propagate mode. */
  ghost predicate MeetsAbove(s: State, types: seq<TypeSync>, n: Name, p: Name, x: Name, a: Name, k: Kind, o: string) {
    && TypeSync(k, Propagate) in types && Reach(LinksOf(s), x, n) && Reach(LinksOf(s), p, a)
    && HasObject(s, x, k, o) && HasObject(s, a, k, o)
  }

  lemma ConflictMeets(s: State, types: seq<TypeSync>, n: Name, p: Name, k: Kind)
    requires Propagated(types, k) && Conflicting(s, n, p, k)
    ensures exists x, a, o :: MeetsAbove(s, types, n, p, x, a, k, o)
  {
    var x, a :| ConflictBetween(s, n, p, k, x, a);
    var o :| o in SourcesOf(s, x, k) * SourcesOf(s, a, k);
    ReachCases(LinksOf(s), x, n);
    assert MeetsAbove(s, types, n, p, x, a, k, o);
  }

  /** Comparing the sources of the moved subtree with the names offered above finds every conflict. */
  lemma ConflictFound(s: State, n: Name, p: Name, k: Kind, names: set<string>, subtree: seq<Name>)
    requires forall o :: o in names <==> OfferedAbove(s, p, k, o)
    requires forall x :: x in subtree <==> x == n || x in Descendants(LinksOf(s), n)
    ensures (exists j :: 0 <= j < |subtree| && SourcesOf(s, subtree[j], k) * names != {}) <==> Conflicting(s, n, p, k)
  {
    forall j | 0 <= j < |subtree| && SourcesOf(s, subtree[j], k) * names != {} ensures Conflicting(s, n, p, k) {
      var o :| o in SourcesOf(s, subtree[j], k) * names;
      var a :| Reach(LinksOf(s), p, a) && o in SourcesOf(s, a, k);
      assert o in SourcesOf(s, subtree[j], k) * SourcesOf(s, a, k);
      assert ConflictBetween(s, n, p, k, subtree[j], a);
    }
    if Conflicting(s, n, p, k) {
      var x, a :| ConflictBetween(s, n, p, k, x, a);
      var o :| o in SourcesOf(s, x, k) * SourcesOf(s, a, k);
      assert o in names;
      assert x in subtree;
      var j :| 0 <= j < |subtree| && subtree[j] == x;
      assert o in SourcesOf(s, subtree[j], k) * names;
    }
  }

  datatype CheckType = CheckAuthz | CheckMissing
  datatype ServerCheck = ServerCheck(nnm: Name, checkType: CheckType)

  /** `m` is the deepest namespace at or above both `x` and `y`. */
  ghost predicate IsMostRecentCommon(l: Links, x: Name, y: Name, m: Name) {
    && Reach(l, x, m) && Reach(l, y, m)
    && forall c | Reach(l, x, c) && Reach(l, y, c) :: Reach(l, m, c)
  }

  /** `m` is where two lists part that start alike. */
  ghost predicate PartsAfter(a: seq<Name>, b: seq<Name>, m: Name) {
    exists i: nat :: i < |a| && i < |b| && a[..i + 1] == b[..i + 1] && a[i] == m
      && (i + 1 < |a| && i + 1 < |b| ==> a[i + 1] != b[i + 1])
  }

  /** The last element that two ancestries have in common is the most recent common ancestor. */
  lemma CommonPrefixIsMrca(l: Links, x: Name, y: Name, i: nat)
    requires var a, b := Ancestry(l, x), Ancestry(l, y);
      && a[0] !in l && i < |a| && i < |b| && a[..i + 1] == b[..i + 1]
      && (i + 1 < |a| && i + 1 < |b| ==> a[i + 1] != b[i + 1])
    ensures IsMostRecentCommon(l, x, y, Ancestry(l, x)[i])
  {
    var a, b := Ancestry(l, x), Ancestry(l, y);
    assert a[i] == b[i] && a[0] == b[0] by {
      assert a[i] == a[..i + 1][i] && b[i] == b[..i + 1][i];
      assert a[0] == a[..i + 1][0] && b[0] == b[..i + 1][0];
    }
    AncestryElements(l, x, a, a[i]);
    AncestryElements(l, y, b, b[i]);
    forall c | Reach(l, x, c) && Reach(l, y, c) ensures Reach(l, a[i], c) {
      AncestryElements(l, x, a, c);
      AncestryElements(l, y, b, c);
      var j :| 0 <= j < |a| && a[j] == c;
      var k :| 0 <= k < |b| && b[k] == c;
      AncestryPrefix(l, x, j);
      AncestryPrefix(l, y, k);
      assert a[..j + 1] == b[..k + 1];
      assert j == k;
      forall t | 0 <= t <= j ensures a[t] == b[t] {
        assert a[t] == a[..j + 1][t] && b[t] == b[..j + 1][t];
      }
      assert j <= i;
      AncestryPrefix(l, x, i);
      assert a[..i + 1][j] == c;
      AncestryElements(l, a[i], Ancestry(l, a[i]), c);
    }
  }

  class Validator {
    const forest: Forest
    const types: seq<TypeSync>

    constructor (forest: Forest, types: seq<TypeSync>)
      ensures this.forest == forest && this.types == types
    {
      this.forest, this.types := forest, types;
    }

    /** `GetAncestorSourceObjects` without a name, reduced to the names of the objects. */
    method AncestorSourceNames(ns: Namespace?, k: Kind) returns (names: set<string>)
      requires forest.Valid() && (ns != null ==> forest.Has(ns))
      ensures forall o :: o in names <==> (ns != null && OfferedAbove(forest.view, ns.name, k, o))
    {
      names := {};
      if ns == null {
        return;
      }
      var ans := forest.AncestryNames(ns);
      for i := 0 to |ans|
        invariant forall o :: o in names <==> exists j :: 0 <= j < i && o in SourcesOf(forest.view, ans[j], k)
      {
        AncestryElements(forest.ParentLinks(), ns.name, ans, ans[i]);
        var sources := {};
        AncestorRegistered(ns, ans[i]);
        sources := SourceNames(forest.namespaces[ans[i]].info, k);
        names := names + sources;
      }
      forall o ensures o in names <==> OfferedAbove(forest.view, ns.name, k, o) {
        if o in names {
          var j :| 0 <= j < |ans| && o in SourcesOf(forest.view, ans[j], k);
          AncestryElements(forest.ParentLinks(), ns.name, ans, ans[j]);
        }
        if a :| Reach(forest.ParentLinks(), ns.name, a) && o in SourcesOf(forest.view, a, k) {
          AncestryElements(forest.ParentLinks(), ns.name, ans, a);
        }
      }
    }

    lemma AncestorRegistered(ns: Namespace, a: Name)
      requires forest.Valid() && forest.Has(ns) && Reach(forest.ParentLinks(), ns.name, a)
      ensures a in forest.namespaces && forest.namespaces[a] in forest.Repr
      ensures a in forest.view && forest.view[a].info == forest.namespaces[a].info
    {
      forest.ViewClosed();
      forest.Facts(ns);
      var k: nat :| Up(forest.ParentLinks(), ns.name, k) == Some(a);
      WalkStaysIn(forest.view, ns.name, k);
      assert forest.Linked(a);
    }

    /** `getConflictingObjectsOfType`: whether the list of conflicts is not empty. */
    method HasConflictOfType(k: Kind, newParent: Namespace, ns: Namespace) returns (found: bool)
      requires forest.Valid() && forest.Has(ns) && forest.Has(newParent)
      ensures found <==> Conflicting(forest.view, ns.name, newParent.name, k)
    {
      ghost var s := forest.view;
      var names := AncestorSourceNames(newParent, k);
      var dnses := forest.DescendantNames(ns);
      ghost var ds := dnses;
      dnses := dnses + [ns.name];
      forall x ensures x in dnses <==> x == ns.name || x in Descendants(LinksOf(s), ns.name) {
        assert x in ds <==> x in Elems(ds);
      }
      found := false;
      forest.Facts(ns);
      for i := 0 to |dnses|
        invariant found <==> exists j :: 0 <= j < i && SourcesOf(s, dnses[j], k) * names != {}
      {
        assert dnses[i] in dnses;
        assert forest.Linked(dnses[i]);
        if SourceNames(forest.namespaces[dnses[i]].info, k) * names != {} {
          found := true;
        }
      }
      ConflictFound(s, ns.name, newParent.name, k, names, dnses);
    }

    /** `getConflictingObjects`: the conflicts over all types in `Propagate` mode. */
    method HasConflict(newParent: Namespace?, ns: Namespace) returns (found: bool)
      requires forest.Valid() && forest.Has(ns) && (newParent != null ==> forest.Has(newParent))
      ensures found <==>
        (newParent != null && exists k :: Propagated(types, k) && Conflicting(forest.view, ns.name, newParent.name, k))
    {
      if newParent == null {
        return false;
      }
      found := false;
      for i := 0 to |types|
        invariant found <==> exists j ::
          0 <= j < i && types[j].mode == Propagate && Conflicting(forest.view, ns.name, newParent.name, types[j].kind)
      {
        if types[i].mode == Propagate {
          var f := HasConflictOfType(types[i].kind, newParent, ns);
          found := found || f;
        }
      }
      if found {
        ghost var j :| 0 <= j < |types| && types[j].mode == Propagate
          && Conflicting(forest.view, ns.name, newParent.name, types[j].kind);
        assert types[j] == TypeSync(types[j].kind, Propagate);
        assert Propagated(types, types[j].kind);
      }
    }

    /** `checkParent`. */
    method CheckParent(ns: Namespace, newParent: Namespace?) returns (r: Response)
      requires forest.Valid() && forest.Has(ns) && (newParent != null ==> forest.Has(newParent))
      ensures ns.name in forest.view && (newParent != null ==> newParent.name in forest.view)
      ensures r.Allowed? <==> Approved(forest.view, types, ns.name, NameOf(newParent))
      ensures r.Denied? ==> IsTrue(forest.view, types, ns.name, NameOf(newParent), r.reason)
    {
      forest.Facts(ns);
      if newParent != null { forest.Facts(newParent); }
      if ns.IsExternal() && newParent != null {
        return Denied(ExternalChild);
      }
      if ns.parent == newParent {
        return Allowed;
      }
      if ns.info.isSub {
        return Denied(SubnamespaceMoved);
      }
      if newParent != null && !newParent.info.present {
        return Denied(NoSuchParent);
      }
      var ok := forest.CanSetParent(ns, newParent);
      if !ok {
        return Denied(WouldCycle);
      }
      var conflict := HasConflict(newParent, ns);
      if conflict {
        ghost var k :| Propagated(types, k) && Conflicting(forest.view, ns.name, newParent.name, k);
        ConflictMeets(forest.view, types, ns.name, newParent.name, k);
        return Denied(WouldOverwrite);
      }
      return Allowed;
    }

    /** `getServerChecks`. If the old and the new parent share a root, and the tree has one, the one
        namespace to check is their most recent common ancestor. */
    method GetServerChecks(ns: Namespace, curParent: Namespace?, newParent: Namespace?) returns (r: seq<ServerCheck>)
      requires forest.Valid() && forest.Has(ns)
      requires (curParent != null ==> forest.Has(curParent)) && (newParent != null ==> forest.Has(newParent))
      ensures curParent == newParent <==> r == []
      ensures curParent == null && newParent != null ==> r == [ServerCheck(newParent.name, CheckAuthz)]
      ensures curParent != null && curParent != newParent && !curParent.info.present ==>
        r == [ServerCheck(curParent.name, CheckMissing)]
      ensures curParent != null && curParent.info.present && newParent == null ==>
        r == [ServerCheck(Ancestry(forest.ParentLinks(), curParent.name)[0], CheckAuthz)]
      ensures curParent != null && newParent != null && curParent != newParent && curParent.info.present ==>
        var l := forest.ParentLinks();
        var root := Ancestry(l, curParent.name)[0];
        if root != Ancestry(l, newParent.name)[0] then
          r == [ServerCheck(root, CheckAuthz), ServerCheck(newParent.name, CheckAuthz)]
        else
          && |r| == 1 && r[0].checkType == CheckAuthz
          && PartsAfter(Ancestry(l, curParent.name), Ancestry(l, newParent.name), r[0].nnm)
          && (root !in l ==> IsMostRecentCommon(l, curParent.name, newParent.name, r[0].nnm))
    {
      if curParent == newParent {
        return [];
      }
      if curParent == null {
        return [ServerCheck(newParent.name, CheckAuthz)];
      }
      if !curParent.info.present {
        return [ServerCheck(curParent.name, CheckMissing)];
      }
      var curChain := forest.AncestryNames(curParent);
      if newParent == null {
        return [ServerCheck(curChain[0], CheckAuthz)];
      }
      var newChain := forest.AncestryNames(newParent);
      if curChain[0] != newChain[0] {
        return [ServerCheck(curChain[0], CheckAuthz), ServerCheck(newParent.name, CheckAuthz)];
      }
      var mrca := MostRecentCommonAncestor(curParent, newParent, curChain, newChain);
      return [ServerCheck(mrca, CheckAuthz)];
    }

    /** The loop at the end of `getServerChecks`: the last of the names that both chains start with. */
    method MostRecentCommonAncestor(curParent: Namespace, newParent: Namespace, curChain: seq<Name>,
      newChain: seq<Name>)
      returns (mrca: Name)
      requires forest.Valid() && forest.Has(curParent) && forest.Has(newParent)
      requires curChain == Ancestry(forest.ParentLinks(), curParent.name)
      requires newChain == Ancestry(forest.ParentLinks(), newParent.name)
      requires |curChain| > 0 && |newChain| > 0 && curChain[0] == newChain[0]
      ensures PartsAfter(curChain, newChain, mrca)
      ensures curChain[0] !in forest.ParentLinks() ==>
        IsMostRecentCommon(forest.ParentLinks(), curParent.name, newParent.name, mrca)
    {
      mrca := curChain[0];
      var i := 1;
      while i < |curChain| && i < |newChain|
        invariant 1 <= i <= |curChain| && i <= |newChain|
        invariant curChain[..i] == newChain[..i] && mrca == curChain[i - 1]
      {
        if curChain[i] != newChain[i] {
          break;
        }
        mrca := curChain[i];
        i := i + 1;
      }
      assert curChain[..i - 1 + 1] == newChain[..i - 1 + 1];
      if curChain[0] !in forest.ParentLinks() {
        CommonPrefixIsMrca(forest.ParentLinks(), curParent.name, newParent.name, i - 1);
      }
    }
  }
}
