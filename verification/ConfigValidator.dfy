/** Admission of a type's switch to `Propagate`: the recursion over every tree that looks for objects
    which an ancestor's object would overwrite. */
module ConfigValidator {
  import opened Names
  import opened ParentLinks
  import opened Cycles
  import opened Objects
  import opened ForestState
  import opened NamespaceForest

  /** The object called `name` in `from` would overwrite the one in `target`. */
  datatype Conflict = Conflict(name: string, from: Name, target: Name)

  /** Object name -> the ancestors that define it. */
  type AncestorObjects = map<string, seq<Name>>

  class Validator {
    const forest: Forest
    const kind: Kind
    /** Whether the selectors of an object match the labels of a namespace. */
    const selects: (Obj, Labels) -> bool

    constructor (forest: Forest, kind: Kind, selects: (Obj, Labels) -> bool)
      ensures this.forest == forest && this.kind == kind && this.selects == selects
    {
      this.forest, this.kind, this.selects := forest, kind, selects;
    }

    ghost predicate HasSource(s: State, n: Name, o: string) {
      n in s && kind in s[n].info.sources && o in s[n].info.sources[kind]
    }

    /** The plain definition of a conflict. */
    ghost predicate IsConflict(s: State, c: Conflict) {
      && HasSource(s, c.target, c.name) && HasSource(s, c.from, c.name)
      && c.from != c.target && Reach(LinksOf(s), c.target, c.from)
      && selects(s[c.from].info.sources[kind][c.name], s[c.target].info.labels)
    }

    /** `n` is in a tree: following its parents leads to a root. */
    ghost predicate InTree(l: Links, n: Name) {
      Ancestry(l, n)[0] !in l
    }

    ghost predicate InSubtree(l: Links, n: Name, x: Name) {
      x == n || x in Descendants(l, n)
    }

    /** `ao` lists, for every object name, exactly the strict ancestors of `n` that define it. */
    ghost predicate Tabulates(ao: AncestorObjects, s: State, n: Name) {
      forall o, a {:trigger Lists(ao, o, a)} :: Lists(ao, o, a) <==>
        HasSource(s, a, o) && a != n && Reach(LinksOf(s), n, a)
    }

    ghost predicate Lists(ao: AncestorObjects, o: string, a: Name) {
      o in ao && a in ao[o]
    }

    /** `ao` lists the strict ancestors of `n` and, for the names in `done`, also `n`. */
    ghost predicate TabulatesAlso(ao: AncestorObjects, s: State, n: Name, done: set<string>) {
      forall o, a {:trigger Lists(ao, o, a)} ::
        Lists(ao, o, a) <==> HasSource(s, a, o) && Reach(LinksOf(s), n, a) && (a != n || o in done)
    }

    function Add(ao: AncestorObjects, o: string, n: Name): AncestorObjects {
      ao[o := (if o in ao then ao[o] else []) + [n]]
    }

    lemma AddLists(ao: AncestorObjects, o: string, n: Name, o': string, a: Name)
      ensures Lists(Add(ao, o, n), o', a) <==> Lists(ao, o', a) || (o' == o && a == n)
    {
      var known := if o in ao then ao[o] else [];
      assert a in known + [n] <==> a in known || a == n;
    }

    /** A child of a namespace in a tree is in the tree, one level deeper. */
    lemma ChildInTree(l: Links, n: Name, c: Name)
      requires InTree(l, n) && c in l && l[c] == n
      ensures InTree(l, c) && Ancestry(l, c) == Ancestry(l, n) + [c] && c !in Ancestry(l, n)
    {
      OnCycleIff(l, c);
      var a := Ancestry(l, c);
      if OnCycle(l, c) {
        ReachOnCycle(l, c, n) by { ReachSelf(l, n); UpFirst(l, c, 0); assert Up(l, c, 1) == Some(n); }
        AncestryTop(l, n);
        var top := Ancestry(l, n)[0];
        AncestryElements(l, n, Ancestry(l, n), top);
        ReachOnCycle(l, n, top);
        assert false;
      }
      AncestryOfParent(l, c);
      assert a == a[..|a| - 1] + [c];
      assert a[1..][|a| - 2] == c;
    }

    /** The children of `n` and their subtrees make up everything below `n`. */
    lemma SubtreeSplits(l: Links, n: Name, x: Name)
      ensures InSubtree(l, n, x) <==> x == n || exists c :: c in Children(l, n) && InSubtree(l, c, x)
    {
      forall c | c in Children(l, n) && InSubtree(l, c, x) ensures x in Descendants(l, n) {
        ChildIsDescendant(l, n, c);
      }
      if x in Descendants(l, n) {
        BelowUp(l, x, n);
        var k: nat :| k >= 1 && Up(l, x, k) == Some(n);
        var c := Up(l, x, k - 1).value;
        assert c in Children(l, n);
        assert Reach(l, x, c);
        ReachCases(l, x, c);
        assert InSubtree(l, c, x);
      }
    }

    lemma StrictAncestorsOfChild(l: Links, n: Name, c: Name, a: Name)
      requires InTree(l, n) && c in l && l[c] == n
      ensures a != c && Reach(l, c, a) <==> Reach(l, n, a)
    {
      ChildInTree(l, n, c);
      AncestryElements(l, n, Ancestry(l, n), a);
      AncestryElements(l, c, Ancestry(l, c), a);
    }

    /** The conflicts in `n` alone, for the object names in `done`. */
    ghost predicate FoundIn(found: seq<Conflict>, s: State, n: Name, done: set<string>) {
      forall c :: c in found <==> IsConflict(s, c) && c.target == n && c.name in done
    }

    lemma AddTabulates(ao: AncestorObjects, s: State, n: Name, done: set<string>, o: string)
      requires TabulatesAlso(ao, s, n, done) && HasSource(s, n, o) && o !in done
      ensures TabulatesAlso(Add(ao, o, n), s, n, done + {o})
    {
      ReachSelf(LinksOf(s), n);
      forall o', a
        ensures Lists(Add(ao, o, n), o', a) <==>
          HasSource(s, a, o') && Reach(LinksOf(s), n, a) && (a != n || o' in done + {o})
      {
        AddLists(ao, o, n, o', a);
      }
    }

    /** The objects called `o` in the ancestors that would overwrite the one in `ns`. */
    method ConflictsOver(ns: Namespace, o: string, above: seq<Name>) returns (found: seq<Conflict>)
      requires forest.Valid() && forest.Has(ns) && HasSource(forest.view, ns.name, o)
      requires forall a :: a in above <==>
        HasSource(forest.view, a, o) && a != ns.name && Reach(LinksOf(forest.view), ns.name, a)
      ensures forall c :: c in found <==> IsConflict(forest.view, c) && c.target == ns.name && c.name == o
    {
      ghost var s := forest.view;
      forest.Facts(ns);
      found := [];
      for i := 0 to |above|
        invariant forall c :: c in found <==>
          IsConflict(s, c) && c.target == ns.name && c.name == o && c.from in above[..i]
      {
        var nnm := above[i];
        assert nnm in above;
        assert forest.Linked(nnm);
        assert above[..i + 1] == above[..i] + [nnm];
        var inst := forest.namespaces[nnm].info.sources[kind][o];
        if selects(inst, ns.info.labels) {
          found := found + [Conflict(o, nnm, ns.name)];
        }
      }
      assert above[..|above|] == above;
    }

    /** The objects of `ns` itself: their conflicts, and the table extended by `ns`. */
    method CheckOwnObjects(ns: Namespace, ao: AncestorObjects) returns (conflicts: seq<Conflict>, objs: AncestorObjects)
      requires forest.Valid() && forest.Has(ns) && Tabulates(ao, forest.view, ns.name)
      ensures forall c :: c in conflicts <==> IsConflict(forest.view, c) && c.target == ns.name
      ensures forall o, a {:trigger Lists(objs, o, a)} :: Lists(objs, o, a) <==>
        HasSource(forest.view, a, o) && Reach(LinksOf(forest.view), ns.name, a)
    {
      ghost var s := forest.view;
      forest.Facts(ns);
      conflicts, objs := [], ao;
      var todo := if kind in ns.info.sources then ns.info.sources[kind].Keys else {};
      ghost var all := todo;
      assert TabulatesAlso(objs, s, ns.name, all - todo);
      while todo != {}
        invariant todo <= all
        invariant TabulatesAlso(objs, s, ns.name, all - todo)
        invariant FoundIn(conflicts, s, ns.name, all - todo)
        decreases |todo|
      {
        var o :| o in todo;
        var above := if o in objs then objs[o] else [];
        assert forall a :: a in above <==> Lists(objs, o, a);
        var found := ConflictsOver(ns, o, above);
        conflicts := conflicts + found;
        AddTabulates(objs, s, ns.name, all - todo, o);
        objs := Add(objs, o, ns.name);
        assert all - (todo - {o}) == all - todo + {o};
        todo := todo - {o};
      }
    }

    /** `checkConflictsForTree`. The recursion has no protection against cycles; it ends because it is
        only started in a tree. */
    method CheckConflictsForTree(ao: AncestorObjects, ns: Namespace) returns (conflicts: seq<Conflict>)
      requires forest.Valid() && forest.Has(ns) && InTree(forest.ParentLinks(), ns.name)
      requires Tabulates(ao, forest.view, ns.name)
      ensures forall c :: c in conflicts <==>
        IsConflict(forest.view, c) && InSubtree(forest.ParentLinks(), ns.name, c.target)
      decreases |forest.namespaces.Keys - Elems(Ancestry(forest.ParentLinks(), ns.name))|, 1
    {
      ghost var s, l := forest.view, forest.ParentLinks();
      ghost var n := ns.name;
      var objs;
      conflicts, objs := CheckOwnObjects(ns, ao);
      ghost var own := conflicts;
      forest.ChildrenAre(ns);
      var cs := forest.ChildNames(ns);
      for i := 0 to |cs|
        invariant forall c :: c in conflicts <==>
          IsConflict(s, c) && (c.target == n || exists j :: 0 <= j < i && InSubtree(l, cs[j], c.target))
      {
        assert cs[i] in Elems(cs);
        var more := CheckConflictsForChild(objs, ns, cs[i]);
        conflicts := conflicts + more;
      }
      ListedChildrenCover(l, n, cs);
    }

    /** ... for the subtree of a child `c` of `ns`. */
    method CheckConflictsForChild(objs: AncestorObjects, ns: Namespace, c: Name) returns (conflicts: seq<Conflict>)
      requires forest.Valid() && forest.Has(ns) && InTree(forest.ParentLinks(), ns.name)
      requires c in Children(forest.ParentLinks(), ns.name)
      requires forall o, a {:trigger Lists(objs, o, a)} ::
        Lists(objs, o, a) <==> HasSource(forest.view, a, o) && Reach(LinksOf(forest.view), ns.name, a)
      ensures forall x :: x in conflicts <==> IsConflict(forest.view, x) && InSubtree(forest.ParentLinks(), c, x.target)
      decreases |forest.namespaces.Keys - Elems(Ancestry(forest.ParentLinks(), ns.name))|, 0
    {
      ghost var s, l := forest.view, forest.ParentLinks();
      forest.ChildrenAre(ns);
      assert forest.Linked(c);
      ChildInTree(l, ns.name, c);
      TableForChild(objs, s, ns.name, c);
      OneDeeper(forest.namespaces.Keys, Ancestry(l, ns.name), c);
      conflicts := CheckConflictsForTree(objs, forest.namespaces[c]);
    }

    lemma ListedChildrenCover(l: Links, n: Name, cs: seq<Name>)
      requires Elems(cs) == Children(l, n)
      ensures forall x :: InSubtree(l, n, x) <==> x == n || exists j :: 0 <= j < |cs| && InSubtree(l, cs[j], x)
    {
      forall x ensures InSubtree(l, n, x) <==> x == n || exists j :: 0 <= j < |cs| && InSubtree(l, cs[j], x) {
        SubtreeSplits(l, n, x);
        if c :| c in Children(l, n) && InSubtree(l, c, x) {
          assert c in Elems(cs);
          var j :| 0 <= j < |cs| && cs[j] == c;
        }
        if j :| 0 <= j < |cs| && InSubtree(l, cs[j], x) {
          assert cs[j] in Elems(cs);
        }
      }
    }

    lemma TableForChild(objs: AncestorObjects, s: State, n: Name, c: Name)
      requires InTree(LinksOf(s), n) && c in LinksOf(s) && LinksOf(s)[c] == n
      requires forall o, a {:trigger Lists(objs, o, a)} :: Lists(objs, o, a) <==>
        HasSource(s, a, o) && Reach(LinksOf(s), n, a)
      ensures Tabulates(objs, s, c)
    {
      forall o, a ensures Lists(objs, o, a) <==> HasSource(s, a, o) && a != c && Reach(LinksOf(s), c, a) {
        StrictAncestorsOfChild(LinksOf(s), n, c, a);
      }
    }

    lemma OneDeeper(keys: set<Name>, a: seq<Name>, c: Name)
      requires c in keys && c !in a
      ensures |keys - Elems(a + [c])| < |keys - Elems(a)|
    {
      assert Elems(a + [c]) == Elems(a) + {c};
      SubsetSmaller(keys - Elems(a + [c]), keys - Elems(a));
    }

    /** `checkConflictsForGVK`: the search over all trees finds exactly the conflicts of the plain
        definition whose target is in a tree, even if there are cycles elsewhere. */
    method CheckConflictsForKind() returns (conflicts: seq<Conflict>)
      requires forest.Valid()
      ensures forall c :: c in conflicts <==> IsConflict(forest.view, c) && InTree(forest.ParentLinks(), c.target)
    {
      ghost var s, l := forest.view, forest.ParentLinks();
      conflicts := [];
      var todo := forest.namespaces.Keys;
      ghost var done: set<Name> := {};
      while todo != {}
        invariant todo <= forest.namespaces.Keys && done == forest.namespaces.Keys - todo
        invariant forall c :: c in conflicts <==>
          IsConflict(s, c) && exists r :: r in done && r !in l && InSubtree(l, r, c.target)
        decreases |todo|
      {
        var nm :| nm in todo;
        todo := todo - {nm};
        done := done + {nm};
        assert forest.Linked(nm);
        var ns := forest.namespaces[nm];
        forest.LinkOf(ns);
        if ns.parent == null {
          RootTable(s, nm);
          var more := CheckConflictsForTree(map[], ns);
          conflicts := conflicts + more;
        }
      }
      forall c | IsConflict(s, c)
        ensures InTree(l, c.target) <==> exists r :: r in done && r !in l && InSubtree(l, r, c.target)
      {
        UnderRoot(c.target);
      }
    }

    lemma RootTable(s: State, n: Name)
      requires n !in LinksOf(s)
      ensures Tabulates(map[], s, n) && InTree(LinksOf(s), n)
    {
      forall a ensures Reach(LinksOf(s), n, a) ==> a == n { ReachCases(LinksOf(s), n, a); }
      assert Ancestry(LinksOf(s), n) == [n] by { AncestryIs(LinksOf(s), n, [n]); }
    }

    lemma UnderRoot(x: Name)
      requires forest.Valid() && x in forest.view
      ensures InTree(forest.ParentLinks(), x) <==>
        exists r :: r in forest.namespaces.Keys && r !in forest.ParentLinks() && InSubtree(forest.ParentLinks(), r, x)
    {
      var l := forest.ParentLinks();
      var a := Ancestry(l, x);
      forest.ViewClosed();
      AncestryElements(l, x, a, a[0]);
      if InTree(l, x) {
        ReachCases(l, x, a[0]);
        var k: nat :| Up(l, x, k) == Some(a[0]);
        WalkStaysIn(forest.view, x, k);
      }
      if r :| r in forest.namespaces.Keys && r !in l && InSubtree(l, r, x) {
        ReachCases(l, x, r);
        ReachLinear(l, x, r, a[0]);
        ReachCases(l, r, a[0]);
        if a[0] in l {
          AncestryTop(l, x);
          ReachOnCycle(l, a[0], r);
        }
      }
    }
  }
}
