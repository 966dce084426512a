/** The in-memory forest: a heap graph of namespaces with parent references and mirrored children
    maps. Every method is proved against the name-level view of `ForestState`. */
module NamespaceForest {
  import opened Names
  import opened ParentLinks
  import opened Objects
  import opened Cycles
  import opened ForestState

  class Namespace {
    const name: Name
    var parent: Namespace?
    var children: set<Name>
    var info: Info

    constructor (nm: Name)
      ensures name == nm && parent == null && children == {} && Abs() == EMPTY
    {
      name, parent, children, info := nm, null, {}, BLANK;
    }

    ghost function Abs(): Node
      reads this
    {
      Node(NameOf(parent), info)
    }

    predicate IsExternal()
      reads this
    {
      |info.external| > 0
    }

    /** Any condition that halts activities, other than one inherited from an ancestor. */
    method HasLocalCritCondition() returns (r: bool)
      ensures r == HasCrit(info.conditions)
    {
      for i := 0 to |info.conditions|
        invariant forall j | 0 <= j < i :: !IsCrit(info.conditions[j])
      {
        if info.conditions[i].tp == ActivitiesHalted && info.conditions[i].reason != AncestorHaltActivities {
          return true;
        }
      }
      return false;
    }
  }

  ghost function NameOf(ns: Namespace?): Option<Name> { if ns == null then None else Some(ns.name) }
  ghost function Opt(ns: Namespace?): set<Namespace> { if ns == null then {} else {ns} }

  class Forest {
    var namespaces: map<Name, Namespace>
    /** Every namespace object this forest has made; only those in `namespaces` are registered. */
    ghost var Repr: set<Namespace>
    /** The name-level view of the registered namespaces. */
    ghost var view: State

    constructor ()
      ensures Valid() && view == map[] && Repr == {}
    {
      namespaces := map[];
      Repr, view := {}, map[];
    }

    /** `ns` is the object registered under its name. */
    ghost predicate Has(ns: Namespace)
      reads this
    {
      ns in Repr && ns.name in namespaces && namespaces[ns.name] == ns
    }

    /** The entry `nm` is filed under its own name, its parent is registered and lists it as a child,
        and its children are registered and point back to it. */
    ghost predicate Linked(nm: Name)
      requires nm in namespaces
      reads this, Repr
    {
      Filed(nm) && ParentLinked(nm) && forall c {:trigger ChildLinked(nm, c)} | c in namespaces[nm].children ::
        ChildLinked(nm, c)
    }

    ghost predicate Filed(nm: Name)
      requires nm in namespaces
      reads this, Repr
    {
      var ns := namespaces[nm];
      ns.name == nm && ns in Repr && nm in view && view[nm] == ns.Abs()
    }

    ghost predicate ParentLinked(nm: Name)
      requires nm in namespaces
      reads this, Repr
    {
      var ns := namespaces[nm];
      ns in Repr && (ns.parent != null ==> Has(ns.parent) && nm in ns.parent.children)
    }

    ghost predicate ChildLinked(nm: Name, c: Name)
      requires nm in namespaces
      reads this, Repr
    {
      c in namespaces && namespaces[c] in Repr && namespaces[c].parent == namespaces[nm]
    }

    ghost predicate Valid()
      reads this, Repr
    {
      NO_NAME !in namespaces && view.Keys == namespaces.Keys && forall nm {:trigger Linked(nm)} | nm in namespaces ::
        Linked(nm)
    }

    /** `Get`: the namespace with this name, made on demand. */
    method Get(nm: Name) returns (ns: Namespace?)
      requires Valid()
      modifies this
      ensures Valid() && view == Touch(old(view), nm)
      ensures nm == NO_NAME <==> ns == null
      ensures ns != null ==> ns.name == nm && Has(ns)
      ensures forall x | x in old(namespaces) :: x in namespaces && namespaces[x] == old(namespaces[x])
      ensures Repr >= old(Repr) && fresh(Repr - old(Repr))
    {
      if nm == NO_NAME {
        return null;
      }
      if nm in namespaces {
        assert Linked(nm);
        return namespaces[nm];
      }
      ns := new Namespace(nm);
      namespaces := namespaces[nm := ns];
      Repr := Repr + {ns};
      view := view[nm := EMPTY];
      forall x, c | x in namespaces && c in namespaces[x].children ensures ChildLinked(x, c) {
        assert old(Linked(x) && ChildLinked(x, c));
      }
      forall x | x in namespaces ensures Linked(x) {
        assert x != nm ==> old(Linked(x));
      }
    }

    lemma Facts(ns: Namespace)
      requires Valid() && Has(ns)
      ensures ns.name in view && view[ns.name] == ns.Abs()
      ensures ns.parent != null ==> Has(ns.parent) && ns.name in ns.parent.children
      ensures ns.children == ChildrenOf(view, ns.name)
    {
      assert Linked(ns.name);
      forall c | c in view ensures c in ns.children <==> c in ChildrenOf(view, ns.name) {
        assert Linked(c);
        if c in ns.children { assert ChildLinked(ns.name, c); }
      }
      forall c | c in ns.children ensures c in view { assert ChildLinked(ns.name, c); }
    }

    lemma ViewClosed()
      requires Valid()
      ensures Closed(view)
    {
      forall nm | nm in view ensures ParentIn(view, nm) {
        assert Linked(nm);
      }
    }

    /** `clean`: drops an entry that neither exists nor is referenced by a child. */
    method CleanUp(ns: Namespace)
      requires Valid() && Has(ns) && (!ns.info.present ==> ns.parent == null)
      modifies this`namespaces, this`view
      ensures Valid() && view == Clean(old(view), ns.name)
      ensures forall x | x in namespaces :: x in old(namespaces) && namespaces[x] == old(namespaces[x])
    {
      Facts(ns);
      if ns.info.present || ns.children != {} {
        return;
      }
      namespaces := namespaces - {ns.name};
      view := view - {ns.name};
      forall nm, c | nm in namespaces && c in namespaces[nm].children ensures ChildLinked(nm, c) {
        assert old(Linked(nm) && ChildLinked(nm, c));
      }
      forall nm | nm in namespaces ensures Linked(nm) {
        assert old(Linked(nm));
      }
    }

    /** The first step of `SetParent`: `ns` leaves its old parent `o`. */
    method Leave(ns: Namespace, o: Namespace)
      requires Valid() && Has(ns) && ns.parent == o && o in Repr
      modifies this`view, ns`parent, o`children
      ensures Valid() && ns.parent == null && o.children == old(o.children) - {ns.name}
      ensures view == old(view)[ns.name := Node(None, ns.info)]
    {
      assert Linked(ns.name);
      o.children := o.children - {ns.name};
      ns.parent := null;
      view := view[ns.name := ns.Abs()];
      forall nm, c | nm in namespaces && c in namespaces[nm].children ensures ChildLinked(nm, c) {
        assert old(Linked(nm) && ChildLinked(nm, c) && Linked(c));
        assert c != ns.name;
      }
      forall nm | nm in namespaces ensures Linked(nm) {
        assert old(Linked(nm));
      }
    }

    /** `ns` leaves its parent, if it has one, and the parent is collected if it is now useless. */
    method LeaveAndCollect(ns: Namespace)
      requires Valid() && MissingAreRoots(view) && Has(ns)
      modifies this`namespaces, this`view, ns`parent, Opt(ns.parent)`children
      ensures Valid() && ns.parent == null
      ensures view == Reparent(old(view), ns.name, None)
      ensures forall x | x in namespaces :: x in old(namespaces) && namespaces[x] == old(namespaces[x])
    {
      Facts(ns);
      var o := ns.parent;
      if o != null {
        Facts(o);
        Leave(ns, o);
        if o.children == {} {
          assert ChildrenOf(view, o.name) == ChildrenOf(old(view), o.name) - {ns.name};
          CleanUp(o);
        }
      }
    }

    /** The last step of `SetParent`: `ns` joins `p`. */
    method Join(ns: Namespace, p: Namespace?)
      requires Valid() && Has(ns) && ns.parent == null && (p != null ==> p in Repr)
      modifies this`view, ns`parent, Opt(p)`children
      ensures view == old(view)[ns.name := Node(NameOf(p), ns.info)]
      ensures Valid() <==> p == null || Has(p)
    {
      assert Linked(ns.name);
      ns.parent := p;
      if p != null {
        p.children := p.children + {ns.name};
      }
      view := view[ns.name := ns.Abs()];
      if p == null || Has(p) {
        forall nm, c | nm in namespaces && c in namespaces[nm].children ensures ChildLinked(nm, c) {
          assert old(Linked(nm)) && (c in old(namespaces[nm].children) ==> old(ChildLinked(nm, c)));
        }
        forall nm | nm in namespaces ensures Linked(nm) {
          assert old(Linked(nm));
        }
      } else {
        assert !Linked(ns.name);
      }
    }

    /** `SetParent`. The forest stays well linked exactly when the call does not re-assign a missing
        parent that only this namespace kept registered. */
    method SetParent(ns: Namespace, p: Namespace?)
      requires Valid() && MissingAreRoots(view)
      requires Has(ns) && (p != null ==> Has(p))
      modifies this`namespaces, this`view, ns`parent, Opt(ns.parent)`children, Opt(p)`children
      ensures view == Reparent(old(view), ns.name, NameOf(p))
      ensures Valid() <==> !Dangles(old(view), ns.name, NameOf(p))
      ensures forall x | x in namespaces :: x in old(namespaces) && namespaces[x] == old(namespaces[x])
    {
      Facts(ns);
      if p != null { Facts(p); }
      ReparentInSteps(view, ns.name, NameOf(p));
      LeaveAndCollect(ns);
      Join(ns, p);
    }

    /** `UnsetExists`: the namespace is gone; it leaves its parent and its entry is dropped unless a
        child still refers to it. */
    method UnsetExists(ns: Namespace) returns (changed: bool)
      requires Valid() && MissingAreRoots(view) && Has(ns)
      modifies this`namespaces, this`view, ns`parent, ns`info, Opt(ns.parent)`children
      ensures changed == old(ns.info.present)
      ensures Valid() && view == Unset(old(view), ns.name)
      ensures forall x | x in namespaces :: x in old(namespaces) && namespaces[x] == old(namespaces[x])
    {
      Facts(ns);
      changed := ns.info.present;
      SetParent(ns, null);
      Facts(ns);
      SetInfo(ns, ns.info.(present := false));
      CleanUp(ns);
    }

    /** Replaces what is known of a namespace apart from its place in the hierarchy. */
    method SetInfo(ns: Namespace, info: Info)
      requires Valid() && Has(ns)
      modifies ns`info, this`view
      ensures Valid() && ns.info == info
      ensures view == old(view)[ns.name := Node(NameOf(ns.parent), info)]
    {
      ns.info := info;
      view := view[ns.name := ns.Abs()];
      forall nm, c | nm in namespaces && c in namespaces[nm].children ensures ChildLinked(nm, c) {
        assert old(Linked(nm) && ChildLinked(nm, c));
      }
      forall nm | nm in namespaces ensures Linked(nm) {
        assert old(Linked(nm));
      }
    }

    ghost function ParentLinks(): Links
      reads this
    {
      LinksOf(view)
    }

    lemma LinkOf(ns: Namespace)
      requires Valid() && Has(ns)
      ensures ns.name in ParentLinks() <==> ns.parent != null
      ensures ns.parent != null ==> ParentLinks()[ns.name] == ns.parent.name && Has(ns.parent)
    {
      Facts(ns);
    }

    lemma ChildrenAre(ns: Namespace)
      requires Valid() && Has(ns)
      ensures ns.children == Children(ParentLinks(), ns.name)
      ensures ns.children <= namespaces.Keys
    {
      Facts(ns);
    }

    /** `AncestryNames`: the ancestors, root first, with the first member of a cycle that is met
        twice repeated at the front. */
    method AncestryNames(ns: Namespace?) returns (r: seq<Name>)
      requires Valid() && (ns != null ==> Has(ns))
      ensures r == if ns == null then [] else Ancestry(ParentLinks(), ns.name)
    {
      if ns == null {
        return [];
      }
      ghost var l := ParentLinks();
      var cycleCheck := {ns.name};
      var ancestors := [ns.name];
      var anc := ns.parent;
      LinkOf(ns);
      while anc != null
        invariant ancestors != [] && Chain(l, ancestors) && Distinct(ancestors)
        invariant Elems(ancestors) == cycleCheck
        invariant Climb(l, ancestors) == Ancestry(l, ns.name)
        invariant ancestors[0] in l <==> anc != null
        invariant anc != null ==> Has(anc) && l[ancestors[0]] == anc.name
        decreases Unclimbed(l, ancestors)
      {
        ghost var below := ancestors;
        ancestors := [anc.name] + ancestors;
        assert ancestors[1..] == below;
        if anc.name in cycleCheck {
          return ancestors;
        }
        ClimbShrinks(l, below, ancestors);
        cycleCheck := cycleCheck + {anc.name};
        LinkOf(anc);
        anc := anc.parent;
      }
      return ancestors;
    }

    /** `CycleNames`: nothing off a cycle; on a cycle, the list that all its members share. */
    method CycleNames(ns: Namespace) returns (r: seq<Name>)
      requires Valid() && Has(ns)
      ensures IsCycleListing(ParentLinks(), ns.name, r)
    {
      ghost var l := ParentLinks();
      var ancestors := AncestryNames(ns);
      OnCycleIff(l, ns.name);
      if |ancestors| == 1 || ancestors[0] != ns.name {
        return [];
      }
      ghost var all := ancestors;
      ancestors := ancestors[1..];
      var sidx := 0;
      var snm := ancestors[0];
      for idx := 0 to |ancestors|
        invariant 0 <= sidx < |ancestors| && snm == ancestors[sidx] && LeastOf(ancestors[..idx], snm)
      {
        LeastOfMore(ancestors, idx, snm);
        if Less(ancestors[idx], snm) {
          sidx := idx;
          snm := ancestors[idx];
        }
      }
      r := ancestors[sidx..] + ancestors[..sidx] + [snm];
      ListingFromLeast(l, ns.name, all, ancestors, sidx);
    }

    /** No name of `s` comes before `m`. */
    static ghost predicate LeastOf(s: seq<Name>, m: Name) {
      forall i | 0 <= i < |s| && s[i] != m :: Less(m, s[i])
    }

    static lemma LeastOfMore(s: seq<Name>, i: nat, m: Name)
      requires i < |s| && LeastOf(s[..i], m)
      ensures LeastOf(s[..i + 1], if Less(s[i], m) then s[i] else m)
    {
      if Less(s[i], m) {
        forall j | 0 <= j < i + 1 && s[j] != s[i] ensures Less(s[i], s[j]) {
          assert s[..i][j] == s[j];
          if s[j] != m { LessTransitive(s[i], m, s[j]); }
        }
      } else {
        forall j | 0 <= j < i + 1 && s[j] != m ensures Less(m, s[j]) {
          if j < i { assert s[..i][j] == s[j]; } else { LessTotal(m, s[i]); }
        }
      }
    }

    static lemma ListingFromLeast(l: Links, n: Name, all: seq<Name>, b: seq<Name>, sidx: nat)
      requires OnCycle(l, n) && all == Ancestry(l, n) && |all| > 1 && all[0] == n && b == all[1..]
      requires sidx < |b| && LeastOf(b[..|b|], b[sidx])
      ensures IsCycleListing(l, n, Rotated(b, sidx))
    {
      assert b[..|b|] == b;
      assert all == [n] + b;
      RotatedAncestry(l, n, b, sidx);
      assert b[|b| - 1] == n;
      assert Elems(all) == Elems(b);
      assert IsLeast(b[sidx], Elems(all));
    }

    /** `CanSetParent`, reduced to whether the reason it returns is empty. */
    method CanSetParent(ns: Namespace, p: Namespace?) returns (ok: bool)
      requires Valid() && Has(ns) && (p != null ==> Has(p))
      ensures ok <==> p == null || !OnCycle(ParentLinks()[ns.name := p.name], ns.name)
    {
      if p == null {
        return true;
      }
      RefusedIffCycle(ParentLinks(), ns.name, p.name);
      if p == ns {
        return false;
      }
      var ancestors := AncestryNames(p);
      var found := false;
      var i := |ancestors| - 1;
      while !found && i >= 0
        invariant -1 <= i < |ancestors|
        invariant found <==> exists j :: i < j < |ancestors| && ancestors[j] == ns.name
        decreases i
      {
        found := ancestors[i] == ns.name;
        i := i - 1;
      }
      return !found;
    }

    /** `ChildNames`. */
    method ChildNames(ns: Namespace) returns (r: seq<Name>)
      ensures StrictlySorted(r) && Elems(r) == ns.children
    {
      r := SortedNames(ns.children);
    }

    /** `populateDescendants`: marks in `d` the namespaces below `ns` that are reached without
        passing a namespace marked before; each newly marked one has all its children marked. */
    method PopulateDescendants(ns: Namespace, d0: set<Name>) returns (d: set<Name>)
      requires Valid() && Has(ns) && d0 <= namespaces.Keys
      ensures d0 <= d <= namespaces.Keys
      ensures d <= d0 + Descendants(ParentLinks(), ns.name)
      ensures Children(ParentLinks(), ns.name) <= d
      ensures forall x | x in d - d0 :: Children(ParentLinks(), x) <= d
      decreases |namespaces.Keys - d0|
    {
      ghost var l := ParentLinks();
      ChildrenAre(ns);
      d := d0;
      var cs := ChildNames(ns);
      for i := 0 to |cs|
        invariant d0 <= d <= namespaces.Keys
        invariant d <= d0 + Descendants(l, ns.name)
        invariant forall j | 0 <= j < i :: cs[j] in d
        invariant forall x | x in d - d0 :: Children(l, x) <= d
      {
        var c := cs[i];
        assert c in Elems(cs);
        if c in d {
          continue;
        }
        ChildIsDescendant(l, ns.name, c);
        assert Linked(c);
        assert namespaces.Keys - (d + {c}) < namespaces.Keys - d0;
        SubsetSmaller(namespaces.Keys - (d + {c}), namespaces.Keys - d0);
        d := PopulateDescendants(namespaces[c], d + {c});
      }
      forall c | c in Children(l, ns.name) ensures c in d {
        assert c in Elems(cs);
      }
    }

    /** `DescendantNames`: sorted, without repeats, and exactly the namespaces from which following
        one or more parent links leads to `ns` - in every forest, cyclic or not. */
    method DescendantNames(ns: Namespace) returns (r: seq<Name>)
      requires Valid() && Has(ns)
      ensures StrictlySorted(r) && Elems(r) == Descendants(ParentLinks(), ns.name)
    {
      var ds := PopulateDescendants(ns, {});
      ChildClosed(ParentLinks(), ns.name, ds);
      r := SortedNames(ds);
    }

    /** `AllowsCascadingDeletion`: the flag counts on the namespace and on its ancestors up to and
        including the first one that is on a cycle. */
    method AllowsCascadingDeletion(ns: Namespace) returns (r: bool)
      requires Valid() && Has(ns)
      ensures r <==> CascadesFrom(view, ns.name)
      decreases |Ancestry(ParentLinks(), ns.name)|
    {
      ghost var l := ParentLinks();
      Facts(ns);
      LinkOf(ns);
      CascadeStep(view, ns.name);
      if ns.info.cascading {
        return true;
      }
      if ns.parent == null {
        return false;
      }
      var cycle := CycleNames(ns);
      if cycle != [] {
        OnCycleOrNot(l, ns.name, cycle);
        return false;
      }
      OnCycleOrNot(l, ns.name, cycle);
      AncestryOfParent(l, ns.name);
      r := AllowsCascadingDeletion(ns.parent);
    }

    lemma OnCycleOrNot(l: Links, n: Name, r: seq<Name>)
      requires IsCycleListing(l, n, r)
      ensures r != [] <==> OnCycle(l, n)
    {
    }

    /** `GetCritAncestor`. It has no protection against cycles; it ends because every cycle contains a
        namespace with a local critical condition. */
    method GetCritAncestor(ns: Namespace) returns (r: Option<Name>)
      requires Valid() && Has(ns)
      requires WalkEnds(ParentLinks(), Crits(view), ns.name)
      ensures IsFirstCrit(ParentLinks(), Crits(view), ns.name, r)
      ensures r == Up(ParentLinks(), ns.name, WalkLength(ParentLinks(), Crits(view), ns.name))
      decreases WalkLength(ParentLinks(), Crits(view), ns.name)
    {
      ghost var l, crit := ParentLinks(), Crits(view);
      Facts(ns);
      LinkOf(ns);
      WalkFindsFirst(l, crit, ns.name);
      var local := ns.HasLocalCritCondition();
      if local {
        assert WalkOver(l, crit, ns.name, 0);
        return Some(ns.name);
      }
      assert !WalkOver(l, crit, ns.name, 0);
      if ns.parent == null {
        assert WalkOver(l, crit, ns.name, 1);
        return None;
      }
      WalkStep(l, crit, ns.name);
      UpFirst(l, ns.name, WalkLength(l, crit, ns.parent.name));
      r := GetCritAncestor(ns.parent);
    }
  }
}
