/** The name-level view of the forest and the effect of each operation on it. */
module ForestState {
  import opened Names
  import opened ParentLinks
  import opened Objects
  import opened Cycles

  datatype ConditionType = ActivitiesHalted | BadConfiguration
  datatype Reason = AncestorHaltActivities | DeletingCRD | InCycle | ParentMissing | IllegalParent | AnchorMissing
  datatype Condition = Condition(tp: ConditionType, reason: Reason)

  /** The labels of a namespace. A tree-depth label is kept as the name in front of the suffix
      `.tree.hnc.x-k8s.io/depth` and its depth. */
  datatype Labels = Labels(depths: map<Name, int>, others: map<string, string>)

  /** What is known of a namespace apart from its place in the hierarchy. */
  datatype Info = Info(
    present: bool,
    cascading: bool,
    labels: Labels,
    sources: map<Kind, map<string, Obj>>,
    conditions: seq<Condition>,
    isSub: bool,
    anchors: seq<Name>,
    manager: string,
    external: map<Name, int>)

  datatype Node = Node(parent: Option<Name>, info: Info)

  type State = map<Name, Node>

  const BLANK: Info := Info(false, false, Labels(map[], map[]), map[], [], false, [], "", map[])
  const EMPTY: Node := Node(None, BLANK)

  predicate IsCrit(c: Condition) {
    c.tp == ActivitiesHalted && c.reason != AncestorHaltActivities
  }

  ghost predicate HasCrit(cs: seq<Condition>) {
    exists i :: 0 <= i < |cs| && IsCrit(cs[i])
  }

  ghost function LinksOf(s: State): Links {
    map n | n in s && s[n].parent.Some? :: s[n].parent.value
  }

  ghost function Crits(s: State): set<Name> {
    set n | n in s && HasCrit(s[n].info.conditions)
  }

  ghost function ChildrenOf(s: State, n: Name): set<Name> {
    set c | c in s && s[c].parent == Some(n)
  }

  /** No entry is nameless and no entry refers to a parent without an entry. */
  ghost predicate Closed(s: State) {
    NO_NAME !in s && forall n {:trigger ParentIn(s, n)} | n in s :: ParentIn(s, n)
  }

  ghost predicate ParentIn(s: State, n: Name)
    requires n in s
  {
    s[n].parent.Some? ==> s[n].parent.value in s
  }

  /** Whatever is above an entry is an entry. */
  lemma {:induction false} WalkStaysIn(s: State, x: Name, k: nat)
    requires Closed(s) && x in s
    ensures Up(LinksOf(s), x, k).Some? ==> Up(LinksOf(s), x, k).value in s
    decreases k
  {
    if k > 0 && Up(LinksOf(s), x, k).Some? {
      WalkStaysIn(s, x, k - 1);
      assert ParentIn(s, Up(LinksOf(s), x, k - 1).value);
    }
  }

  /** A missing namespace has no parent. */
  ghost predicate MissingAreRoots(s: State) {
    forall n | n in s && !s[n].info.present :: s[n].parent.None?
  }

  ghost predicate WellFormed(s: State) {
    Closed(s) && MissingAreRoots(s)
  }

  // ----- Operations of package forest -----

  /** `Forest.Get`: an entry is made on demand; the empty name has none. */
  ghost function Touch(s: State, n: Name): State {
    if n == NO_NAME || n in s then s else s[n := EMPTY]
  }

  /** `clean`: an entry that neither exists nor has children is dropped. */
  ghost function Clean(s: State, n: Name): State
    requires n in s
  {
    if s[n].info.present || ChildrenOf(s, n) != {} then s else s - {n}
  }

  /** The old parent is dropped when `n` was its only child and it does not exist. */
  ghost predicate DropsOldParent(s: State, n: Name)
    requires n in s
  {
    match s[n].parent
    case None => false
    case Some(o) => o in s && !s[o].info.present && ChildrenOf(s, o) == {n}
  }

  /** `SetParent`. */
  ghost function Reparent(s: State, n: Name, p: Option<Name>): State
    requires n in s && MissingAreRoots(s)
  {
    var s1 := if DropsOldParent(s, n) then s - {s[n].parent.value} else s;
    s1[n := s[n].(parent := p)]
  }

  /** `UnsetExists`. */
  ghost function Unset(s: State, n: Name): State
    requires n in s && MissingAreRoots(s)
  {
    var s1 := Reparent(s, n, None);
    Clean(s1[n := Node(s1[n].parent, s1[n].info.(present := false))], n)
  }

  /** The exact failure of `SetParent`: re-assigning the current parent while `n` is the only thing
      that keeps it registered. */
  ghost predicate Dangles(s: State, n: Name, p: Option<Name>)
    requires n in s
  {
    p.Some? && p == s[n].parent && DropsOldParent(s, n)
  }

  /** `SetParent` leaves every parent registered exactly when it does not dangle. */
  lemma ReparentClosedIff(s: State, n: Name, p: Option<Name>)
    requires n in s && WellFormed(s) && (p.Some? ==> p.value in s)
    ensures Closed(Reparent(s, n, p)) <==> !Dangles(s, n, p)
  {
    var t := Reparent(s, n, p);
    if Dangles(s, n, p) {
      assert !ParentIn(t, n);
    } else {
      forall x | x in t ensures ParentIn(t, x) {
        assert ParentIn(s, x);
        if DropsOldParent(s, n) {
          var o := s[n].parent.value;
          assert x in ChildrenOf(s, o) <==> s[x].parent == Some(o);
        }
      }
    }
  }

  /** For instance, with an orphan as the only child of its missing parent. */
  lemma OrphanDangles(n: Name, p: Name)
    requires n != p && n != NO_NAME && p != NO_NAME
    ensures var s := map[n := Node(Some(p), BLANK.(present := true)), p := EMPTY];
      WellFormed(s) && s[n].parent == Some(p) && Dangles(s, n, Some(p)) && !Closed(Reparent(s, n, Some(p)))
  {
    var s := map[n := Node(Some(p), BLANK.(present := true)), p := EMPTY];
    assert ParentIn(s, n) && ParentIn(s, p);
    assert ChildrenOf(s, p) == {n};
    ReparentClosedIff(s, n, Some(p));
  }

  /** `SetParent` is leaving the old parent followed by joining the new one; the new parent is gone
      by then exactly when the call dangles. */
  lemma ReparentInSteps(s: State, n: Name, p: Option<Name>)
    requires n in s && MissingAreRoots(s) && (p.Some? ==> p.value in s)
    ensures n in Reparent(s, n, None) && Reparent(s, n, None)[n] == Node(None, s[n].info)
    ensures Reparent(s, n, p) == Reparent(s, n, None)[n := Node(p, s[n].info)]
    ensures p.Some? ==> (p.value in Reparent(s, n, None) <==> !Dangles(s, n, p))
  {
  }

  lemma ReparentLinks(s: State, n: Name, p: Option<Name>)
    requires n in s && WellFormed(s)
    ensures SameOff(LinksOf(s), LinksOf(Reparent(s, n, p)), n)
    ensures LinksOf(Reparent(s, n, p)) == if p.Some? then LinksOf(s)[n := p.value] else LinksOf(s) - {n}
  {
  }

  lemma ReparentCrits(s: State, n: Name, p: Option<Name>)
    requires n in s && WellFormed(s)
    ensures DropsOldParent(s, n) ==> Crits(Reparent(s, n, p)) == Crits(s) - {s[n].parent.value}
    ensures !DropsOldParent(s, n) ==> Crits(Reparent(s, n, p)) == Crits(s)
  {
  }

  /** The cascading-deletion flag is set on `n` or on an ancestor that is met no later than the first
      member of a cycle. */
  ghost predicate CascadesFrom(s: State, n: Name) {
    exists k: nat :: CascadesAt(s, n, k)
  }

  ghost predicate CascadesAt(s: State, n: Name, k: nat) {
    var l := LinksOf(s);
    && Up(l, n, k).Some? && Up(l, n, k).value in s && s[Up(l, n, k).value].info.cascading
    && forall j: nat | j < k :: Up(l, n, j).Some? && !OnCycle(l, Up(l, n, j).value)
  }

  /** One step of the search for the flag. */
  lemma CascadeStep(s: State, n: Name)
    requires n in s
    ensures CascadesFrom(s, n) <==>
      || s[n].info.cascading
      || (s[n].parent.Some? && !OnCycle(LinksOf(s), n) && CascadesFrom(s, s[n].parent.value))
  {
    var l := LinksOf(s);
    assert Up(l, n, 0) == Some(n);
    if s[n].info.cascading {
      assert CascadesAt(s, n, 0);
    } else if s[n].parent.Some? {
      var p := s[n].parent.value;
      forall k: nat ensures CascadesAt(s, n, k + 1) <==> !OnCycle(l, n) && CascadesAt(s, p, k) {
        UpFirst(l, n, k);
        forall j: nat | j < k ensures Up(l, n, j + 1) == Up(l, p, j) { UpFirst(l, n, j); }
        if CascadesAt(s, n, k + 1) {
          assert !OnCycle(l, Up(l, n, 0).value);
          forall j: nat | j < k ensures Up(l, p, j).Some? && !OnCycle(l, Up(l, p, j).value) {
            assert Up(l, n, j + 1).Some? && !OnCycle(l, Up(l, n, j + 1).value);
          }
        }
        if !OnCycle(l, n) && CascadesAt(s, p, k) {
          forall j: nat | j < k + 1 ensures Up(l, n, j).Some? && !OnCycle(l, Up(l, n, j).value) {
            if j > 0 { UpFirst(l, n, j - 1); }
          }
        }
      }
      if CascadesFrom(s, n) {
        var k: nat :| CascadesAt(s, n, k);
        assert k > 0;
        assert CascadesAt(s, n, k - 1 + 1) && CascadesAt(s, p, k - 1);
      }
      if !OnCycle(l, n) && CascadesFrom(s, p) {
        var k: nat :| CascadesAt(s, p, k);
        assert CascadesAt(s, n, k + 1);
      }
    } else {
      if CascadesFrom(s, n) {
        var k: nat :| CascadesAt(s, n, k);
        if k > 0 { UpFirst(l, n, k - 1); }
      }
    }
  }
}
