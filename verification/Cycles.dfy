/** Cycles of parent links, and the walks that must end although cycles exist. */
module Cycles {
  import opened Names
  import opened ParentLinks

  // ----- The canonical listing of a cycle -----

  /** The answer that every member of a cycle must give: the ancestry of the least member.
      A namespace that is on no cycle answers the empty list. */
  ghost predicate IsCycleListing(l: Links, n: Name, r: seq<Name>) {
    if OnCycle(l, n)
    then exists m :: IsLeast(m, Elems(Ancestry(l, n))) && r == Ancestry(l, m)
    else r == []
  }

  lemma CycleMembers(l: Links, c: Name, m: Name)
    requires OnCycle(l, c) && Reach(l, c, m)
    ensures Elems(Ancestry(l, m)) == Elems(Ancestry(l, c))
  {
    ReachOnCycle(l, c, m);
    forall x ensures x in Ancestry(l, m) <==> x in Ancestry(l, c) {
      AncestryElements(l, m, Ancestry(l, m), x);
      AncestryElements(l, c, Ancestry(l, c), x);
      if Reach(l, m, x) { ReachTransitive(l, c, m, x); }
      if Reach(l, c, x) { ReachTransitive(l, m, c, x); }
    }
  }

  /** All members of a cycle give the same listing. */
  lemma CycleListingShared(l: Links, c: Name, m: Name, rc: seq<Name>, rm: seq<Name>)
    requires OnCycle(l, c) && Reach(l, c, m)
    requires IsCycleListing(l, c, rc) && IsCycleListing(l, m, rm)
    ensures rc == rm
  {
    ReachOnCycle(l, c, m);
    CycleMembers(l, c, m);
    var s := Elems(Ancestry(l, c));
    var x :| IsLeast(x, s) && rc == Ancestry(l, x);
    var y :| IsLeast(y, s) && rm == Ancestry(l, y);
    LeastUnique(x, y, s);
  }

  /** `b` rotated to start at position `s`, with the new first element repeated at the end. */
  function Rotated(b: seq<Name>, s: nat): seq<Name>
    requires s < |b|
  {
    b[s..] + b[..s] + [b[s]]
  }

  lemma RotatedDistinct(b: seq<Name>, s: nat)
    requires s < |b| && Distinct(b)
    ensures Distinct(Rotated(b, s)[1..])
  {
    var r := Rotated(b, s)[1..];
    forall i, j | 0 <= i < j < |r| ensures r[i] != r[j] {
      var x := if i + 1 < |b| - s then s + i + 1 else i + 1 - (|b| - s);
      var y := if j + 1 < |b| - s then s + j + 1 else j + 1 - (|b| - s);
      assert r[i] == b[x] && r[j] == b[y] && x != y;
    }
  }

  lemma RotatedChain(l: Links, b: seq<Name>, s: nat)
    requires s < |b| && Chain(l, b) && b[0] in l && l[b[0]] == b[|b| - 1]
    ensures Chain(l, Rotated(b, s))
  {
    var r := Rotated(b, s);
    forall i | 0 < i < |r| ensures r[i] in l && l[r[i]] == r[i - 1] {
      var x := if i < |b| - s then s + i else i - (|b| - s);
      assert r[i] == b[x];
    }
  }

  /** Rotating the ancestry of a cycle member gives the ancestry of another member. */
  lemma RotatedAncestry(l: Links, n: Name, b: seq<Name>, s: nat)
    requires |b| > 0 && b[|b| - 1] == n && IsAncestry(l, n, [n] + b) && s < |b|
    ensures Rotated(b, s) == Ancestry(l, b[s])
  {
    var a := [n] + b;
    assert a[1..] == b;
    forall i | 0 < i < |b| ensures b[i] in l && l[b[i]] == b[i - 1] {
      assert b[i] == a[i + 1] && b[i - 1] == a[i];
    }
    assert b[0] == a[1];
    RotatedChain(l, b, s);
    RotatedDistinct(b, s);
    var r := Rotated(b, s);
    assert r[1..][|r| - 2] == r[0];
    AncestryIs(l, b[s], r);
  }

  /** Off a cycle, the ancestry of the parent is the ancestry without its last element. */
  lemma AncestryOfParent(l: Links, n: Name)
    requires n in l && !OnCycle(l, n)
    ensures |Ancestry(l, n)| > 1
    ensures Ancestry(l, l[n]) == Ancestry(l, n)[..|Ancestry(l, n)| - 1]
  {
    var a := Ancestry(l, n);
    OnCycleIff(l, n);
    assert |a| > 1;
    var b := a[..|a| - 1];
    if a[0] in a[1..] {
      var j :| 0 <= j < |a[1..]| && a[1..][j] == a[0];
      assert j != |a| - 2;
      assert b[1..][j] == b[0];
    }
    forall i, j | 0 <= i < j < |b[1..]| ensures b[1..][i] != b[1..][j] {
      assert a[1..][i] != a[1..][j];
    }
    AncestryIs(l, l[n], b);
  }

  /** In a tree, the ancestry of an ancestor is a prefix of the ancestry. */
  lemma AncestryPrefix(l: Links, n: Name, i: nat)
    requires Ancestry(l, n)[0] !in l && i < |Ancestry(l, n)|
    ensures Ancestry(l, n)[..i + 1] == Ancestry(l, Ancestry(l, n)[i])
  {
    var a := Ancestry(l, n);
    var b := a[..i + 1];
    forall j, k | 0 <= j < k < |b[1..]| ensures b[1..][j] != b[1..][k] {
      assert b[1..][j] == a[1..][j] && b[1..][k] == a[1..][k];
    }
    AncestryIs(l, a[i], b);
  }

  // ----- Walks that stop at the first marked namespace -----

  /** Every parent cycle contains a member of `crit`. */
  ghost predicate EveryCycleHit(l: Links, crit: set<Name>) {
    forall c | OnCycle(l, c) :: exists m :: m in crit && Reach(l, c, m)
  }

  /** The walk upwards from `n` is over after `k` links: it ran out of parents or met `crit`. */
  ghost predicate WalkOver(l: Links, crit: set<Name>, n: Name, k: nat) {
    Up(l, n, k).None? || Up(l, n, k).value in crit
  }

  ghost predicate WalkEnds(l: Links, crit: set<Name>, n: Name) {
    exists k: nat :: WalkOver(l, crit, n, k)
  }

  /** Every upward walk ends exactly when every cycle contains a member of `crit`. */
  lemma AllWalksEndIff(l: Links, crit: set<Name>)
    ensures EveryCycleHit(l, crit) <==> forall n :: WalkEnds(l, crit, n)
  {
    if EveryCycleHit(l, crit) {
      forall n ensures WalkEnds(l, crit, n) { WalkFromHit(l, crit, n); }
    }
    if forall n :: WalkEnds(l, crit, n) {
      forall c | OnCycle(l, c) ensures exists m :: m in crit && Reach(l, c, m) {
        assert WalkEnds(l, crit, c);
        var k: nat :| WalkOver(l, crit, c, k);
        CycleNeverRunsOut(l, c, k);
        var m := Up(l, c, k).value;
        assert m in crit && Reach(l, c, m);
      }
    }
  }

  lemma {:induction false} CycleNeverRunsOut(l: Links, c: Name, k: nat)
    requires OnCycle(l, c)
    ensures Up(l, c, k).Some?
  {
    if k > 0 {
      CycleNeverRunsOut(l, c, k - 1);
      var m := Up(l, c, k - 1).value;
      assert Reach(l, c, m);
      ReachOnCycle(l, c, m);
    }
  }

  /** The first element of an ancestry is a root or lies on a cycle. */
  lemma AncestryTop(l: Links, n: Name)
    ensures var a := Ancestry(l, n); a[0] !in l || (a[0] in a[1..] && OnCycle(l, a[0]))
  {
    var a := Ancestry(l, n);
    if a[0] in l {
      var j :| 0 <= j < |a[1..]| && a[1..][j] == a[0];
      var b := a[..j + 2];
      assert Chain(l, b);
      ChainUp(l, b, 0);
      BelowUp(l, a[0], a[0]);
    }
  }

  lemma WalkFromHit(l: Links, crit: set<Name>, n: Name)
    requires EveryCycleHit(l, crit)
    ensures WalkEnds(l, crit, n)
  {
    var a := Ancestry(l, n);
    AncestryTop(l, n);
    ChainUp(l, a, 0);
    if a[0] in l {
      var m :| m in crit && Reach(l, a[0], m);
      ReachTransitive(l, n, a[0], m);
      var k: nat :| Up(l, n, k) == Some(m);
      assert WalkOver(l, crit, n, k);
    } else {
      assert Up(l, n, |a|).None?;
      assert WalkOver(l, crit, n, |a|);
    }
  }

  /** The number of links followed before the walk is over. */
  ghost function WalkLength(l: Links, crit: set<Name>, n: Name): (k: nat)
    requires WalkEnds(l, crit, n)
    ensures WalkOver(l, crit, n, k)
    ensures forall j: nat | j < k :: !WalkOver(l, crit, n, j)
  {
    var k: nat :| WalkOver(l, crit, n, k);
    FirstOver(l, crit, n, k)
  }

  ghost function FirstOver(l: Links, crit: set<Name>, n: Name, k: nat): (r: nat)
    requires WalkOver(l, crit, n, k)
    ensures WalkOver(l, crit, n, r)
    ensures forall j: nat | j < r :: !WalkOver(l, crit, n, j)
    decreases k
  {
    if j: nat :| j < k && WalkOver(l, crit, n, j) then FirstOver(l, crit, n, j) else k
  }

  /** Taking one step shortens the walk by one. */
  lemma WalkStep(l: Links, crit: set<Name>, n: Name)
    requires WalkEnds(l, crit, n) && n !in crit && n in l
    ensures WalkEnds(l, crit, l[n])
    ensures WalkLength(l, crit, n) == WalkLength(l, crit, l[n]) + 1
  {
    var k := WalkLength(l, crit, n);
    assert !WalkOver(l, crit, n, 0);
    forall j: nat ensures WalkOver(l, crit, l[n], j) <==> WalkOver(l, crit, n, j + 1) {
      UpFirst(l, n, j);
    }
    assert WalkOver(l, crit, l[n], k - 1);
    assert WalkOver(l, crit, n, WalkLength(l, crit, l[n]) + 1);
  }

  /** `r` is the first member of `crit` met on the way up from `n`, or nothing if there is none. */
  ghost predicate IsFirstCrit(l: Links, crit: set<Name>, n: Name, r: Option<Name>) {
    match r
    case None => forall m | m in crit :: !Reach(l, n, m)
    case Some(m) => m in crit && exists k: nat :: Up(l, n, k) == Some(m) && forall j: nat | j < k ::
      !WalkOver(l, crit, n, j)
  }

  /** Where the walk ends is the first member of `crit`, and there is none if it runs out. */
  lemma WalkFindsFirst(l: Links, crit: set<Name>, n: Name)
    requires WalkEnds(l, crit, n)
    ensures IsFirstCrit(l, crit, n, Up(l, n, WalkLength(l, crit, n)))
  {
    var k := WalkLength(l, crit, n);
    if Up(l, n, k).None? {
      forall m | m in crit ensures !Reach(l, n, m) {
        if Reach(l, n, m) {
          var j: nat :| Up(l, n, j) == Some(m);
          assert WalkOver(l, crit, n, j);
          UpAdd(l, n, k, j - k);
          assert false;
        }
      }
    }
  }

  // ----- Sets closed under taking children -----

  ghost function Children(l: Links, n: Name): set<Name> {
    set c | c in l && l[c] == n
  }

  /** A set that holds the children of `n` and of its own members holds all descendants of `n`. */
  lemma ChildClosed(l: Links, n: Name, d: set<Name>)
    requires Children(l, n) <= d && forall x | x in d :: Children(l, x) <= d
    ensures Descendants(l, n) <= d
  {
    forall x | x in Descendants(l, n) ensures x in d {
      BelowUp(l, x, n);
      var k: nat :| k >= 1 && Up(l, x, k) == Some(n);
      ChildClosedFrom(l, n, d, x, k);
    }
  }

  lemma {:induction false} ChildClosedFrom(l: Links, n: Name, d: set<Name>, x: Name, k: nat)
    requires Children(l, n) <= d && forall x | x in d :: Children(l, x) <= d
    requires k >= 1 && Up(l, x, k) == Some(n)
    ensures x in d
    decreases k
  {
    UpFirst(l, x, k - 1);
    if k == 1 {
      assert x in Children(l, n);
    } else {
      ChildClosedFrom(l, n, d, l[x], k - 1);
      assert x in Children(l, l[x]);
    }
  }

  lemma ChildIsDescendant(l: Links, n: Name, c: Name)
    requires c in Children(l, n)
    ensures c in Descendants(l, n) && Descendants(l, c) <= Descendants(l, n)
  {
    ReachSelf(l, n);
    forall d | d in Descendants(l, c) ensures d in Descendants(l, n) {
      ReachCases(l, c, n);
      ReachTransitive(l, l[d], c, n);
    }
  }

  // ----- One link changes -----

  /** Changing the link of `n` keeps every cycle hit, provided `n` is put into `crit` if it now is
      on a cycle and no other member of `crit` that has a parent is dropped. */
  lemma RelinkKeepsHit(l: Links, crit: set<Name>, m: Links, crit': set<Name>, n: Name)
    requires SameOff(l, m, n) && EveryCycleHit(l, crit)
    requires forall x | x in crit && x in l && x != n :: x in crit'
    requires OnCycle(m, n) ==> n in crit'
    ensures EveryCycleHit(m, crit')
  {
    forall c | OnCycle(m, c) ensures exists x :: x in crit' && Reach(m, c, x) {
      CycleThroughOrBefore(l, m, n, c);
      if !(Reach(m, c, n) && OnCycle(m, n)) {
        var x :| x in crit && Reach(l, c, x);
        var k: nat :| Up(l, c, k) == Some(x);
        UpUnchanged(l, m, n, c, k);
        ReachOnCycle(l, c, x);
        assert x != n && x in l;
        assert x in crit' && Reach(m, c, x);
      }
    }
  }

  /** Every namespace other than `n` whose ancestry changed with the link of `n` is below `n`,
      both before and after the change. */
  lemma ChangedAreDescendants(l: Links, m: Links, n: Name, x: Name)
    requires SameOff(l, m, n) && x != n && Ancestry(l, x) != Ancestry(m, x)
    ensures x in Descendants(l, n) && x in Descendants(m, n)
  {
    if !Reach(l, x, n) { AncestryUnchanged(l, m, n, x); }
    ReachIgnoresOwnLink(l, m, n, x);
    ReachCases(l, x, n);
    ReachCases(m, x, n);
  }

  /** The name-level reading of `CanSetParent`: the change is refused exactly when it would put
      `n` on a cycle. */
  lemma RefusedIffCycle(l: Links, n: Name, p: Name)
    ensures n in Ancestry(l, p) <==> OnCycle(l[n := p], n)
  {
    AncestryElements(l, p, Ancestry(l, p), n);
    CycleMadeIff(l, n, p);
  }
}
