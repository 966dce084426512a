/** The theory of parent links: a finite map from a namespace to its parent. Nothing here assumes
    that the links are acyclic; the forest deliberately allows cycles. */
module ParentLinks {
  import opened Names

  type Links = map<Name, Name>

  /** The namespace met after following `k` parent links, if there are that many. */
  ghost function Up(l: Links, n: Name, k: nat): Option<Name> {
    if k == 0 then Some(n)
    else match Up(l, n, k - 1)
      case None => None
      case Some(m) => if m in l then Some(l[m]) else None
  }

  /** `a` is `d` itself or an ancestor of it. */
  ghost predicate Reach(l: Links, d: Name, a: Name) {
    exists k: nat :: Up(l, d, k) == Some(a)
  }

  /** `a` is met after one or more links: `d` is a descendant of `a`. */
  ghost predicate Below(l: Links, d: Name, a: Name) {
    d in l && Reach(l, l[d], a)
  }

  ghost predicate OnCycle(l: Links, n: Name) {
    Below(l, n, n)
  }

  ghost predicate Acyclic(l: Links) {
    forall n :: !OnCycle(l, n)
  }

  ghost function Descendants(l: Links, n: Name): set<Name> {
    set d | d in l && Below(l, d, n)
  }

  lemma {:induction false} UpAdd(l: Links, n: Name, j: nat, k: nat)
    ensures Up(l, n, j + k) == match Up(l, n, j) case None => None case Some(m) => Up(l, m, k)
    decreases k
  {
    if k > 0 {
      assert j + k - 1 == j + (k - 1);
      UpAdd(l, n, j, k - 1);
    }
  }

  lemma UpFirst(l: Links, n: Name, k: nat)
    ensures Up(l, n, k + 1) == if n in l then Up(l, l[n], k) else None
  {
    UpAdd(l, n, 1, k);
    assert Up(l, n, 1) == if n in l then Some(l[n]) else None by { assert Up(l, n, 0) == Some(n); }
  }

  lemma BelowUp(l: Links, d: Name, a: Name)
    ensures Below(l, d, a) <==> exists k: nat :: k >= 1 && Up(l, d, k) == Some(a)
  {
    if Below(l, d, a) {
      var k: nat :| Up(l, l[d], k) == Some(a);
      UpFirst(l, d, k);
    }
    forall k: nat | k >= 1 && Up(l, d, k) == Some(a) ensures Below(l, d, a) {
      UpFirst(l, d, k - 1);
    }
  }

  lemma ReachSelf(l: Links, n: Name)
    ensures Reach(l, n, n)
  {
    assert Up(l, n, 0) == Some(n);
  }

  lemma ReachCases(l: Links, d: Name, a: Name)
    ensures Reach(l, d, a) <==> d == a || Below(l, d, a)
  {
    ReachSelf(l, d);
    BelowUp(l, d, a);
    if Reach(l, d, a) && d != a {
      var k: nat :| Up(l, d, k) == Some(a);
      assert Up(l, d, 0) == Some(d);
      UpFirst(l, d, k - 1);
    }
  }

  lemma ReachTransitive(l: Links, x: Name, y: Name, z: Name)
    requires Reach(l, x, y) && Reach(l, y, z)
    ensures Reach(l, x, z)
  {
    var j: nat :| Up(l, x, j) == Some(y);
    var k: nat :| Up(l, y, k) == Some(z);
    UpAdd(l, x, j, k);
  }

  /** Of two namespaces above the same one, one is above the other. */
  lemma ReachLinear(l: Links, x: Name, y: Name, z: Name)
    requires Reach(l, x, y) && Reach(l, x, z)
    ensures Reach(l, y, z) || Reach(l, z, y)
  {
    var j: nat :| Up(l, x, j) == Some(y);
    var k: nat :| Up(l, x, k) == Some(z);
    if j <= k { UpAdd(l, x, j, k - j); } else { UpAdd(l, x, k, j - k); }
  }

  /** Going around a cycle any number of times leads back. */
  lemma {:induction false} CycleRepeats(l: Links, n: Name, p: nat, t: nat)
    requires Up(l, n, p) == Some(n)
    ensures Up(l, n, t * p) == Some(n)
    decreases t
  {
    if t > 0 {
      CycleRepeats(l, n, p, t - 1);
      assert t * p == (t - 1) * p + p;
      UpAdd(l, n, (t - 1) * p, p);
    }
  }

  /** Everything above a member of a cycle is a member of the same cycle. */
  lemma ReachOnCycle(l: Links, c: Name, m: Name)
    requires OnCycle(l, c) && Reach(l, c, m)
    ensures Reach(l, m, c) && OnCycle(l, m)
  {
    BelowUp(l, c, c);
    var p: nat :| p >= 1 && Up(l, c, p) == Some(c);
    var k: nat :| Up(l, c, k) == Some(m);
    CycleRepeats(l, c, p, k + 1);
    assert (k + 1) * p >= k + 1;
    var r := (k + 1) * p - k;
    UpAdd(l, c, k, r);
    assert Up(l, m, r) == Some(c);
    UpAdd(l, m, r, k);
    assert Up(l, m, r + k) == Some(m);
    BelowUp(l, m, m);
  }

  /** Nobody whose parent is on no cycle is on a cycle. */
  lemma OffCycle(l: Links, n: Name)
    requires n !in l || !OnCycle(l, l[n])
    ensures !OnCycle(l, n)
  {
    if OnCycle(l, n) {
      ReachSelf(l, l[n]);
      UpFirst(l, n, 0);
      assert Up(l, n, 1) == Some(l[n]);
      ReachOnCycle(l, n, l[n]);
    }
  }

  // ----- Changing the link of one namespace -----

  /** `l` and `m` agree on every namespace other than `n`. */
  ghost predicate SameOff(l: Links, m: Links, n: Name) {
    forall x | x != n :: (x in l <==> x in m) && (x in l ==> l[x] == m[x])
  }

  lemma {:induction false} UpAvoiding(l: Links, m: Links, n: Name, x: Name, k: nat)
    requires SameOff(l, m, n)
    requires forall j: nat | j < k :: Up(l, x, j) != Some(n)
    ensures Up(m, x, k) == Up(l, x, k)
    decreases k
  {
    if k > 0 { UpAvoiding(l, m, n, x, k - 1); }
  }

  /** Whether `n` is above `x` does not depend on the link of `n` itself. */
  lemma ReachIgnoresOwnLink(l: Links, m: Links, n: Name, x: Name)
    requires SameOff(l, m, n)
    ensures Reach(l, x, n) <==> Reach(m, x, n)
  {
    if Reach(l, x, n) {
      var k: nat :| Up(l, x, k) == Some(n);
      FirstArrival(l, m, n, x, k);
    }
    if Reach(m, x, n) {
      var k: nat :| Up(m, x, k) == Some(n);
      FirstArrival(m, l, n, x, k);
    }
  }

  lemma {:induction false} FirstArrival(l: Links, m: Links, n: Name, x: Name, k: nat)
    requires SameOff(l, m, n) && Up(l, x, k) == Some(n)
    ensures Reach(m, x, n)
    decreases k
  {
    if j: nat :| j < k && Up(l, x, j) == Some(n) {
      FirstArrival(l, m, n, x, j);
    } else {
      UpAvoiding(l, m, n, x, k);
    }
  }

  lemma {:induction false} UpUnchanged(l: Links, m: Links, n: Name, x: Name, k: nat)
    requires SameOff(l, m, n) && !Reach(l, x, n)
    ensures Up(m, x, k) == Up(l, x, k)
  {
    UpAvoiding(l, m, n, x, k);
  }

  /** A cycle after the change either passes through `n` or was there before. */
  lemma CycleThroughOrBefore(l: Links, m: Links, n: Name, c: Name)
    requires SameOff(l, m, n) && OnCycle(m, c)
    ensures (Reach(m, c, n) && OnCycle(m, n)) || (!Reach(l, c, n) && OnCycle(l, c))
  {
    ReachIgnoresOwnLink(l, m, n, c);
    if Reach(m, c, n) {
      ReachOnCycle(m, c, n);
    } else {
      BelowUp(m, c, c);
      var p: nat :| p >= 1 && Up(m, c, p) == Some(c);
      UpUnchanged(l, m, n, c, p);
      BelowUp(l, c, c);
    }
  }

  /** Making `p` the parent of `n` puts `n` on a cycle exactly when `n` is already at or above `p`. */
  lemma CycleMadeIff(l: Links, n: Name, p: Name)
    ensures OnCycle(l[n := p], n) <==> Reach(l, p, n)
  {
    ReachIgnoresOwnLink(l, l[n := p], n, p);
  }

  // ----- Ancestries -----

  ghost predicate Distinct(s: seq<Name>) {
    forall i, j | 0 <= i < j < |s| :: s[i] != s[j]
  }

  /** Each element of `s` but the first has its predecessor as parent. */
  ghost predicate Chain(l: Links, s: seq<Name>) {
    forall i | 0 < i < |s| :: s[i] in l && l[s[i]] == s[i - 1]
  }

  /** `a` lists the ancestors of `n`, root first and `n` last; if there is a cycle, the first
      ancestor met for the second time is repeated at the front. */
  ghost predicate IsAncestry(l: Links, n: Name, a: seq<Name>) {
    && |a| > 0 && a[|a| - 1] == n
    && Chain(l, a) && Distinct(a[1..])
    && (a[0] in a[1..] || a[0] !in l)
  }

  lemma {:induction false} ChainUp(l: Links, a: seq<Name>, i: nat)
    requires Chain(l, a) && i < |a|
    ensures Up(l, a[|a| - 1], |a| - 1 - i) == Some(a[i])
    decreases |a| - i
  {
    if i < |a| - 1 { ChainUp(l, a, i + 1); }
  }

  lemma {:induction false} AncestryClosed(l: Links, n: Name, a: seq<Name>, k: nat)
    requires IsAncestry(l, n, a)
    ensures Up(l, n, k).Some? ==> Up(l, n, k).value in a
    decreases k
  {
    if k > 0 && Up(l, n, k).Some? {
      AncestryClosed(l, n, a, k - 1);
      var m := Up(l, n, k - 1).value;
      var i :| 0 <= i < |a| && a[i] == m;
      if i == 0 {
        var j :| 0 <= j < |a[1..]| && a[1..][j] == a[0];
        assert a[j + 1] == m;
        assert Up(l, n, k) == Some(a[j]);
      } else {
        assert Up(l, n, k) == Some(a[i - 1]);
      }
    }
  }

  /** The listed names are exactly the namespace and everything above it. */
  lemma AncestryElements(l: Links, n: Name, a: seq<Name>, x: Name)
    requires IsAncestry(l, n, a)
    ensures x in a <==> Reach(l, n, x)
  {
    if x in a {
      var i :| 0 <= i < |a| && a[i] == x;
      ChainUp(l, a, i);
    }
    if Reach(l, n, x) {
      var k: nat :| Up(l, n, k) == Some(x);
      AncestryClosed(l, n, a, k);
    }
  }

  lemma AncestryNotLonger(l: Links, n: Name, a: seq<Name>, b: seq<Name>)
    requires IsAncestry(l, n, a) && IsAncestry(l, n, b)
    ensures |b| <= |a|
  {
    var d := |b| - |a|;
    if d > 0 {
      forall i | 0 <= i < |a| ensures a[i] == b[d + i] {
        ChainUp(l, a, i);
        ChainUp(l, b, d + i);
      }
      assert false;
    }
  }

  /** A namespace has one ancestry. */
  lemma AncestryUnique(l: Links, n: Name, a: seq<Name>, b: seq<Name>)
    requires IsAncestry(l, n, a) && IsAncestry(l, n, b)
    ensures a == b
  {
    AncestryNotLonger(l, n, a, b);
    AncestryNotLonger(l, n, b, a);
    forall i | 0 <= i < |a| ensures a[i] == b[i] {
      ChainUp(l, a, i);
      ChainUp(l, b, i);
    }
  }

  /** The number of parents that are not yet on the chain `s`. */
  ghost function Unclimbed(l: Links, s: seq<Name>): nat {
    |set x | x in l.Values && x !in s|
  }

  lemma ClimbShrinks(l: Links, s: seq<Name>, t: seq<Name>)
    requires |s| > 0 && s[0] in l && l[s[0]] !in s && t == [l[s[0]]] + s
    ensures Unclimbed(l, t) < Unclimbed(l, s)
  {
    var p := l[s[0]];
    var before := set x | x in l.Values && x !in s;
    var after := set x | x in l.Values && x !in t;
    assert after == before - {p} by { assert p in t; }
    assert p in before;
  }

  /** Extends the chain `s` upwards until a root or a repeated name is met. */
  ghost function Climb(l: Links, s: seq<Name>): (a: seq<Name>)
    requires |s| > 0 && Chain(l, s) && Distinct(s)
    ensures IsAncestry(l, s[|s| - 1], a)
    decreases Unclimbed(l, s)
  {
    if s[0] !in l then s
    else
      var t := [l[s[0]]] + s;
      assert t[1..] == s;
      if l[s[0]] in s then t
      else
        ClimbShrinks(l, s, t);
        Climb(l, t)
  }

  ghost function Ancestry(l: Links, n: Name): (a: seq<Name>)
    ensures IsAncestry(l, n, a)
  {
    Climb(l, [n])
  }

  lemma AncestryIs(l: Links, n: Name, a: seq<Name>)
    requires IsAncestry(l, n, a)
    ensures a == Ancestry(l, n)
  {
    AncestryUnique(l, n, a, Ancestry(l, n));
  }

  /** Only `n` and the namespaces below it see their ancestry change with the link of `n`. */
  lemma AncestryUnchanged(l: Links, m: Links, n: Name, x: Name)
    requires SameOff(l, m, n) && !Reach(l, x, n)
    ensures Ancestry(m, x) == Ancestry(l, x)
  {
    var a := Ancestry(l, x);
    forall y | y in a ensures y != n {
      AncestryElements(l, x, a, y);
    }
    forall i | 0 < i < |a| ensures a[i] in m && m[a[i]] == a[i - 1] {
      assert a[i] in a;
    }
    assert a[0] in a;
    AncestryIs(m, x, a);
  }

  /** A namespace is on a cycle exactly when its ancestry starts and ends with it. */
  lemma OnCycleIff(l: Links, n: Name)
    ensures OnCycle(l, n) <==> |Ancestry(l, n)| > 1 && Ancestry(l, n)[0] == n
  {
    var a := Ancestry(l, n);
    if |a| > 1 && a[0] == n {
      ChainUp(l, a, 0);
      BelowUp(l, n, n);
    } else if OnCycle(l, n) {
      BelowUp(l, n, n);
      var p: nat :| p >= 1 && Up(l, n, p) == Some(n);
      InnerClosed(l, n, a, p);
      assert false;
    }
  }

  /** If the ancestry loops back to a proper ancestor, the namespace itself is never met again. */
  lemma {:induction false} InnerClosed(l: Links, n: Name, a: seq<Name>, k: nat)
    requires IsAncestry(l, n, a) && k >= 1
    requires |a| == 1 || a[0] != n
    ensures Up(l, n, k).Some? ==> Up(l, n, k).value in a[..|a| - 1] && Up(l, n, k).value != n
    decreases k
  {
    var last := |a| - 1;
    if Up(l, n, k).Some? {
      if k == 1 {
        assert Up(l, n, 0) == Some(n);
        assert n == a[last];
        assert a[0] in a[1..] || a[0] !in l;
        assert Up(l, n, 1) == Some(a[last - 1]);
      } else {
        InnerClosed(l, n, a, k - 1);
        var m := Up(l, n, k - 1).value;
        var i :| 0 <= i < last && a[i] == m;
        if i == 0 {
          var j :| 0 <= j < |a[1..]| && a[1..][j] == a[0];
          assert a[j + 1] == m && j + 1 != last;
          assert Up(l, n, k) == Some(a[j]);
        } else {
          assert Up(l, n, k) == Some(a[i - 1]);
        }
      }
      var v :| 0 <= v < last && a[v] == Up(l, n, k).value;
      if v > 0 { assert a[1..][v - 1] != a[1..][last - 1]; }
    }
  }
}
